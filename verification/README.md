# The VOS replicated-state engine, verified

VOS replicates actors. Each replica runs an actor in a virtual machine, records what the
actor observed, and ships those records to its peers. This project models the four parts
that make all replicas end in the same state, and proves that they do:

- **Convergent data types.** A multi-value register, an observed-remove map, an add-wins
  set, an ordered list, text and a counter, with the change scope that numbers their
  operations. All of them are stores of entries by operation id; one run model
  (`OpStore`) gives convergence for every interleaving of edits, sends and merges.
- **The commit log.** A content-addressed graph of events, written by an agent thread and a
  sync ticker over one database, with crashes at any point; replay in causal order.
- **The refine journal and the tick.** An overlay of pending effects on storage, with
  nested marks and rollbacks, work-results checked against anchors, and up to 64 slices
  chained in a tick; dispatches of many ticks, recorded, and rebuilt from their stored logs.
  Guests are arbitrary deterministic functions of what they observed.
- **The wire formats** that logs, events, payloads and root sets are stored in.

Code that updates things in place is modelled by classes and methods with loops, each
proved equal to a function on values; the theorems are about those functions, for all
inputs and all runs. What such a function computes is also said without it: the order of a
list (`ListSiblings`) and of a replay (`ReplayRanks`), what a guest is told (`HostCalls`) and
an invoke answers (`InvokeAnswers`), what a tick replies (`TickReplies`), and the bytes
themselves (`Layouts`). `Orders` holds the order theory, `Codecs` the readers and writers
that the formats are built from.

How to read the modules, from the data types up:

| part | modules |
|---|---|
| data types | `OpStore`, `ListElements`, `ListPaths`, `ListTrees`, `ListOrder`, `ListWalk`, `ListEdits`, `ListSiblings`, `ChangeScopes`, `Lists`, `TextEdits`, `RecordedEdits`, `Texts`, `Registers`, `Maps`, `MapRuns`, `Counters` |
| commit log | `Dags`, `Replay`, `ReplayRanks`, `ReplayLoops`, `Logs`, `Tables`, `Commits`, `CommitRuns`, `CommitChain`, `CommitStores`, `LocalRuns`, `RootRows` |
| wire formats | `Codecs`, `Buffers`, `Payloads`, `WorkResults`, `PayloadLoops`, `LogCodecs`, `LogLoops`, `Layouts` |
| runtime | `Journals`, `JournalObjects`, `Refine`, `HostCalls`, `InvokeAnswers`, `RefineShift`, `Rejections`, `Ticks`, `TickAnchors`, `TickReplies`, `Filings`, `Replays`, `Dispatches`, `Mails`, `ServiceReplays`, `Continuations`, `Rebuilds`, `StateRows`, `Hosting`, `Unlogged`, `Hosts`, `Runtimes` |

## What the proofs assume

- Hashes are abstract. `Commits.Lawful` says that a hash names one content and that no
  content contains its own hash (a rank function); `WorkResults.AnchorPins` assumes the
  state hash injective. Peers may send a node whose children are not in canonical order,
  so a node may have names besides its own.
- Database transactions are atomic and reads do not fail. A crash loses exactly what is in
  memory.
- Operation ids are globally unique: two replicas never issue the same id.
- A guest makes at most one hostcall per unit of gas.
- `Replays.Accounted` is the condition under which the replay theorems cover a service child;
  it is asked only of the children that the recorded run itself invokes.

## Where a property fails, and exactly when

- A sync batch that crashes between merging a node and compacting leaves the node stored
  but unreachable, and merging it again does not repair that. `CommitChain.InsertThenCompact`
  gives the exact condition, `CommitChain.CrashOrphans` an instance.
- A local commit that has not been restored first can skip a state write that it should
  make. `CommitStores.LocalWriteRefines` gives the exact condition,
  `LocalRuns.UnrestoredLosesWrite` an instance; with restore it never happens in any run
  (`LocalRuns.LocalRunRefines`).
- A log that spells out a zero identity, and an event with an unstamped log, are accepted
  but do not re-encode to themselves: `LogCodecs.LogReencode` and `LogCodecs.EventReencode`
  give the exact conditions.
- Unknown flag bits of a payload are accepted and dropped (`WorkResults.Reencode`).
- A text edit that fails midway leaves the text unchanged, but what it already recorded
  stays in the open change scope, and is published if the error is swallowed
  (`TextEdits.SwallowedInsert`). `TextEdits.FailureLeavesNothing` and
  `TextEdits.EraseLeavesNothing` say exactly when nothing is left, `TextEdits.LastNumber` is
  an instance, `TextEdits.TypeTextExact` and `TextEdits.EraseTextExact` say what is.
- A slice refused for its suspension boundary has no effect and no reply, but the anchor and
  the effect bit of its work-result stay, and the bit alone makes the commit append a node.
  `TickAnchors.FailedSliceRemembered` gives the exact condition,
  `TickAnchors.YieldWithoutSuspension` and `TickAnchors.RefusedYieldAppends` the instances.
- Replay reproduces the reply of every invoke, but the journal of a service child only if
  what it journaled is what was filed for it (`Replays.ServiceExact`). Three causes of
  failure: a delivered state (`ServiceReplays.DeliveryNotReplayed`), a row the child stores
  (`ServiceReplays.StoreNotReplayed`), and effects filed before it failed
  (`ServiceReplays.TrapAfterTask`). For children that only look,
  `ServiceReplays.LookingChildExact` gives the condition in terms of the invoke.
- An invoke with an empty message is replayed as a bare wake-up, without the caller prefix
  its guest was handed (`Rebuilds.ItemExact`).
- A dispatch without effects and own writes stores no log, but it can suspend the guest
  (`Unlogged.SuspensionNotStored`), or resume it and so consume its continuation, by finishing
  (`Unlogged.ConsumptionNotStored`) or by being refused. A rebuild then starts the guest afresh,
  or resumes it at a stale point, and reports success all the same: `Rebuilds.FirstLossIsSilent`,
  and `Unlogged.RowLostSilently` as an instance in which a stored row is lost.
  `Rebuilds.RebuildExact` and `Hosting.HostedRebuildExact` give the exact condition,
  `Continuations.ContinuationKept` says which dispatches meet it for the continuation, and
  `Unlogged.UnkeptOwnRows` that its own rows do unless it was rejected, an empty state row
  counting as absent.

Where code and documentation disagree, the model follows the code: the payload module
documentation says that the committed-root anchor kind is rejected on decode, while the
decoder accepts it; and the comment on the replay wrapper in `vos/src/node.rs` says that it
always writes a trusted prefix, while it writes the one recorded in the log.

## Model

| member | source | states |
|---|---|---|
| `ChangeScopes.ChangeContext.ResetActorSlice` | vos/src/crdt.rs:73-92 | empties both the active scope and the completed change |
| `ChangeScopes.ChangeContext.BeginChange` | vos/src/crdt.rs:287-320 | opens a scope at ordinal 0 and forgets a completed change; a second scope is refused and the first left as it is |
| `ChangeScopes.ChangeContext.RebindChange` | vos/src/crdt.rs:255-286 | restarts the open scope under another change at ordinal 0 with nothing recorded; refused without a scope |
| `ChangeScopes.ChangeContext.CompleteChange` | vos/src/crdt.rs:322-349 | turns the open scope into the completed change it recorded |
| `ChangeScopes.ChangeContext.EndChange` | vos/src/crdt.rs:350-360 | closes the scope and keeps the completed change |
| `ChangeScopes.ChangeContext.NextOperation` | vos/src/crdt.rs:361-378 | hands out the next ordinal of the open change, or says which of the two errors it is and changes nothing |
| `ChangeScopes.ChangeContext.RecordOperation` | vos/src/crdt.rs:379-411 | appends a pending operation exactly when the id belongs to the open change |
| `ChangeScopes.ChangeContext.TakeOperations` | vos/src/crdt.rs:413-453 | consumes the completed change, and returns its operations in order, renamed for their dispatch, exactly when the change is that of the dispatch and the ordinals have no gap; says which error it is otherwise |
| `ChangeScopes.AllocationsDistinct` | vos/src/crdt.rs:255-378 | over any sequence of begin, rebind, allocate, record, complete and end that names distinct changes, no operation id is handed out twice |
| `ChangeScopes.SliceContiguous` | vos/src/crdt.rs:372-453 | a slice whose mutators all succeed reports ordinals 0, 1, 2, ... in order, across rebinds |
| `OpStore.FindConflict` | vos/src/crdt.rs:617-624 | finds the least id, in id order, on which two replicas disagree, or that there is none |
| `OpStore.JoinLaws` | vos/src/crdt.rs:617-630 | merge is commutative, associative and idempotent on pairwise compatible states, and stays compatible |
| `OpStore.MergeOrderIrrelevant` | vos/src/crdt.rs:617-630 | merging the same pairwise compatible states in any order and with any repetition gives the same state |
| `OpStore.RunSound` | vos/src/crdt.rs:571-631 | in every run of replicas issuing, sending and merging, each state is the declarative reading of the operations that replica received |
| `OpStore.Convergence` | vos/src/crdt.rs:571-631 | in every run: equal sets of received operations mean equal states; any two states merge; an entry is visible exactly when received and observed by no received operation; tombstones are of entries |
| `Registers.Register.VisibleId` | vos/src/crdt.rs:531-546 | the version shown is the greatest visible operation id, and there is one exactly when something is visible |
| `Registers.Register.Losers` | vos/src/crdt.rs:547-560 | the conflicting versions are exactly the visible ones but the winner |
| `Registers.Register.SetWithId` | vos/src/crdt.rs:596-616 | an assignment supersedes exactly the visible versions; the same id again is idempotent for the same value and divergent for another |
| `Registers.Register.Set` | vos/src/crdt.rs:575-595 | an assignment allocates and records one operation; a failure names its cause and leaves the register alone |
| `Registers.Register.Merge` | vos/src/crdt.rs:617-631 | entries and tombstones are united, or divergence is reported with the receiver unchanged |
| `Registers.RegisterSetIssues` | vos/src/crdt.rs:596-616 | a fresh assignment is one operation that observed every visible version, after which only it is visible |
| `Registers.LateAssignment` | vos/src/crdt.rs:596-616 | an assignment that arrives after it was superseded is kept and changes nothing that is seen |
| `Registers.ConcurrentAssignmentsConflict` | vos/src/crdt.rs:617-631 | two concurrent assignments are both visible after merging, whichever wins |
| `Registers.OrSet.InsertWithId` | vos/src/crdt.rs:821-831 | a fresh id adds one holder of the value; the same id again is idempotent or divergent |
| `Registers.OrSet.Insert` | vos/src/crdt.rs:809-819 | insertion allocates and records one operation; without a number it says why and changes nothing |
| `Registers.OrSet.Remove` | vos/src/crdt.rs:833-858 | removal supersedes exactly the visible holders of the value; nothing is recorded when there are none, and without a number it says why and changes nothing |
| `Registers.OrSet.Contains` | vos/src/crdt.rs:872-876 | a value is in the set exactly when some insertion of it is visible |
| `Registers.OrSet.Merge` | vos/src/crdt.rs:895-911 | elements and tombstones are united, or divergence is reported with the receiver unchanged |
| `Registers.SetEditsIssue` | vos/src/crdt.rs:821-870 | insertion and removal are operations of the replicated store: insertion observes nothing, removal the visible holders |
| `Registers.AddWins` | vos/src/crdt.rs:833-911 | an insertion the removing replica had not received survives the merge with that removal |
| `Maps.OrMap.InsertWithId` | vos/src/crdt.rs:684-703 | assigns under one key and keeps every operation id under exactly one key; an id used under another key or value is divergent |
| `Maps.OrMap.Insert` | vos/src/crdt.rs:660-683 | insertion allocates and records one operation; a failure names its cause and leaves the map alone; every id stays under one key |
| `Maps.OrMap.Remove` | vos/src/crdt.rs:714-736 | removal supersedes exactly the visible versions under the key; a failure names its cause and changes nothing; every id stays under one key |
| `Maps.OrMap.Merge` | vos/src/crdt.rs:754-779 | merges key by key, in key order, through a staged copy; on divergence the whole receiver is unchanged and the id reported is the least one with two keys, else the least one in conflict under the first divergent key |
| `Maps.MergeEntries` | vos/src/crdt.rs:754-779 | the staged per-key merge loop, in key order, yields the union of entries, or the least id in conflict under the first divergent key |
| `Maps.InsertRefines` | vos/src/crdt.rs:684-703 | on the flat store of (key, value) by id, insertion is one operation observing what was visible under its key |
| `Maps.RemoveRefines` | vos/src/crdt.rs:714-736 | on the flat store, removal is one operation observing what was visible under the key |
| `Maps.MergeRefines` | vos/src/crdt.rs:754-779 | merging maps is merging their flat stores |
| `Maps.MergeableIsCompatible` | vos/src/crdt.rs:754-770 | the per-key divergence check is exactly compatibility of the flat stores |
| `Maps.FlatInjective` | vos/src/crdt.rs:636-642 | the flat store determines the map |
| `MapRuns.FlatStep` | vos/src/crdt.rs:660-779 | every step of a run of map replicas (insert, remove, send, merge) is enabled for the flat stores and does to them what it does to the maps |
| `MapRuns.MapConvergence` | vos/src/crdt.rs:636-779 | in every run of map replicas: any two maps held or sent merge; equal received operations mean equal maps; every operation lives under one key; a version is visible under its key exactly if received and observed by no received operation |
| `ListTrees.PreorderSorted` | vos/src/crdt.rs:1090-1140 | the recursive preorder lists each element once, in lexicographic order of anchor chains (later time first, then id) |
| `ListOrder.OrderStability` | vos/src/crdt.rs:1090-1160 | if A is an anchor-closed part of B, the order of A is the order of B restricted to A |
| `ListOrder.InsertionPosition` | vos/src/crdt.rs:1051-1081 | a new element later than all others lands directly after its anchor and moves nothing |
| `ListWalk.OrderedListsAll` | vos/src/crdt.rs:1090-1140 | the walk lists every element exactly once for any map, dangling and cyclic anchors included |
| `ListWalk.OrderedIsPreorder` | vos/src/crdt.rs:1090-1140 | on anchored elements the walk is the recursive preorder, and the fallback pass adds nothing |
| `Lists.BuildChildTable` | vos/src/crdt.rs:1090-1110 | the elements per anchor: of two of them the one listed first is of a later time, or of the same time with the smaller id |
| `Lists.AppendDescendants` | vos/src/crdt.rs:1111-1131 | the stack-driven descent visits exactly what the worklist specification visits, in its order |
| `Lists.List.OrderedIds` | vos/src/crdt.rs:1090-1140 | the iterative order is the specified walk of the whole element map; on anchored elements, of two with one anchor the later one comes first, or at one time the one with the smaller id |
| `ListElements.NewestFirst` | vos/src/crdt.rs:1096-1110 | of two children of an anchor, the one listed first was inserted later, or at the same time with the smaller id |
| `ListSiblings.SiblingsInOrder` | vos/src/crdt.rs:1090-1131 | of two elements with one anchor, the later one, or at one time the one with the smaller id, comes first with everything anchored under it, before everything under the other |
| `ListSiblings.AnchorFirst` | vos/src/crdt.rs:1111-1131 | an element comes before everything anchored, directly or not, to it |
| `ListSiblings.ConcurrentInsertions` | vos/src/crdt.rs:998-1160 | two replicas insert at one index and merge: the values are old[..i], both values in the order of their ids, old[i..] |
| `ListSiblings.StraysInOrder` | vos/src/crdt.rs:1133-1138 | elements anchored to what is not there come in the order of their ids |
| `Ids.IdLessMeans` | vos/src/crdt.rs:160-181 | operation ids compare by the first byte in which their changes differ, and within one change by number |
| `Ids.BytesOrderMeans` | vos/src/commit.rs:1367-1390 | names compare by the first byte in which they differ; a prefix comes first |
| `Lists.List.VisibleList` | vos/src/crdt.rs:1083-1088 | the visible ids are the order restricted to elements not removed |
| `Lists.List.Get` | vos/src/crdt.rs:1028-1033 | the value at an index of the visible list, or none past the end |
| `Lists.List.InsertAfterWithId` | vos/src/crdt.rs:1051-1081 | stores one element at the next logical time; the same id again is idempotent or divergent; overflow of the clock is an error |
| `Lists.List.PushWithId` | vos/src/crdt.rs:972-975 | inserts after the last element of the order, hidden or not |
| `Lists.List.InsertWithId` | vos/src/crdt.rs:998-1005 | inserts after the visible element before the index; an index past the end is an error |
| `Lists.List.Push` | vos/src/crdt.rs:955-970 | appends with one recorded operation; a failure names its cause and leaves the list unchanged |
| `Lists.List.Insert` | vos/src/crdt.rs:977-996 | inserts at an index with one recorded operation; a failure names its cause and leaves the list unchanged |
| `Lists.List.Remove` | vos/src/crdt.rs:1007-1026 | returns the value at the index and hides exactly that element; a failure names its cause and changes nothing |
| `Lists.List.Merge` | vos/src/crdt.rs:1144-1160 | elements and tombstones are united, or divergence is reported with the receiver unchanged |
| `ListEdits.InsertAtEffect` | vos/src/crdt.rs:998-1081 | on any anchored list a fresh insertion at i turns the visible values into old[..i] + [v] + old[i..] |
| `ListEdits.PushBackEffect` | vos/src/crdt.rs:955-975 | a fresh push appends to the visible values |
| `ListEdits.RemoveAtEffect` | vos/src/crdt.rs:1007-1026 | a removal takes out exactly the value at the index |
| `ListEdits.ListEditsIssue` | vos/src/crdt.rs:955-1081 | each successful edit with a fresh id is one operation the run model admits |
| `ListEdits.ListRunAnchored` | vos/src/crdt.rs:1051-1160 | in every run of edits and merges, every anchor exists with a smaller logical time, at every replica and in the whole history |
| `ListEdits.OneOrder` | vos/src/crdt.rs:1090-1160 | in every run there is one order of everything ever inserted, and every replica shows it restricted to what it holds and has not seen removed |
| `Texts.Text.Insert` | vos/src/crdt.rs:1180-1205 | does to text and change scope what the character-by-character edit does, on success and on every failure; on success a valid text with new ids becomes old[..i] + text + old[i..], one operation recorded per character |
| `Texts.Text.Delete` | vos/src/crdt.rs:1226-1249 | does to text and change scope what the character-by-character edit does, on success and on every failure; on success exactly the range is gone, one operation recorded per character |
| `Texts.Text.Merge` | vos/src/crdt.rs:1251-1253 | the merge of the underlying lists, naming the least divergent id |
| `Texts.Text.AsString` | vos/src/crdt.rs:1255-1257 | the visible characters in order |
| `Texts.StageText` | vos/src/crdt.rs:1184-1201 | the character loop on the staged copy ends with the result and the scope of the specified edit, errors included |
| `Texts.StageDelete` | vos/src/crdt.rs:1230-1246 | the removal loop on the staged copy ends with the result and the scope of the specified edit, errors included |
| `TextEdits.TypeTextSucceeds` | vos/src/crdt.rs:1180-1205 | an insertion succeeds exactly if every character gets its number and its place, and then has recorded one operation for each |
| `TextEdits.EraseTextSucceeds` | vos/src/crdt.rs:1226-1249 | a deletion succeeds exactly if every character is there and gets its number, and then has recorded one operation for each |
| `TextEdits.TypeTextExact` | vos/src/crdt.rs:1180-1205 | on a valid text with new ids an insertion succeeds exactly if the scope has numbers and the clock has times for all of it; otherwise the error names what ran out and exactly as many insertions as there was room for stay recorded, with one number lost when it was the clock |
| `TextEdits.EraseTextExact` | vos/src/crdt.rs:1226-1249 | a deletion in range succeeds exactly if the scope has numbers for it; otherwise a removal for each number it had stays recorded |
| `TextEdits.FailureLeavesNothing` | vos/src/crdt.rs:1180-1205 | a failed insertion leaves no operation in the scope exactly if its first character already failed |
| `TextEdits.FirstFailsWhen` | vos/src/crdt.rs:1180-1205 | for a new number that is: no scope, no number left in it, or the clock at its end |
| `TextEdits.EraseLeavesNothing` | vos/src/crdt.rs:1226-1249 | a failed deletion in range leaves no operation in the scope exactly if the scope had no number at all |
| `TextEdits.LastNumber` | vos/src/crdt.rs:1180-1205 | two characters with one number left: the error is reported, and the first insertion stays recorded |
| `TextEdits.SwallowedInsert` | vos/src/crdt.rs:413-453 | if such a failure is swallowed, the completed change is taken without error and contains insertions whose ids the text does not hold |
| `TextEdits.ClockFailureLosesChange` | vos/src/crdt.rs:413-453 | if the clock ran out and anything is recorded afterwards, taking the change is refused as a whole |
| `TextEdits.TypeTextKeepsNumbering` | vos/src/crdt.rs:1180-1205 | the numbers of a scope stay new to the text through any insertion, successful or not |
| `TextEdits.ScopedTyping` | vos/src/crdt.rs:1180-1205 | under a scope that has numbered all elements of its change in a valid text, an insertion goes exactly as far as there are numbers and times |
| `RecordedEdits.TypedRecords` | vos/src/crdt.rs:1180-1205 | a successful insertion records for each character its number, the anchor its element has in the text, and the character |
| `RecordedEdits.ErasedRecords` | vos/src/crdt.rs:1226-1249 | a successful deletion records the removed characters in order, and hides exactly them |
| `RecordedEdits.OperationsTaken` | vos/src/crdt.rs:413-453 | operations are handed over exactly if the change is that of the dispatch and numbered without a gap; each under its dispatch, field, number and the name of the three, so no two share one under an injective naming; the two errors otherwise |
| `ListEdits.InsertTextEffect` | vos/src/crdt.rs:1180-1205 | character-by-character insertion splices the whole text at the index, unless the clock would overflow |
| `ListEdits.RemoveRangeEffect` | vos/src/crdt.rs:1226-1249 | character-by-character removal takes out exactly the range |
| `Counters.Accumulate` | vos/src/crdt.rs:1338-1350 | one pass with two saturating accumulators gives the saturated sums of the two signs, in any order of the operations |
| `Counters.Counter.Value` | vos/src/crdt.rs:1338-1358 | the difference of the two sums, clamped to the 64-bit range |
| `Counters.Counter.Merge` | vos/src/crdt.rs:1360-1371 | amounts are united, or divergence is reported by its least id with the receiver unchanged |
| `Counters.Counter.ApplyAmount` | vos/src/crdt.rs:1373-1384 | one amount per id; the same id again is idempotent or divergent |
| `Counters.Counter.Add` | vos/src/crdt.rs:1293-1336 | one signed amount under a recorded id; a reused id is idempotent or divergent; a failed allocation names its cause |
| `Counters.ValueExact` | vos/src/crdt.rs:1338-1358 | for up to 2^64 bounded operations nothing saturates: the value is the exact sum, clamped |
| `Counters.ValueRange` | vos/src/crdt.rs:1338-1358 | so the value is the sum of the amounts, or the end of the signed 64-bit range that the sum is beyond |
| `Counters.CounterConverges` | vos/src/crdt.rs:1338-1384 | in every run a counter is exactly the received amounts, any two merge, the sum of a merge counts shared operations once, and equal receipts mean equal sums |
| `Counters.MergeTotal` | vos/src/crdt.rs:1360-1371 | the sum of a merge is the two sums less the sum over shared ids |
| `Dags.GroundedIsWholeAncestry` | vos/src/commit.rs:1043-1108 | in an acyclic table a node is replayable exactly when every ancestor is stored |
| `Dags.CompactionExact` | vos/src/commit.rs:846-904 | compacted roots reach exactly what the candidates reached |
| `Dags.CompactionAntichain` | vos/src/commit.rs:846-904 | no compacted root is reachable from another through stored nodes |
| `ReplayLoops.CollectReachable` | vos/src/commit.rs:1043-1087 | the collection loop terminates and finds exactly the decodable nodes reachable from the roots |
| `ReplayLoops.BuildReverse` | vos/src/commit.rs:1370-1385 | in-degrees and the reverse edges of the collected nodes |
| `ReplayLoops.TopologicalOrder` | vos/src/commit.rs:1367-1406 | the queue loop emits the specified causal order of the collected nodes |
| `ReplayLoops.ReplayLogs` | vos/src/commit.rs:1043-1108 | replay returns the events of the specified order of the reachable nodes |
| `ReplayLoops.CompactCandidates` | vos/src/commit.rs:846-904 | the search terminates and keeps exactly the candidates no reached node names as a predecessor, on an acyclic table also when there is at most one; an undecodable reached row is an error |
| `Replay.KahnOrderEmits` | vos/src/commit.rs:1367-1406 | each node once, after its predecessors, and exactly the nodes whose whole ancestry is present |
| `Replay.ReplayEmits` | vos/src/commit.rs:1043-1108 | replay emits each event at most once, after its causal predecessors, and exactly the reachable ones of complete ancestry |
| `Replay.OrderConverges` | vos/src/commit.rs:1367-1406 | quarantined nodes change neither which nodes are emitted nor their order |
| `Replay.ReplayConverges` | vos/src/commit.rs:1051-1107 | replicas whose reachable complete parts agree replay the same events in the same order, whatever their roots and whatever else they store |
| `ReplayRanks.ReplayRanked` | vos/src/commit.rs:1367-1406 | of two replayed events the one whose last predecessor was replayed earlier comes first; with the same last predecessor, or none, the one with the smaller name |
| `ReplayRanks.ReplayUnique` | vos/src/commit.rs:1043-1108 | an order is the replay order exactly if it lists the reachable events of complete ancestry once each, predecessors first, and by that rule |
| `ReplayRanks.RankMeans` | vos/src/commit.rs:1391-1404 | the rank used by that rule is the place of the last predecessor |
| `Commits.SplitDelta` | vos/src/commit.rs:385-403 | separates the last state value from the other writes in order; a state tombstone is ignored |
| `Commits.RowsApplied` | vos/src/commit.rs:437-447 | the rows of a rebuild leave exactly the keys that occur, each with the value of its last row |
| `Commits.RowWritten` | vos/src/commit.rs:1200-1215 | after writes and deletes a row is what its last write says |
| `Commits.RowKept` | vos/src/commit.rs:1200-1215 | a row that no write names is as it was |
| `CommitStores.Database.SwapRows` | vos/src/commit.rs:437-447 | the row table holds exactly the keys that occur in the given rows, each with the value of its last row |
| `CommitStores.CrdtCommit.constructor` | vos/src/commit.rs:721-741 | an opened instance remembers the persisted roots, state and next sequence number |
| `CommitStores.CrdtCommit.CommitSplit` | vos/src/commit.rs:1112-1235 | one transaction with roots and sequence number read afresh: append on top of the roots, or rows only, or nothing; a log stamped for another event is refused |
| `CommitStores.CrdtCommit.Commit` | vos/src/commit.rs:1112-1235 | a commit is that transaction on the split delta |
| `CommitStores.CrdtCommit.CommitRebuilt` | vos/src/commit.rs:985-1008 | the state is the given one, the row table holds exactly the given rows, the last one winning per key, and no history is appended |
| `CommitStores.CrdtCommit.Reload` | vos/src/commit.rs:1014-1023 | roots and state are read again; the next sequence number is not |
| `CommitStores.CrdtCommit.InsertNode` | vos/src/commit.rs:787-840 | a peer node is stored and becomes a candidate root in memory exactly if its hash matches, it decodes, it is trusted and it is new; otherwise nothing changes, and a mismatch is reported exactly if the hash differs |
| `CommitStores.CrdtCommit.CompactRoots` | vos/src/commit.rs:846-924 | persisted and remembered candidates become their compaction, persisted and remembered; refused on an undecodable row |
| `CommitStores.CrdtCommit.ReplayLogs` | vos/src/commit.rs:1043-1108 | the replayed events are those of the reachable nodes of complete ancestry, each once |
| `CommitStores.LocalCommit.Restore` | vos/src/commit.rs:475-481 | returns the stored state and remembers it |
| `CommitStores.LocalCommit.Commit` | vos/src/commit.rs:487-522 | writes the state only when it differs from the remembered one, and the rows in order |
| `CommitStores.LocalCommit.CommitRebuilt` | vos/src/commit.rs:524-540 | the state is the given one and the row table holds exactly the given rows, the last one winning per key |
| `CommitStores.LocalWriteRefines` | vos/src/commit.rs:487-522 | a local commit is the plain application of its writes exactly unless it writes the remembered state while the stored one differs; after a restore it always is |
| `LocalRuns.LocalRunRefines` | vos/src/commit.rs:475-540 | in every run of commits, rebuilds and reopenings with restore, the stored state and rows are all writes applied in order, or after a rebuild the table of its rows |
| `LocalRuns.UnrestoredLosesWrite` | vos/src/commit.rs:487-522 | opened without restore over the stored state [1], a write of the empty state is skipped |
| `CommitRuns.RunInv` | vos/src/commit.rs:787-1235 | the invariant of every interleaving of commits, rebuilds, reloads, merged nodes, compactions and crashes |
| `CommitRuns.ReachNeverShrinks` | vos/src/commit.rs:787-1235 | in every interleaving, what the persisted roots reach is never lost |
| `CommitRuns.SettledReachable` | vos/src/commit.rs:787-924 | once a batch has been compacted, each node it inserted is reachable from the persisted roots, for good |
| `CommitRuns.BatchReachable` | vos/src/commit.rs:787-924 | a new node inserted anywhere in a batch is reachable from the next compaction of that batch on, whatever the agent does in between |
| `CommitChain.LocalEventsNumbered` | vos/src/commit.rs:1146-1230 | in every interleaving local events carry seq 0, 1, 2, ... without gap or reuse, stamped with the identity of their place, each below the next |
| `CommitChain.NeverMisnumbered` | vos/src/commit.rs:965-970 | in every interleaving, crashes and reloads included, the agent remembers exactly the next number, so a log stamped with the identity it announces is never refused |
| `CommitChain.ReplayEmitsChainPrefix` | vos/src/commit.rs:1043-1108 | in every interleaving the local events replay emits are a prefix of that chain in seq order, from the roots and from the agent clock |
| `CommitChain.PersistenceRefines` | vos/src/commit.rs:985-1235 | after every event of every run, state and rows are those of applying its writes in order to the slate before, or the table that holds exactly the rebuilt rows |
| `CommitChain.CommitAppends` | vos/src/commit.rs:1112-1235 | a commit appends exactly if it has a log and changes the state, writes another row or is said to bear effects; it is refused exactly if the log is then numbered for another event; the node holds the log under the next number on top of the stored roots and is the only root afterwards |
| `CommitChain.InsertThenCompact` | vos/src/commit.rs:787-924 | inserting and compacting makes a node reachable exactly when it was not stored before or the batch already reached it |
| `CommitChain.CrashOrphans` | vos/src/commit.rs:787-924 | a node inserted before a crash and inserted again after it stays unreachable |
| `RootRows.WriteRoots` | vos/src/commit.rs:1328-1335 | the row of a root set: its size, then its ids in order |
| `RootRows.ReadRoots` | vos/src/commit.rs:1337-1352 | reads the set back when the count accounts for every byte |
| `RootRows.RootsRoundTrip` | vos/src/commit.rs:1328-1352 | every root set survives its row |
| `RootRows.CanonicalRoots` | vos/src/commit.rs:1328-1352 | an accepted row re-encodes to itself exactly when its ids are strictly increasing |
| `Codecs.Cursor.ReadBytes` | vos/src/refine_payload.rs:550-557 | reads exactly n bytes or nothing |
| `Codecs.Cursor.ReadLE` | vos/src/refine_payload.rs:542-549 | reads a little-endian number of the given width |
| `Codecs.LEExact` | vos/src/refine_payload.rs:520-549 | the number reader accepts exactly the bytes of a number that fits the width |
| `Codecs.BlobExact` | vos/src/effect_log.rs:632-650 | the length-prefixed reader accepts exactly the bytes of a value whose length fits its prefix |
| `Payloads.EffectExact` | vos/src/refine_payload.rs:424-516 | an effect is read exactly from its own bytes, when its fields fit and it deletes no state row |
| `Payloads.DecodeEffectsExact` | vos/src/refine_payload.rs:400-421 | effect lists round-trip in both directions: accepted bytes are exactly the encodings of lists that fit |
| `PayloadLoops.EncodeEffect` | vos/src/refine_payload.rs:424-463 | appends the bytes of one effect to the buffer |
| `PayloadLoops.DecodeEffect` | vos/src/refine_payload.rs:468-516 | reads one effect from the cursor, payload slack refused |
| `PayloadLoops.EncodeEffectList` | vos/src/refine_payload.rs:400-407 | the bytes of an effect list |
| `PayloadLoops.DecodeEffectList` | vos/src/refine_payload.rs:411-421 | the list the bytes stand for, trailing bytes refused |
| `PayloadLoops.EncodePayload` | vos/src/refine_payload.rs:222-245 | the current-version bytes of a payload |
| `PayloadLoops.DecodePayload` | vos/src/refine_payload.rs:251-309 | the payload the bytes stand for, or none |
| `PayloadLoops.TransitionPreimage` | vos/src/refine_payload.rs:349-359 | the digest preimage: version, anchor and effects |
| `PayloadLoops.TakeStateWrite` | vos/src/refine_payload.rs:315-333 | takes the last state write and strips all of them |
| `WorkResults.DecodeExact` | vos/src/refine_payload.rs:251-309 | decoding accepts exactly the bytes of well-formed payloads of either version, under any flag byte that says the same |
| `WorkResults.RoundTrip` | vos/src/refine_payload.rs:222-309 | decode(encode(p)) = p exactly for the well-formed current-version payloads; an older one comes back with the current version |
| `WorkResults.Reencode` | vos/src/refine_payload.rs:251-309 | accepted current-version bytes re-encode to themselves with the unknown flag bits cleared, so to themselves exactly when none is set |
| `WorkResults.DecodeInjective` | vos/src/refine_payload.rs:251-309 | accepted strings that decode alike differ at most in unknown flag bits |
| `WorkResults.PreimageInjective` | vos/src/refine_payload.rs:349-359 | equal preimages of decoded payloads mean equal version, anchor and effects, and conversely |
| `WorkResults.FoldedPublicInjective` | vos/src/refine_payload.rs:381-393 | the folded public bytes determine anchor, digest and application bytes |
| `WorkResults.AnchorPins` | vos/src/refine_payload.rs:135-147 | an anchor determines the prior state it commits to, an empty row being absent |
| `Layouts.Digit` | vos/src/refine_payload.rs:520-549 | byte i of a number is its digit i to the base 256, the least significant first |
| `Layouts.EffectBytes` | vos/src/refine_payload.rs:424-463 | an effect is a tag from 1 to 5, the length of the rest in four bytes, and its fields |
| `Layouts.PayloadBytes` | vos/src/refine_payload.rs:222-245 | a payload is version 4, the two flags, the anchor, the reply, the effects and the public bytes |
| `Layouts.DigestBytes` | vos/src/refine_payload.rs:349-359 | the digest is taken over version, anchor and effects |
| `LogLoops.LogToBytes` | vos/src/effect_log.rs:189-215 | the stored bytes of a log |
| `LogLoops.LogFromBytes` | vos/src/effect_log.rs:220-281 | the log the bytes stand for, or none |
| `LogLoops.EventToBytes` | vos/src/effect_log.rs:355-363 | the stored bytes of an event |
| `LogLoops.EventFromBytes` | vos/src/effect_log.rs:368-384 | the event the bytes stand for, stamped with its identity, or none |
| `LogCodecs.LogExact` | vos/src/effect_log.rs:189-281 | a log is read exactly from its own bytes and from the spelling that writes out a zero identity; the count guards refuse nothing else |
| `LogCodecs.LogRoundTrip` | vos/src/effect_log.rs:189-281 | from_bytes(to_bytes(log)) = log exactly when every length fits its field |
| `LogCodecs.LogReencode` | vos/src/effect_log.rs:189-281 | accepted bytes re-encode to themselves exactly unless a zero identity is written out after the records |
| `LogCodecs.EventExact` | vos/src/effect_log.rs:339-384 | exactly three spellings are read as an event: stamped, unstamped, and unstamped with the zero written out |
| `LogCodecs.EventRoundTrip` | vos/src/effect_log.rs:355-384 | an event is read back from its bytes exactly when its log carries the identity of its (origin, seq) |
| `LogCodecs.AppendedRoundTrip` | vos/src/effect_log.rs:339-384 | a freshly appended event survives storage |
| `LogCodecs.EventReencode` | vos/src/effect_log.rs:355-384 | accepted event bytes re-encode to themselves exactly if their log already carries the derived identity |
| `Layouts.LogBytes` | vos/src/effect_log.rs:189-215 | a log is its message, replies, anchor, caller and effect records, and its identity unless that is zero |
| `Layouts.RecordBytes` | vos/src/effect_log.rs:189-215 | an effect record is the reply index, the service, and the effects with their length |
| `Layouts.ReplicatedEventBytes` | vos/src/effect_log.rs:355-363 | an event is version 1, origin, sequence number and log |
| `Layouts.ItemBytes` | vos/src/actors/lifecycle.rs:515-530 | a dispatched item is the marker 0xFD, five bytes of caller, the identity and the message |
| `Layouts.ReservedKeys` | vos/src/actors/lifecycle.rs:60-70 | the keys of the state row and of the committed root |
| `JournalObjects.ServiceStorage.Read` | vos/src/runtime.rs:625-627 | the row of a service, if it is there |
| `JournalObjects.ServiceStorage.Write` | vos/src/runtime.rs:629-634 | stores one row and no other |
| `JournalObjects.ServiceStorage.Delete` | vos/src/runtime.rs:636-640 | removes one row; a service without rows is left alone |
| `JournalObjects.ServiceStorage.Apply` | vos/src/runtime.rs:1455-1466 | commits the journal rows in order and captures those of the ticked service |
| `JournalObjects.RefineJournal.JournaledRead` | vos/src/runtime.rs:411-417 | the latest entry of that row of that service, found from the end |
| `JournalObjects.RefineJournal.EffectiveRead` | vos/src/runtime.rs:423-433 | the overlay value, tombstones absent, else the stored row |
| `JournalObjects.RefineJournal.AbsorbEffects` | vos/src/runtime.rs:435-459 | effects are appended in order, self-directed transfers as self-messages |
| `Mails.MailAbsorbed` | vos/src/runtime.rs:435-459 | no mail is lost: what effects send to the service itself is its own queue, and what they send to any other is on its way, in order |
| `JournalObjects.RefineJournal.CurrentMark` | vos/src/runtime.rs:464-472 | the current lengths |
| `JournalObjects.RefineJournal.Rollback` | vos/src/runtime.rs:478-485 | every list is cut back to the mark |
| `Journals.OverlayRefinesCommit` | vos/src/runtime.rs:402-433 | for every journal and storage an effective read is the read of that row after draining the journal |
| `Journals.RollbackUndoes` | vos/src/runtime.rs:464-485 | rolling back to a mark drops exactly what was appended since |
| `Journals.NestedRollback` | vos/src/runtime.rs:464-485 | however appends, marks, aborts and closes nest, rolling back to any open mark restores the journal of that mark |
| `StateRows.StateWrittenIsLast` | vos/src/refine_payload.rs:315-333 | the state taken off a list of effects is what absorbing the list would have left in the state row |
| `StateRows.OthersUntouched` | vos/src/refine_payload.rs:315-333 | stripping the state writes changes no other row |
| `Hosts.Host.AnchorNow` | vos/src/runtime.rs:575-590 | the composite root row if it has 32 bytes, else the anchor of the state |
| `Hosts.Host.RecordAndWrite` | vos/src/runtime.rs:1896-1937 | an output over a bounded buffer becomes the status 6 whatever the cap, otherwise one over the recording cap at depth 1 the status 2, otherwise it goes out as it is; at depth 1 under recording exactly that is appended to the replies, and nothing else changes |
| `Hosts.Host.RecordInvokeEffects` | vos/src/effect_log.rs:504-511 | files encoded effects under the reply still to come |
| `Hosts.Host.NextReply` | vos/src/effect_log.rs:557-565 | the next recorded reply, or exhaustion remembered |
| `Hosts.SelectEffects` | vos/src/effect_log.rs:577-582 | the records filed under one reply, in order |
| `Hosts.Host.ReplayInvoke` | vos/src/runtime.rs:2441-2473 | the recorded reply with its effects folded in, or PANICKED with none of them |
| `Hosts.TaskOutput` | vos/src/runtime.rs:2236-2360 | what a Task halt is worth: effects without the state write and an envelope, or a crash status and no effect |
| `Hosts.Host.TaskInvoke` | vos/src/runtime.rs:2146-2373 | runs a Task on its packed input, files and absorbs its effects under the parent, and delivers its output |
| `Hosts.Host.ExternalInvoke` | vos/src/runtime.rs:2582-2630 | an external reply packed as an envelope, or NOT_FOUND |
| `Hosts.Host.FinishChild` | vos/src/runtime.rs:2806-2885 | a service child contributes all it journaled with its checked work-result, or nothing |
| `Hosts.Host.ServiceInvoke` | vos/src/runtime.rs:2648-2890 | delivers the state through the journal, runs the child and delivers its output |
| `Hosts.Host.HandleInvoke` | vos/src/runtime.rs:2380-2890 | the branches of an invoke in order: private record, replay, depth, Task, service, external, not found |
| `InvokeAnswers.InvokeDelivers` | vos/src/runtime.rs:1896-1937 | every invoke not answered from a recording hands out its outcome, by branch: 6 if it is over the buffer, else 2 at depth 1 over the recording cap, else the bytes; that is what is recorded at depth 1 |
| `InvokeAnswers.InvokeReplays` | vos/src/runtime.rs:2441-2473 | a replayed invoke answers the next recorded reply, or 2 with nothing absorbed; once they are used up it answers 2 and remembers it |
| `InvokeAnswers.TaskAnswers` | vos/src/runtime.rs:2236-2360 | a Task that halted well is worth an envelope with the state row its effects would leave, and all its other effects; a recorded one adds its proof row, leaves nothing if it does not fit the buffer, and may not yield |
| `InvokeAnswers.TaskFails` | vos/src/runtime.rs:2236-2300 | any other end of a Task is worth the status 4 if it ran out of gas, else 2, and no effects |
| `InvokeAnswers.ChildAnswers` | vos/src/runtime.rs:2806-2885 | a service child hands through opaque bytes, turns a work-result that names its rows into an envelope with the state it leaves, and is otherwise a crash that leaves nothing |
| `InvokeAnswers.ChildCrashes` | vos/src/runtime.rs:2743-2760 | a child that crashed or ran dry leaves the journal as it was |
| `InvokeAnswers.ChildGiven` | vos/src/runtime.rs:2694-2725 | an invoke input is the length of the state, the state and the message; the child gets exactly those |
| `InvokeAnswers.ServiceCode` | vos/src/runtime.rs:2560-2572 | the code of a service is its number in four bytes, least significant first, and 28 zeros, and no other code names it |
| `InvokeAnswers.DeliveredState` | vos/src/runtime.rs:2706-2716 | the state a child is given is the state it reads |
| `InvokeAnswers.TaskSees` | vos/src/runtime.rs:423-433 | a Task is shown the rows it names as its parent would read them |
| `InvokeAnswers.GasGiven` | vos/src/runtime.rs:2658-2662 | a child gets its limit, or the default if it names none or more |
| `Hosts.Host.HandleCall` | vos/src/runtime.rs:1643-1830 | a fetch takes the first item; a read gives the row of the drained journal and changes nothing; stores, sends and preimages are queued; a record intent is refused unless recording and replay are off |
| `HostCalls.RunAnswers` | vos/src/runtime.rs:1643-1830 | over any sequence of calls of any guest: the mail is handed out item by item, a read gives the last value the guest stored or the row before the run, and what it queued is in the journal in order |
| `HostCalls.RunEnds` | vos/src/runtime.rs:1529-1637 | such a run ends with the output cut to 1 MiB, panicked on a trap or a second suspension, or out of gas, and with that state and mail |
| `HostCalls.RunSuspends` | vos/src/runtime.rs:1529-1637 | a top-level guest goes on told that it was not resumed, with its history saved; a child is only acknowledged |
| `HostCalls.RunInvokes` | vos/src/runtime.rs:2380-2400 | an invoke runs one level deeper on the state so far, and its answer is the next thing the guest is told |
| `HostCalls.ReadAfterStore` | vos/src/runtime.rs:1694-1716 | a guest that stores a row and reads it back is told what it stored |
| `Hosts.Host.RunRefine` | vos/src/runtime.rs:1529-1637 | drives the guest to its halt; the first suspension of a slice snapshots it, a second one fails it |
| `RefineShift.RunShift` | vos/src/runtime.rs:1529-1637 | for every guest: running over journaled entries is running over storage with those entries committed, and only appends to them, at every invoke depth |
| `RefineShift.InvokeShift` | vos/src/runtime.rs:2380-2890 | the same of an invoke, with nested marks and rollbacks |
| `Rejections.RunRejects` | vos/src/runtime.rs:2419-2430 | a run ends rejected exactly when something in it, at any depth, asked for a private record under replication; no rollback undoes that |
| `Runtimes.ServiceTick.JudgeExit` | vos/src/runtime.rs:1246-1336 | an exit is trapped, rejected or accepted; only an accepted work-result with the expected anchor is absorbed |
| `Runtimes.ServiceTick.SettleEnd` | vos/src/runtime.rs:1251-1428 | what each kind of end leaves: an accepted work-result its reply and forbidden mark, a failed slice neither; a yield its continuation and the unfetched mail before the self-messages; idle and rejection no continuation; a refused record an empty journal |
| `Runtimes.ServiceTick.RunOne` | vos/src/runtime.rs:1158-1428 | one slice, run and settled |
| `Runtimes.ServiceTick.RunSlices` | vos/src/runtime.rs:1158-1446 | up to 64 slices chained over self-messages, the rest spilled; a continuation is resumed by the first only |
| `Runtimes.Runtime.CommitJournal` | vos/src/runtime.rs:1448-1471 | rows, preimages, requeued mail, transfers and services to create go to the host in order |
| `Runtimes.PreimageProvided` | vos/src/runtime.rs:1467-1469 | a preimage is the last one provided under its hash |
| `Runtimes.PreimageHeld` | vos/src/runtime.rs:1467-1469 | under a hash that none is provided for, it is the one held before |
| `Runtimes.Runtime.TickService` | vos/src/runtime.rs:1138-1472 | one service tick: its slices on one journal, then its commit |
| `Ticks.ChainSerial` | vos/src/runtime.rs:1158-1446 | the chain on one journal is the serial execution in which every accepted slice is committed before the next one runs |
| `Ticks.TickCommitsAccepted` | vos/src/runtime.rs:1138-1472 | for every guest a tick commits exactly the contributions of its accepted slices in order; a failed slice contributes nothing and leaves no reply; a private-record rejection commits nothing |
| `Ticks.SerialShape` | vos/src/runtime.rs:1158-1446 | every slice but the last ended idle, and the last one decides |
| `TickAnchors.TickAnchorChain` | vos/src/runtime.rs:537-590 | the anchor chain of a tick: each absorbed work-result names the rows with all slices before it committed and the entries of its own run on top, an accepted one adds its effects to those; the dispatch keeps the first anchor, and its effect bit says whether any work-result had effects |
| `TickReplies.TickReply` | vos/src/runtime.rs:1251-1428 | the reply of a tick is that of its last slice with a work-result, and it is marked forbidden exactly if it was before or one of its work-results is; a failed last slice leaves neither |
| `TickReplies.Verdict` | vos/src/runtime.rs:1246-1396 | a slice is idle or yields with a work-result exactly if that names the rows it left and says whether it goes on in agreement with its suspension |
| `TickReplies.OpaqueVerdict` | vos/src/runtime.rs:1262-1317 | it is idle or yields without one exactly if its output does not look like one, and its first byte agrees with its suspension |
| `TickReplies.NoVerdict` | vos/src/runtime.rs:1246-1266 | a slice traps exactly if its run did not halt, and is refused exactly if a private record was asked for at any depth |
| `TickReplies.HaltReplies` | vos/src/runtime.rs:1290-1312 | a guest that halts at once with a work-result: its reply is the answer, and its effects are the journal |
| `TickReplies.YieldRequeues` | vos/src/runtime.rs:1362-1378 | a slice that yields queues again what it had not fetched, then what it sent itself |
| `TickReplies.MailDelivered` | vos/src/runtime.rs:1211-1215 | a slice is given the non-empty items, in order |
| `TickReplies.EndlessMail` | vos/src/runtime.rs:1429-1446 | a service that always writes to itself is cut after 64 slices, and its last message waits for the next tick |
| `TickAnchors.RefusedLate` | vos/src/runtime.rs:1338-1396 | a slice is refused after absorption exactly if its anchor is right and yielding disagrees with suspending |
| `TickAnchors.FailedSliceRemembered` | vos/src/runtime.rs:1246-1428 | a failed slice leaves no entry and no reply; anchor and effect bit are as before exactly if nothing was absorbed, or an anchor was known and the work-result had no effects or some were known |
| `TickAnchors.YieldWithoutSuspension` | vos/src/runtime.rs:1338-1350 | a guest that yields without suspending is refused, and its anchor and effect bit stay |
| `TickAnchors.EffectBitAppends` | vos/src/commit.rs:1112-1135 | a dispatch that wrote nothing is committed as a node exactly if its effect bit is set |
| `TickAnchors.RefusedYieldAppends` | vos/src/commit.rs:1112-1135 | so a refused yield that carried effects appends a node although its tick wrote nothing |
| `StateRows.ChainKeeps` | vos/src/runtime.rs:435-459 | no tick ever journals a tombstone of a state row |
| `StateRows.OwnWritesCarry` | vos/src/runtime.rs:1455-1466 | the captured writes do to the ticked service what draining the whole journal does |
| `StateRows.TickMirrors` | vos/src/runtime.rs:1455-1466 | if the database mirrors a service, then after any tick the captured writes applied to it mirror the service again |
| `Replays.InvokeReplay` | vos/src/runtime.rs:2441-2473 | every recorded invoke that is not rejected replays with the same bytes, and with the journal made of what it filed; so with the same journal exactly if the two agree, as they always do for Tasks and external targets |
| `Replays.RunReplay` | vos/src/runtime.rs:1529-1637 | a recorded run whose own service children are accounted for replays with the same exit, mail and journal |
| `Filings.RunFilesMore` | vos/src/runtime.rs:2364-2371 | below the top level a run files no reply, and only readable effect records without state writes, all under the coming reply |
| `Replays.ServiceExact` | vos/src/runtime.rs:2648-2890 | a service child is reproduced exactly if its run is kept and all it journaled is what its own invokes filed, or it is thrown away and they filed nothing |
| `ServiceReplays.DeliveryNotReplayed` | vos/src/runtime.rs:2710-2716 | a child that was given a state and is kept is never reproduced |
| `ServiceReplays.FailedChildExact` | vos/src/runtime.rs:2743-2760 | a child that fails is reproduced exactly if nothing it invoked filed effects |
| `ServiceReplays.TrapAfterTask` | vos/src/runtime.rs:2364-2371 | a child that runs a Task with effects and traps: live they are rolled back, on replay they are absorbed |
| `ServiceReplays.KeptChildExact` | vos/src/runtime.rs:2806-2885 | a kept child that filed nothing is reproduced exactly if it journaled nothing, and then it was given no state |
| `ServiceReplays.StoreNotReplayed` | vos/src/runtime.rs:1711-1756 | a child that stores a row and halts: the row is there live and missing on replay |
| `ServiceReplays.LookingChildExact` | vos/src/runtime.rs:2648-2890 | a child that only fetches, reads, suspends, halts or traps is reproduced exactly if it was given no state or is not kept |
| `ServiceReplays.PlainDispatch` | vos/src/runtime.rs:2380-2890 | every dispatch of a guest whose service children only look and get no state satisfies the condition of the replay theorem |
| `Dispatches.DriveEnds` | vos/src/node.rs:11448-11458 | once a dispatch has used up its mail, allowing more ticks changes nothing |
| `Dispatches.RecordReplay` | vos/src/runtime.rs:1896-1937 | recording a dispatch of any number of ticks that is not rejected and whose service children are accounted for, storing and reading its log, and replaying it on a host with the same rows but any Tasks, services and targets gives the same rows, reply, anchor and continuation, uses up the same mail, and ends complete |
| `Rebuilds.ItemExact` | vos/src/node.rs:11378-11389 | the item a stored log is replayed with is the one the guest had, exactly unless that was an invoke with an empty message |
| `Rebuilds.Undelivered` | vos/src/node.rs:11426-11442 | a message over the fetch buffer changes neither rows nor continuation and is no effect |
| `Rebuilds.RebuildExact` | vos/src/node.rs:3622-3725 | for a history of one service whose stored dispatches can each be replayed from their logs (delivered, not rejected, out of mail, of storable size, service children accounted for, not an invoke with an empty message): replaying the stored bytes alone, on any host that starts with the same rows, gives back rows and continuation after every prefix if and only if every message without a stored log left both as they were; and then every replay runs out of mail, consumes its log exactly and meets the recorded anchor |
| `Rebuilds.FirstLossIsSilent` | vos/src/node.rs:3622-3725 | the first message without a log that touched rows or continuation makes the rebuild disagree, and no replay reports anything |
| `Continuations.ContinuationKept` | vos/src/runtime.rs:1251-1428 | a dispatch leaves the continuation as it was exactly if its first slice trapped or was refused a private record, or there was none and the last settled slice did not yield, or there was one and the last settled slice yielded at that very point again |
| `Continuations.OneSliceKeeps` | vos/src/runtime.rs:1251-1428 | for a dispatch of one slice that is: it trapped or was refused, or there was no continuation and it did not yield |
| `Continuations.YieldsLater` | vos/src/runtime.rs:1529-1637 | a resumed slice never yields at the point it resumed from |
| `Continuations.TrapLeavesWaiting` | vos/src/runtime.rs:1251-1428 | a dispatch that began without a continuation and whose last slice trapped can leave the guest waiting, so the last settled slice counts and not the last one |
| `Hosting.DriveMirrors` | vos/src/runtime.rs:1455-1466 | if the stored rows mirror a service, they do again with the captured writes of a whole dispatch applied |
| `Hosting.LinearReplay` | vos/src/commit.rs:1043-1108 | of a store written by one host alone, replay from the persisted roots emits exactly its own nodes in the order they were appended |
| `Hosting.ReplayedIsStored` | vos/src/commit.rs:1043-1108 | for any messages served from an empty store, the logs it replays are those the commits kept, in order, as they were stamped |
| `Hosting.HostedRebuildExact` | vos/src/node.rs:11144-11260 | end to end, with the commit deciding what becomes history: rebuilding from what the store replays gives back rows and continuation after every message if and only if every message whose log was not kept left both as they were |
| `Unlogged.ServeRecords` | vos/src/node.rs:11144-11260 | unless it is rejected, a dispatch ends with its log |
| `Unlogged.UnkeptOwnRows` | vos/src/commit.rs:1112-1135 | if the store mirrors the service, a dispatch whose log is not kept bore no effects, changed nothing stored, and left its own rows as they were, an empty state row counting as absent |
| `Unlogged.ServedContinuation` | vos/src/node.rs:11144-11260 | and it left the continuation as it was exactly if its slices spare it |
| `Unlogged.SuspensionNotStored` | vos/src/node.rs:11644-11760 | a wake-up after which the guest only waits: the commit answers that nothing was appended, the store is unchanged, and the guest has a continuation |
| `Unlogged.ConsumptionNotStored` | vos/src/node.rs:11644-11760 | a wake-up that resumes a guest which is then done: the commit answers that nothing was appended, and the continuation is gone |
| `Unlogged.RowLostSilently` | vos/src/node.rs:3622-3725 | a guest that waits and, woken, stores a row: two wake-ups leave one log, its replay is complete and every check passes, and the rebuilt rows lack the row |

## Left out

- The virtual machine, its memory, snapshots, gas accounting and precompiled cryptography; a guest is a function of its observations.
- Truncation of rows and mail copied into a guest's buffer, which is a function of the value and the buffer.
- The preimage lookup, the service-creation, clock, boot-context, gas and debug hostcalls.
- Registration of services created in a tick; created services are only queued in the journal.
- Storage of continuations as header rows and blobs; a continuation is the history it resumes from, kept beside the rows.
- The grouping of pending transfers by service and the order in which a tick visits services; a tick is modelled for one service.
- The byte layout of invoke inputs, Task inputs and proof records, which are functions given to the model.
- Failure to construct or restore a kernel.
- The payload bytes of recorded operations: tags and operands are kept, not their encoding.
- The initialisation of replicated fields, how a dispatch derives its change and operation ids, and text insertion with an explicit change.
- The replay-format marker, the decision of the node validator, the node wire format and database errors.
- Wrap-around of the 64-bit sequence number and of lengths on machines with smaller words.
- NoCommit, trait defaults and accessors of the commit strategies: they keep nothing, or hand on what the modelled ones keep.
- RootRows.ReadRoots: does not model overflow of the product of the count and the id width, because lengths are unbounded here.
- Dispatches.RecordReplay: says nothing of a dispatch that never runs out of mail, because a dispatch is as many ticks as are needed, whatever their number.
- Rebuilds.RebuildExact: keeps one guest for the whole history and resets the reply status with every dispatch, because code changes and the status a told message leaves are not recorded in logs.
- Hosting.HostedRebuildExact: the store holds only the nodes of one host, which serves without restarting, because merged histories are replayed in an order no single host lived through.
- Dispatches that deliver no message, and the routing of external mail after a commit.
