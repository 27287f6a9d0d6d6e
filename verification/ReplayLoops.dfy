/** The worklist loops over the stored rows: collecting, ordering, compacting. */
module ReplayLoops {
  import opened Options
  import opened Orders
  import opened Ids
  import opened Dags
  import opened Replay

  /** A row of the DAG table: bytes that decode, or that do not. */
  datatype Row<P> = Good(node: Node<P>) | Garbage

  type Table<P> = map<Cid, Row<P>>

  function Decodable<P>(table: Table<P>): Dag<P> {
    map c | c in table && table[c].Good? :: table[c].node
  }

  lemma PopShrinks(a: set<Cid>, seen: set<Cid>, c: Cid)
    requires c in a && c !in seen
    ensures |a - (seen + {c})| < |a - seen|
  {
    assert a - seen == (a - (seen + {c})) + {c};
  }

  /** Pushes the members of a set, in key order. */
  method PushAll(stack: seq<Cid>, more: set<Cid>) returns (r: seq<Cid>)
    ensures forall c :: c in r <==> c in stack || c in more
  {
    CidsInOrderLists(more);
    r := stack + CidsInOrder(more);
  }

  lemma PopMembers(stack: seq<Cid>)
    requires stack != []
    ensures forall c :: c in stack <==> c in stack[..|stack| - 1] || c == stack[|stack| - 1]
  {
    assert stack == stack[..|stack| - 1] + [stack[|stack| - 1]];
  }

  lemma AddNode<P>(nodes: Dag<P>, cid: Cid, node: Node<P>)
    ensures nodes[cid := node].Keys == nodes.Keys + {cid}
  {
  }

  /** The state of the collecting loop, inside a set `within` that is closed under children. */
  ghost predicate Collecting<P>(dag: Dag<P>, roots: set<Cid>, within: iset<Cid>, nodes: Dag<P>, stack: seq<Cid>) {
    && (forall c :: c in stack ==> c in within)
    && (forall c :: c in nodes ==> c in dag && nodes[c] == dag[c] && c in within)
    && (forall c :: c in roots ==> c in nodes || c in stack || c !in dag)
    && (forall c, d :: c in nodes && d in Children(dag, c) ==> d in nodes || d in stack || d !in dag)
  }

  lemma SkipStep<P>(dag: Dag<P>, roots: set<Cid>, within: iset<Cid>, nodes: Dag<P>, stack: seq<Cid>, rest: seq<Cid>, cid: Cid)
    requires Collecting(dag, roots, within, nodes, stack) && (cid in nodes || cid !in dag)
    requires forall c :: c in stack <==> c in rest || c == cid
    ensures Collecting(dag, roots, within, nodes, rest)
  {
  }

  lemma CollectStep<P>(dag: Dag<P>, roots: set<Cid>, within: iset<Cid>, nodes: Dag<P>, stack: seq<Cid>, rest: seq<Cid>, cid: Cid, next: seq<Cid>)
    requires Collecting(dag, roots, within, nodes, stack) && cid in dag && ClosedUnder(dag, within)
    requires forall c :: c in stack <==> c in rest || c == cid
    requires forall c :: c in next <==> c in rest || (c in dag[cid].children && c !in nodes)
    ensures Collecting(dag, roots, within, nodes[cid := dag[cid]], next)
  {
    assert cid in stack && dag[cid].children == Children(dag, cid);
  }

  method CollectWithin<P>(table: Table<P>, roots: set<Cid>, ghost within: iset<Cid>) returns (nodes: Dag<P>)
    requires ClosedUnder(Decodable(table), within) && forall c :: c in roots ==> c in within
    ensures Collecting(Decodable(table), roots, within, nodes, [])
  {
    ghost var dag := Decodable(table);
    nodes := map[];
    var stack := PushAll([], roots);
    while stack != []
      invariant Collecting(dag, roots, within, nodes, stack)
      decreases |dag.Keys - nodes.Keys|, |stack|
    {
      var cid, rest := stack[|stack| - 1], stack[..|stack| - 1];
      PopMembers(stack);
      if cid in nodes || cid !in table || table[cid].Garbage? {
        SkipStep(dag, roots, within, nodes, stack, rest, cid);
        stack := rest;
      } else {
        var node := table[cid].node;
        var next := PushAll(rest, set d | d in node.children && d !in nodes);
        CollectStep(dag, roots, within, nodes, stack, rest, cid, next);
        PopShrinks(dag.Keys, nodes.Keys, cid);
        AddNode(nodes, cid, node);
        nodes, stack := nodes[cid := node], next;
      }
    }
  }

  method CollectReachable<P(!new)>(table: Table<P>, roots: set<Cid>) returns (nodes: Dag<P>)
    ensures nodes == Below(Decodable(table), roots)
  {
    ghost var dag := Decodable(table);
    ReachedClosed(dag, roots);
    forall c | c in roots ensures c in Reached(dag, roots) { ReachesRoot(dag, roots, c); }
    nodes := CollectWithin(table, roots, Reached(dag, roots));
    CollectedAll(dag, roots, nodes);
  }

  lemma CollectedAll<P(!new)>(dag: Dag<P>, roots: set<Cid>, nodes: Dag<P>)
    requires Collecting(dag, roots, Reached(dag, roots), nodes, [])
    ensures nodes == Below(dag, roots)
  {
    var s := iset c | c in nodes || c !in dag;
    forall c | Reaches(dag, roots, c) && c in dag ensures c in nodes {
      ReachesLeast(dag, roots, c, s);
    }
  }

  // ---- Kahn's algorithm with in-degrees ----

  /** The nodes that name `p` as a predecessor. */
  function Parents<P>(nodes: Dag<P>, p: Cid): set<Cid> {
    set s | s in nodes && p in nodes[s].children
  }

  ghost predicate InDegrees<P>(nodes: Dag<P>, indegree: map<Cid, nat>, done: set<Cid>) {
    indegree.Keys == nodes.Keys && forall s :: s in nodes ==> indegree[s] == |nodes[s].children - done|
  }

  ghost predicate IsReverse<P>(nodes: Dag<P>, reverse: map<Cid, seq<Cid>>) {
    && (forall p :: p in reverse <==> Parents(nodes, p) != {})
    && (forall p :: p in reverse ==> reverse[p] == CidsInOrder(Parents(nodes, p)))
  }

  /** Filtering a key-order enumeration gives the key-order enumeration of the part. */
  lemma FilterInOrder(all: set<Cid>, part: set<Cid>)
    requires part <= all
    ensures Filter(CidsInOrder(all), part) == CidsInOrder(part)
  {
    BytesOrderTotal();
    AscendingSorted(all, BytesOrder());
    AscendingSorted(part, BytesOrder());
    FilterIncreasing(CidsInOrder(all), part, BytesOrder());
    FilterMembers(CidsInOrder(all), part);
    IncreasingUnique(Filter(CidsInOrder(all), part), CidsInOrder(part), BytesOrder());
  }

  lemma FilterNext(keys: seq<Cid>, i: nat, part: set<Cid>)
    requires i < |keys|
    ensures Filter(keys[..i + 1], part) == Filter(keys[..i], part) + (if keys[i] in part then [keys[i]] else [])
  {
    assert keys[..i + 1] == keys[..i] + [keys[i]];
    FilterAppend(keys[..i], [keys[i]], part);
  }

  /** Each predecessor's successors, in key order. */
  method BuildReverse<P>(nodes: Dag<P>) returns (reverse: map<Cid, seq<Cid>>)
    ensures IsReverse(nodes, reverse)
  {
    var keys := CidsInOrder(nodes.Keys);
    CidsInOrderLists(nodes.Keys);
    reverse := map[];
    for i := 0 to |keys|
      invariant forall p :: p in reverse <==> Filter(keys[..i], Parents(nodes, p)) != []
      invariant forall p :: p in reverse ==> reverse[p] == Filter(keys[..i], Parents(nodes, p))
    {
      var cid := keys[i];
      assert cid in keys;
      var preds := nodes[cid].children;
      var before := reverse;
      forall p ensures Filter(keys[..i + 1], Parents(nodes, p)) ==
                       Filter(keys[..i], Parents(nodes, p)) + (if p in preds then [cid] else [])
      {
        FilterNext(keys, i, Parents(nodes, p));
      }
      reverse := map p | p in reverse.Keys + preds ::
        (if p in before then before[p] else []) + (if p in preds then [cid] else []);
    }
    assert keys[..|keys|] == keys;
    forall p ensures Filter(keys, Parents(nodes, p)) == CidsInOrder(Parents(nodes, p))
             ensures Parents(nodes, p) != {} <==> CidsInOrder(Parents(nodes, p)) != []
    {
      FilterInOrder(nodes.Keys, Parents(nodes, p));
      CidsInOrderLists(Parents(nodes, p));
      if Parents(nodes, p) != {} {
        var s :| s in Parents(nodes, p);
        assert s in CidsInOrder(Parents(nodes, p));
      }
    }
  }

  lemma DegreeStep(children: set<Cid>, done: set<Cid>, c: Cid)
    requires c !in done
    ensures c in children ==> |children - (done + {c})| == |children - done| - 1
    ensures c !in children ==> children - (done + {c}) == children - done
    ensures |children - (done + {c})| == 0 <==> children <= done + {c}
  {
    if c in children {
      assert children - done == (children - (done + {c})) + {c};
    }
    if |children - (done + {c})| == 0 {
      assert children - (done + {c}) == {};
    }
  }

  /** In-degrees while the successors of `c` are being visited: those in `hit` already count `c` as emitted. */
  ghost predicate Counting<P>(nodes: Dag<P>, indegree: map<Cid, nat>, done: set<Cid>, c: Cid, hit: set<Cid>) {
    && indegree.Keys == nodes.Keys
    && (forall s :: s in nodes && s in hit ==> indegree[s] == |nodes[s].children - (done + {c})|)
    && (forall s :: s in nodes && s !in hit ==> indegree[s] == |nodes[s].children - done|)
  }

  lemma HitStep<P>(nodes: Dag<P>, indegree: map<Cid, nat>, done: set<Cid>, c: Cid, hit: set<Cid>, succ: Cid)
    requires Counting(nodes, indegree, done, c, hit) && c !in done && succ in Parents(nodes, c) && succ !in hit
    ensures indegree[succ] > 0
    ensures Counting(nodes, indegree[succ := (indegree[succ] - 1) as nat], done, c, hit + {succ})
    ensures indegree[succ] == 1 <==> succ in Ready(nodes, done + {c}, c)
  {
    DegreeStep(nodes[succ].children, done, c);
  }

  lemma AllHit<P>(nodes: Dag<P>, indegree: map<Cid, nat>, done: set<Cid>, c: Cid)
    requires Counting(nodes, indegree, done, c, Parents(nodes, c)) && c !in done
    ensures InDegrees(nodes, indegree, done + {c})
  {
    forall s | s in nodes ensures indegree[s] == |nodes[s].children - (done + {c})| {
      DegreeStep(nodes[s].children, done, c);
    }
  }

  lemma PrefixStep(s: seq<Cid>, i: nat)
    requires Distinct(s) && i < |s|
    ensures s[i] !in Elems(s[..i]) && Elems(s[..i + 1]) == Elems(s[..i]) + {s[i]}
  {
    assert s[..i + 1] == s[..i] + [s[i]];
  }

  /** Emitting `c`: every successor loses one predecessor, and those left with none are queued in order. */
  method Release<P>(ghost nodes: Dag<P>, indegree0: map<Cid, nat>, successors: seq<Cid>, ghost done: set<Cid>, ghost c: Cid)
    returns (indegree: map<Cid, nat>, ready: seq<Cid>)
    requires InDegrees(nodes, indegree0, done) && c !in done
    requires Distinct(successors) && Elems(successors) == Parents(nodes, c)
    ensures InDegrees(nodes, indegree, done + {c})
    ensures ready == Filter(successors, Ready(nodes, done + {c}, c))
  {
    indegree, ready := indegree0, [];
    ghost var target := Ready(nodes, done + {c}, c);
    for i := 0 to |successors|
      invariant Counting(nodes, indegree, done, c, Elems(successors[..i]))
      invariant ready == Filter(successors[..i], target)
    {
      var succ := successors[i];
      assert succ in Elems(successors);
      PrefixStep(successors, i);
      HitStep(nodes, indegree, done, c, Elems(successors[..i]), succ);
      FilterNext(successors, i, target);
      var d := if indegree[succ] > 0 then indegree[succ] - 1 else 0;
      indegree := indegree[succ := d];
      if d == 0 { ready := ready + [succ]; }
    }
    assert successors[..|successors|] == successors;
    AllHit(nodes, indegree, done, c);
  }

  method ReleaseInOrder<P>(ghost nodes: Dag<P>, indegree0: map<Cid, nat>, successors: seq<Cid>, ghost done: set<Cid>, ghost c: Cid)
    returns (indegree: map<Cid, nat>, ready: seq<Cid>)
    requires InDegrees(nodes, indegree0, done) && c !in done
    requires successors == CidsInOrder(Parents(nodes, c))
    ensures InDegrees(nodes, indegree, done + {c})
    ensures ready == CidsInOrder(Ready(nodes, done + {c}, c))
  {
    CidsInOrderLists(Parents(nodes, c));
    FilterInOrder(Parents(nodes, c), Ready(nodes, done + {c}, c));
    assert Elems(successors) == Parents(nodes, c);
    indegree, ready := Release(nodes, indegree0, successors, done, c);
  }

  ghost function EventsOf<P>(nodes: Dag<P>, order: seq<Cid>): seq<P>
    requires forall c :: c in order ==> c in nodes
  {
    if order == [] then [] else EventsOf(nodes, order[..|order| - 1]) + [nodes[order[|order| - 1]].event]
  }

  lemma KahnOrderStored<P>(nodes: Dag<P>)
    ensures forall c :: c in KahnOrder(nodes) ==> c in nodes
  {
    KahnOrderEmits(nodes);
    forall c | c in KahnOrder(nodes) ensures c in nodes { GroundedStored(nodes, c); }
  }

  lemma DegreesAtStart<P>(nodes: Dag<P>, indegree: map<Cid, nat>)
    requires indegree.Keys == nodes.Keys && forall s :: s in nodes ==> indegree[s] == |nodes[s].children|
    ensures InDegrees(nodes, indegree, {})
    ensures (set s | s in indegree && indegree[s] == 0) == Origins(nodes)
  {
    forall s | s in nodes ensures nodes[s].children - {} == nodes[s].children {
    }
  }

  /** One round of the outer loop: the next id is emitted, and what it makes ready joins the queue. */
  lemma EmitStep<P>(nodes: Dag<P>, done: seq<Cid>, queue: seq<Cid>, next: seq<Cid>)
    requires Frontier(nodes, done, queue) && queue != [] && forall c :: c in done ==> c in nodes
    requires next == CidsInOrder(Ready(nodes, Elems(done) + {queue[0]}, queue[0]))
    ensures queue[0] in nodes && queue[0] !in Elems(done)
    ensures var done' := done + [queue[0]];
            && Elems(done') == Elems(done) + {queue[0]}
            && Frontier(nodes, done', queue[1..] + next) && |done'| <= |nodes|
            && Kahn(nodes, done, queue) == Kahn(nodes, done', queue[1..] + next)
            && (forall c :: c in done' ==> c in nodes)
            && EventsOf(nodes, done') == EventsOf(nodes, done) + [nodes[queue[0]].event]
  {
    var done' := done + [queue[0]];
    assert Elems(done') == Elems(done) + {queue[0]};
    FrontierStep(nodes, done, queue, next);
    FrontierBound(nodes, done', queue[1..] + next);
    FrontierFresh(nodes, done, queue);
    assert done'[..|done'| - 1] == done;
  }

  lemma FrontierFresh<P>(nodes: Dag<P>, done: seq<Cid>, queue: seq<Cid>)
    requires Frontier(nodes, done, queue) && queue != []
    ensures queue[0] !in done
  {
    assert (done + queue)[|done|] == queue[0];
    forall i | 0 <= i < |done| ensures done[i] != queue[0] { assert (done + queue)[i] == done[i]; }
  }

  method TopologicalOrder<P>(nodes: Dag<P>) returns (sorted: seq<P>)
    ensures (forall c :: c in KahnOrder(nodes) ==> c in nodes) && sorted == EventsOf(nodes, KahnOrder(nodes))
  {
    var indegree: map<Cid, nat> := map s | s in nodes :: |nodes[s].children|;
    var reverse := BuildReverse(nodes);
    DegreesAtStart(nodes, indegree);
    var queue := CidsInOrder(set s | s in indegree && indegree[s] == 0);
    OriginsFrontier(nodes);
    KahnOrderStored(nodes);
    ghost var done: seq<Cid> := [];
    assert Elems(done) == {};
    sorted := [];
    while queue != []
      invariant Frontier(nodes, done, queue) && Kahn(nodes, done, queue) == KahnOrder(nodes)
      invariant InDegrees(nodes, indegree, Elems(done))
      invariant (forall c :: c in done ==> c in nodes) && sorted == EventsOf(nodes, done)
      decreases |nodes| - |done|
    {
      var cid := queue[0];
      ghost var next := CidsInOrder(Ready(nodes, Elems(done) + {cid}, cid));
      EmitStep(nodes, done, queue, next);
      sorted := sorted + [nodes[cid].event];
      queue := queue[1..];
      if cid in reverse {
        var ready;
        indegree, ready := ReleaseInOrder(nodes, indegree, reverse[cid], Elems(done), cid);
        queue := queue + ready;
      } else {
        NothingReleased(nodes, indegree, Elems(done), cid);
        assert queue + next == queue;
      }
      done := done + [cid];
    }
  }

  lemma NothingReleased<P>(nodes: Dag<P>, indegree: map<Cid, nat>, done: set<Cid>, c: Cid)
    requires InDegrees(nodes, indegree, done) && c !in done && Parents(nodes, c) == {}
    ensures InDegrees(nodes, indegree, done + {c})
    ensures CidsInOrder(Ready(nodes, done + {c}, c)) == []
  {
    forall s | s in nodes ensures nodes[s].children - (done + {c}) == nodes[s].children - done {
      assert s !in Parents(nodes, c);
    }
    assert Ready(nodes, done + {c}, c) <= Parents(nodes, c);
  }

  /** `replay_logs`: the events below the roots, in causal order. */
  method ReplayLogs<P(!new)>(table: Table<P>, roots: set<Cid>) returns (events: seq<P>)
    ensures var dag := Decodable(table);
            && (forall c :: c in ReplayOrder(dag, roots) ==> c in dag)
            && events == EventsOf(dag, ReplayOrder(dag, roots))
  {
    var nodes := CollectReachable(table, roots);
    events := TopologicalOrder(nodes);
    KahnOrderStored(nodes);
    EventsAgree(nodes, Decodable(table), KahnOrder(nodes));
  }

  lemma {:induction false} EventsAgree<P>(a: Dag<P>, b: Dag<P>, order: seq<Cid>)
    requires forall c :: c in order ==> c in a && c in b && a[c] == b[c]
    ensures EventsOf(a, order) == EventsOf(b, order)
  {
    if order != [] {
      assert order[|order| - 1] in order;
      EventsAgree(a, b, order[..|order| - 1]);
    }
  }

  // ---- compact_roots ----

  ghost predicate GarbageReached<P(!new)>(table: Table<P>, candidates: set<Cid>) {
    exists c :: Reaches(Decodable(table), candidates, c) && c in table && table[c].Garbage?
  }

  function AllCids<P>(table: Table<P>, candidates: set<Cid>): set<Cid> {
    candidates + set c, d | c in table && table[c].Good? && d in table[c].node.children :: d
  }

  /** The state of the compaction walk, inside a set `within` that is closed under children. */
  ghost predicate Walked<P>(table: Table<P>, candidates: set<Cid>, within: iset<Cid>, visited: set<Cid>, stack: seq<Cid>) {
    && (forall c :: c in visited || c in stack ==> c in within && c in AllCids(table, candidates))
    && (forall c :: c in candidates ==> c in visited || c in stack)
    && (forall c :: c in visited ==> c !in table || table[c].Good?)
    && (forall c, d :: c in visited && d in Children(Decodable(table), c) ==> d in visited || d in stack)
  }

  /** The candidates named as a predecessor by a visited node. */
  ghost predicate SubsumedBy<P>(table: Table<P>, candidates: set<Cid>, visited: set<Cid>, subsumed: set<Cid>) {
    forall d :: d in subsumed <==> d in candidates && exists c :: c in visited && d in Children(Decodable(table), c)
  }

  lemma RevisitStep<P>(table: Table<P>, candidates: set<Cid>, within: iset<Cid>, visited: set<Cid>, stack: seq<Cid>, rest: seq<Cid>, cid: Cid)
    requires Walked(table, candidates, within, visited, stack) && cid in visited
    requires forall c :: c in stack <==> c in rest || c == cid
    ensures Walked(table, candidates, within, visited, rest)
  {
  }

  lemma WalkStep<P>(table: Table<P>, candidates: set<Cid>, within: iset<Cid>, visited: set<Cid>, stack: seq<Cid>, rest: seq<Cid>, cid: Cid, next: seq<Cid>)
    requires Walked(table, candidates, within, visited, stack) && ClosedUnder(Decodable(table), within)
    requires cid !in table || table[cid].Good?
    requires forall c :: c in stack <==> c in rest || c == cid
    requires forall c :: c in next <==> c in rest || c in Children(Decodable(table), cid) - (visited + {cid})
    ensures Walked(table, candidates, within, visited + {cid}, next)
  {
    assert cid in stack;
    forall d | d in Children(Decodable(table), cid) ensures d in within && d in AllCids(table, candidates) {
    }
  }

  lemma SubsumeStep<P>(table: Table<P>, candidates: set<Cid>, visited: set<Cid>, subsumed: set<Cid>, cid: Cid)
    requires SubsumedBy(table, candidates, visited, subsumed)
    ensures SubsumedBy(table, candidates, visited + {cid}, subsumed + (Children(Decodable(table), cid) * candidates))
  {
    var dag := Decodable(table);
    forall d | d in candidates ensures (exists c :: c in visited + {cid} && d in Children(dag, c)) <==>
                                       (exists c :: c in visited && d in Children(dag, c)) || d in Children(dag, cid)
    {
      if d in Children(dag, cid) { assert cid in visited + {cid}; }
      if c :| c in visited && d in Children(dag, c) { assert c in visited + {cid}; }
    }
  }

  lemma WalkedAll<P(!new)>(table: Table<P>, candidates: set<Cid>, visited: set<Cid>, subsumed: set<Cid>)
    requires Walked(table, candidates, Reached(Decodable(table), candidates), visited, [])
    requires SubsumedBy(table, candidates, visited, subsumed)
    ensures IsCompaction(Decodable(table), candidates, candidates - subsumed)
    ensures !GarbageReached(table, candidates)
  {
    var dag := Decodable(table);
    var s := iset c | c in visited;
    assert ClosedUnder(dag, s);
    forall c ensures Reaches(dag, candidates, c) <==> c in visited {
      if Reaches(dag, candidates, c) { ReachesLeast(dag, candidates, c, s); }
      assert c in visited ==> c in Reached(dag, candidates);
    }
  }

  /** The walk proper; `None` when it meets a row that does not decode. */
  method WalkCandidates<P>(table: Table<P>, candidates: set<Cid>, ghost within: iset<Cid>)
    returns (ok: bool, ghost visited: set<Cid>, subsumed: set<Cid>)
    requires ClosedUnder(Decodable(table), within) && forall c :: c in candidates ==> c in within
    ensures ok ==> Walked(table, candidates, within, visited, []) && SubsumedBy(table, candidates, visited, subsumed)
    ensures !ok ==> exists c :: c in within && c in table && table[c].Garbage?
  {
    var seen: set<Cid> := {};
    subsumed := {};
    var stack := PushAll([], candidates);
    while stack != []
      invariant Walked(table, candidates, within, seen, stack)
      invariant SubsumedBy(table, candidates, seen, subsumed)
      decreases |AllCids(table, candidates) - seen|, |stack|
    {
      var cid, rest := stack[|stack| - 1], stack[..|stack| - 1];
      PopMembers(stack);
      assert cid in stack;
      if cid in seen {
        RevisitStep(table, candidates, within, seen, stack, rest, cid);
        stack := rest;
      } else if cid in table && table[cid].Garbage? {
        visited := seen;
        return false, visited, subsumed;
      } else {
        var children := if cid in table then table[cid].node.children else {};
        assert children == Children(Decodable(table), cid);
        var next := PushAll(rest, children - (seen + {cid}));
        PopShrinks(AllCids(table, candidates), seen, cid);
        WalkStep(table, candidates, within, seen, stack, rest, cid, next);
        SubsumeStep(table, candidates, seen, subsumed, cid);
        seen, stack := seen + {cid}, next;
        subsumed := subsumed + (children * candidates);
      }
    }
    ok, visited := true, seen;
  }

  lemma SingleCompaction<P(!new)>(dag: Dag<P>, rank: Cid -> nat, candidates: set<Cid>)
    requires Acyclic(dag, rank) && |candidates| <= 1
    ensures IsCompaction(dag, candidates, candidates)
  {
    forall c | c in candidates ensures !Subsumed(dag, candidates, c) {
      if Subsumed(dag, candidates, c) {
        var r := SubsumedAbove(dag, rank, candidates, c);
        SubsetCard({c, r}, candidates);
      }
    }
  }

  /** The compacted roots, or `None` when a row below the candidates does not decode. */
  method CompactCandidates<P(!new)>(table: Table<P>, candidates: set<Cid>) returns (r: Option<set<Cid>>)
    ensures |candidates| <= 1 ==> r == Some(candidates)
    ensures |candidates| > 1 ==> (r.None? <==> GarbageReached(table, candidates))
    ensures |candidates| > 1 && r.Some? ==> IsCompaction(Decodable(table), candidates, r.value)
    ensures forall rank: Cid -> nat :: Acyclic(Decodable(table), rank) && r.Some? ==> IsCompaction(Decodable(table), candidates, r.value)
  {
    ghost var dag := Decodable(table);
    if |candidates| <= 1 {
      forall rank: Cid -> nat | Acyclic(dag, rank) ensures IsCompaction(dag, candidates, candidates) {
        SingleCompaction(dag, rank, candidates);
      }
      return Some(candidates);
    }
    ReachedClosed(dag, candidates);
    forall c | c in candidates ensures c in Reached(dag, candidates) { ReachesRoot(dag, candidates, c); }
    var ok; ghost var visited; var subsumed;
    ok, visited, subsumed := WalkCandidates(table, candidates, Reached(dag, candidates));
    if ok {
      WalkedAll(table, candidates, visited, subsumed);
      r := Some(candidates - subsumed);
    } else {
      ghost var c :| c in Reached(dag, candidates) && c in table && table[c].Garbage?;
      assert Reaches(dag, candidates, c);
      r := None;
    }
  }
}
