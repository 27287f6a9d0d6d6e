/**
 A host that serves a service: each message is a recorded dispatch, its writes and its log
 are committed, and the commit alone decides whether the log becomes part of the history.
 What replay then emits from the stored graph is what the service is rebuilt from.
 */
module Hosting {
  import opened Options
  import opened Orders
  import opened Ids
  import opened Logs
  import opened LogCodecs
  import opened Journals
  import opened Refine
  import opened Ticks
  import opened Replays
  import opened JournalObjects
  import opened Dispatches
  import opened Dags
  import opened Replay
  import opened ReplayLoops
  import opened Commits
  import opened CommitRuns
  import opened CommitChain
  import opened StateRows
  import opened Rebuilds

  // ---- The delta of a dispatch ----

  /** The rows of its own service that a tick writes. */
  function TickWrites(step: Stepper, c: Context, svc: nat, t: Dispatch, items: seq<Bytes>): seq<Commits.Write> {
    OwnWrites(Chain(step, c, MaxRefineIterations, Begin(t.s.mode, t.s.calls, t), items, t.stored).s.journal.writes, svc)
  }

  /** And those a dispatch writes, over all its ticks. */
  function DriveWrites(step: Stepper, c: Context, svc: nat, k: nat, t: Dispatch, items: seq<Bytes>): seq<Commits.Write>
    decreases k
  {
    if items == [] || k == 0 then []
    else
      var r := TickOf(step, c, svc, t, items);
      TickWrites(step, c, svc, t, items) +
      DriveWrites(step, c.(storage := r.storage), svc, k - 1, r.dispatch, Incoming(svc, r.transfers))
  }

  function LiveWrites(step: Stepper, c: Context, svc: nat, k: nat, q: Request, before: Dispatch): seq<Commits.Write> {
    DriveWrites(step, c, svc, k, Dispatches.Opened(before, Recording(ForMsg(q.msg), q.cap), q.calls), if |LiveItem(q)| <= BufSize then [LiveItem(q)] else [])
  }

  function DeltaOf(q: Request, t: Dispatch, writes: seq<Commits.Write>): Delta {
    Delta(writes, if t.s.mode.Recording? then Some(Stamped(q, t)) else None, t.effectBearing)
  }

  lemma {:induction false} ApplyDeltaBoth(s: Slate, a: seq<Commits.Write>, b: seq<Commits.Write>)
    ensures ApplyDelta(s, a + b) == ApplyDelta(ApplyDelta(s, a), b)
    decreases |b|
  {
    if b == [] {
      assert a + b == a;
    } else {
      assert (a + b)[..|a + b| - 1] == a + b[..|b| - 1];
      ApplyDeltaBoth(s, a, b[..|b| - 1]);
    }
  }

  ghost predicate TicksMirror(step: Stepper, svc: nat) {
    forall c: Context, t: Dispatch, items: seq<Bytes>, slate :: Mirrors(slate, RowsOf(c.storage, svc)) ==>
      Mirrors(ApplyDelta(slate, TickWrites(step, c, svc, t, items)), RowsOf(TickOf(step, c, svc, t, items).storage, svc))
  }

  lemma TickMirrored(step: Stepper, c: Context, svc: nat, t: Dispatch, items: seq<Bytes>, slate: Slate)
    requires TicksMirror(step, svc) && Mirrors(slate, RowsOf(c.storage, svc))
    ensures Mirrors(ApplyDelta(slate, TickWrites(step, c, svc, t, items)), RowsOf(TickOf(step, c, svc, t, items).storage, svc))
  {
  }

  lemma SliceTicksMirror(guest: Guest, svc: nat, gas: nat)
    ensures TicksMirror(SliceStep(guest, svc, gas), svc)
  {
    var step := SliceStep(guest, svc, gas);
    forall c: Context, t: Dispatch, items: seq<Bytes>, slate | Mirrors(slate, RowsOf(c.storage, svc))
      ensures Mirrors(ApplyDelta(slate, TickWrites(step, c, svc, t, items)), RowsOf(TickOf(step, c, svc, t, items).storage, svc))
    {
      TickMirrors(c, guest, svc, gas, t.s.mode, t.s.calls, t, items, slate);
    }
  }

  /** If a slate mirrors a service, then with the writes of a whole dispatch applied it does again. */
  lemma {:induction false} DriveMirrors(step: Stepper, c: Context, svc: nat, k: nat, t: Dispatch, items: seq<Bytes>, slate: Slate)
    requires TicksMirror(step, svc) && Mirrors(slate, RowsOf(c.storage, svc))
    ensures Mirrors(ApplyDelta(slate, DriveWrites(step, c, svc, k, t, items)), RowsOf(Drive(step, c, svc, k, t, items).0, svc))
    decreases k
  {
    if items != [] && k > 0 {
      var r, own := TickOf(step, c, svc, t, items), TickWrites(step, c, svc, t, items);
      var c1, mail := c.(storage := r.storage), Incoming(svc, r.transfers);
      TickMirrored(step, c, svc, t, items, slate);
      DriveMirrors(step, c1, svc, k - 1, r.dispatch, mail, ApplyDelta(slate, own));
      ApplyDeltaBoth(slate, own, DriveWrites(step, c1, svc, k - 1, r.dispatch, mail));
    }
  }

  // ---- Serving messages ----

  /** The store, the rows in memory, and the bookkeeping of the service. */
  datatype Hosted = Hosted(site: Site, rows: Storage, t: Dispatch)

  /** What does not change while a service is hosted. */
  datatype Setup = Setup(h: Hashing, origin: Bytes, c: Context, guest: Guest, svc: nat, gas: nat, k: nat)

  function StepOf(u: Setup): Stepper { SliceStep(u.guest, u.svc, u.gas) }

  /** A message is named by the number the store would give its log. */
  function Named(u: Setup, hs: Hosted, q: Request): Request { q.(id := u.h.derive(u.origin, hs.site.agent.nextSeq)) }

  /** The store after a dispatch that ended in `t`. */
  ghost function SiteAfter(u: Setup, s: Site, p: Request, t: Dispatch, writes: seq<Commits.Write>): Site {
    if t.s.rejected then s else Next(u.h, u.origin, s, Commit(DeltaOf(p, t, writes)))
  }

  /** One message: dispatched, and committed unless it was rejected. */
  ghost function Serve(u: Setup, hs: Hosted, q: Request): Hosted {
    var p, e := Named(u, hs, q), u.c.(storage := hs.rows);
    var (st, t, _) := Live(StepOf(u), e, u.svc, u.k, p, hs.t);
    Hosted(SiteAfter(u, hs.site, p, t, LiveWrites(StepOf(u), e, u.svc, u.k, p, hs.t)), st, t)
  }

  ghost function Served(u: Setup, qs: seq<Request>, before: Dispatch): Hosted {
    if qs == [] then Hosted(Fresh, u.c.storage, before) else Serve(u, Served(u, qs[..|qs| - 1], before), qs[|qs| - 1])
  }

  /** The commit appended a node for this message. */
  ghost predicate LogKept(u: Setup, hs: Hosted, q: Request) { |Serve(u, hs, q).site.local| > |hs.site.local| }

  /** The `i`-th message as named, and whether the commit kept its log. */
  ghost function SentAt(u: Setup, qs: seq<Request>, before: Dispatch, i: nat): Sent
    requires i < |qs|
  {
    var hs := Served(u, qs[..i], before);
    Sent(Named(u, hs, qs[i]), LogKept(u, hs, qs[i]))
  }

  /** The history that serving the messages amounts to. */
  ghost function SentOf(u: Setup, qs: seq<Request>, before: Dispatch): (xs: seq<Sent>)
    ensures |xs| == |qs|
  {
    seq(|qs|, i requires 0 <= i < |qs| => SentAt(u, qs, before, i))
  }

  lemma SentPrefix(u: Setup, qs: seq<Request>, before: Dispatch, i: nat)
    requires i <= |qs|
    ensures SentOf(u, qs, before)[..i] == SentOf(u, qs[..i], before)
  {
    forall j | 0 <= j < i ensures SentOf(u, qs, before)[j] == SentOf(u, qs[..i], before)[j] {
      assert qs[..i][..j] == qs[..j];
    }
  }

  /** Serving is living through that history. */
  lemma {:induction false} ServedLive(u: Setup, qs: seq<Request>, before: Dispatch)
    ensures LiveAfter(StepOf(u), u.c, u.svc, u.k, SentOf(u, qs, before), before) == (Served(u, qs, before).rows, Served(u, qs, before).t)
  {
    if qs != [] {
      ServedLive(u, qs[..|qs| - 1], before);
      SentPrefix(u, qs, before, |qs| - 1);
    }
  }

  // ---- What the store holds ----

  /** The stored graph is one chain of the replica's own nodes, carrying `logs` in order. */
  ghost predicate Linear(db: Db, local: seq<Cid>, logs: seq<EffectLog>) {
    var dag := DagOf(db);
    && db.table.Keys == dag.Keys == Elems(local) && RootsOf(db) <= dag.Keys
    && (forall c, d :: c in dag && d in dag[c].children ==> d in dag)
    && |logs| == |local| && forall i :: 0 <= i < |logs| ==> local[i] in dag && dag[local[i]].event.log == logs[i]
  }

  ghost predicate OneChain(u: Setup, s: Site, logs: seq<EffectLog>) { Inv(u.h, u.origin, s) && Linear(s.db, s.local, logs) }

  /** The log a message leaves in the store, if any. */
  ghost function KeptLog(u: Setup, hs: Hosted, q: Request): seq<EffectLog> {
    LogLeft(hs.site, Serve(u, hs, q).site, Named(u, hs, q), Serve(u, hs, q).t)
  }

  ghost function KeptLogs(u: Setup, qs: seq<Request>, before: Dispatch): seq<EffectLog> {
    if qs == [] then []
    else KeptLogs(u, qs[..|qs| - 1], before) + KeptLog(u, Served(u, qs[..|qs| - 1], before), qs[|qs| - 1])
  }

  lemma FreshChain(u: Setup)
    ensures OneChain(u, Fresh, [])
  {
    FreshInv(u.h, u.origin);
    assert DagOf(EmptyDb) == map[];
  }

  lemma LogsExtend(dag: Dag<CrdtEvent>, dag': Dag<CrdtEvent>, local: seq<Cid>, cid: Cid, logs: seq<EffectLog>, log: EffectLog)
    requires Grows(dag, dag') && |logs| == |local| && cid in dag' && dag'[cid].event.log == log
    requires forall i :: 0 <= i < |logs| ==> local[i] in dag && dag[local[i]].event.log == logs[i]
    ensures forall i :: 0 <= i < |logs + [log]| ==> (local + [cid])[i] in dag' && dag'[(local + [cid])[i]].event.log == (logs + [log])[i]
  {
    forall i | 0 <= i < |logs + [log]| ensures (local + [cid])[i] in dag' && dag'[(local + [cid])[i]].event.log == (logs + [log])[i] {
      if i < |logs| { assert (local + [cid])[i] == local[i] && local[i] in dag; }
    }
  }

  lemma ClosedExtends(db: Db, db': Db, cid: Cid, node: Node')
    requires db'.table == db.table[cid := Good(node)] && (forall d :: d in node.children ==> d in DagOf(db))
    requires forall c, d :: c in DagOf(db) && d in DagOf(db)[c].children ==> d in DagOf(db)
    ensures forall c, d :: c in DagOf(db') && d in DagOf(db')[c].children ==> d in DagOf(db')
  {
    forall c, d | c in DagOf(db') && d in DagOf(db')[c].children ensures d in DagOf(db') {
      if c != cid { assert c in DagOf(db) && DagOf(db')[c] == DagOf(db)[c]; }
      assert d in DagOf(db);
    }
  }

  /** What a commit that appends does to the store. */
  lemma AppendShape(u: Setup, s: Site, delta: Delta)
    requires s.agent.nextSeq == SeqOf(s.db, s.agent.nextSeq) == |s.local|
    ensures var s' := Next(u.h, u.origin, s, Commit(delta));
            var out := WriteAtomic(u.h, u.origin, s.db, s.agent, delta).0;
            if out == Committed(true) then
              && delta.log.Some?
              && var node := NewNode(u.h, u.origin, s.db, |s.local|, delta.log.value);
                 && s'.local == s.local + [u.h.name(node)] && RootsOf(s'.db) == {u.h.name(node)}
                 && s'.db.table == s.db.table[u.h.name(node) := Good(node)]
            else s'.local == s.local && s'.db.table == s.db.table && RootsOf(s'.db) == RootsOf(s.db)
  {
  }

  lemma AppendedChain(h: Hashing, db: Db, db': Db, local: seq<Cid>, node: Node', logs: seq<EffectLog>)
    requires Lawful(h) && Genuine(h, db) && Linear(db, local, logs) && node.children == RootsOf(db)
    requires db'.table == db.table[h.name(node) := Good(node)] && RootsOf(db') == {h.name(node)}
    ensures Linear(db', local + [h.name(node)], logs + [node.event.log])
  {
    var cid := h.name(node);
    AppendGrows(h, db, db', node);
    GenuineAcyclic(h, db');
    ClosedExtends(db, db', cid, node);
    LogsExtend(DagOf(db), DagOf(db'), local, cid, logs, node.event.log);
    assert Elems(local + [cid]) == Elems(local) + {cid};
  }

  /** A commit extends the chain by its log, or leaves it. */
  lemma CommitExtends(u: Setup, s: Site, logs: seq<EffectLog>, delta: Delta)
    requires Lawful(u.h) && OneChain(u, s, logs)
    requires delta.log.Some? ==> delta.log.value.invocationId == u.h.derive(u.origin, s.agent.nextSeq)
    ensures var s' := Next(u.h, u.origin, s, Commit(delta));
            && (|s'.local| > |s.local| ==> delta.log.Some?)
            && OneChain(u, s', logs + if |s'.local| > |s.local| then [delta.log.value] else [])
  {
    var s' := Next(u.h, u.origin, s, Commit(delta));
    CommitStep(u.h, u.origin, s, delta);
    AppendShape(u, s, delta);
    if |s'.local| > |s.local| {
      AppendedChain(u.h, s.db, s'.db, s.local, NewNode(u.h, u.origin, s.db, |s.local|, delta.log.value), logs);
    } else {
      assert DagOf(s'.db) == DagOf(s.db) && logs + [] == logs;
    }
  }

  /** The log a dispatch leaves in the store, if any. */
  ghost function LogLeft(s: Site, s': Site, p: Request, t: Dispatch): seq<EffectLog> {
    if |s'.local| > |s.local| && t.s.mode.Recording? then [Stamped(p, t)] else []
  }

  lemma SiteChain(u: Setup, s: Site, p: Request, t: Dispatch, writes: seq<Commits.Write>, logs: seq<EffectLog>)
    requires Lawful(u.h) && OneChain(u, s, logs) && p.id == u.h.derive(u.origin, s.agent.nextSeq)
    ensures var s' := SiteAfter(u, s, p, t, writes);
            OneChain(u, s', logs + LogLeft(s, s', p, t)) && (|s'.local| > |s.local| ==> t.s.mode.Recording?)
  {
    if t.s.rejected { assert logs + [] == logs; } else { CommitExtends(u, s, logs, DeltaOf(p, t, writes)); }
  }

  lemma ServeChain(u: Setup, hs: Hosted, q: Request, logs: seq<EffectLog>)
    requires Lawful(u.h) && OneChain(u, hs.site, logs)
    ensures OneChain(u, Serve(u, hs, q).site, logs + KeptLog(u, hs, q))
    ensures LogKept(u, hs, q) ==> Serve(u, hs, q).t.s.mode.Recording?
  {
    var p, e := Named(u, hs, q), u.c.(storage := hs.rows);
    SiteChain(u, hs.site, p, Serve(u, hs, q).t, LiveWrites(StepOf(u), e, u.svc, u.k, p, hs.t), logs);
  }

  lemma {:induction false} ServedChain(u: Setup, qs: seq<Request>, before: Dispatch)
    requires Lawful(u.h)
    ensures OneChain(u, Served(u, qs, before).site, KeptLogs(u, qs, before))
  {
    if qs == [] {
      FreshChain(u);
    } else {
      ServedChain(u, qs[..|qs| - 1], before);
      ServeChain(u, Served(u, qs[..|qs| - 1], before), qs[|qs| - 1], KeptLogs(u, qs[..|qs| - 1], before));
    }
  }

  // ---- What replay gives back ----

  lemma LinearGrounded(h: Hashing, db: Db, local: seq<Cid>, logs: seq<EffectLog>, c: Cid)
    requires Lawful(h) && Genuine(h, db) && Linear(db, local, logs) && c in DagOf(db)
    ensures Grounded(DagOf(db), c)
  {
    var dag := DagOf(db);
    GenuineAcyclic(h, db);
    var s := iset x | x in dag;
    assert ClosedUnder(dag, s);
    forall d | Reaches(dag, {c}, d) ensures d in dag { ReachesLeast(dag, {c}, d, s); }
    GroundedIsWholeAncestry(dag, h.rank, c);
  }

  /** Replay from the persisted roots emits exactly the replica's own nodes, in the order they were appended. */
  lemma LinearReplay(u: Setup, s: Site, logs: seq<EffectLog>)
    requires Lawful(u.h) && OneChain(u, s, logs)
    ensures ReplayOrder(DagOf(s.db), RootsOf(s.db)) == s.local
  {
    var dag, roots, local := DagOf(s.db), RootsOf(s.db), s.local;
    forall i | 0 <= i < |local| ensures Grounded(dag, local[i]) { LinearGrounded(u.h, s.db, local, logs, local[i]); }
    ReplayedLocals(u.h, u.origin, dag, roots, local, |local|);
    ReplayEmits(dag, roots);
    var r := ReplayOrder(dag, roots);
    forall c | c in r ensures c in Elems(local) {
      var i :| 0 <= i < |r| && r[i] == c;
    }
    FilterAll(r, Elems(local));
    assert local[..|local|] == local;
  }

  /** The bytes of the logs that a store replays. */
  ghost function ReplayedBytes(db: Db): seq<Bytes> {
    var dag, order := DagOf(db), ReplayOrder(DagOf(db), RootsOf(db));
    seq(|order|, i requires 0 <= i < |order| => if order[i] in dag then ToBytes(dag[order[i]].event.log) else [])
  }

  function BytesOf(logs: seq<EffectLog>): seq<Bytes> { seq(|logs|, i requires 0 <= i < |logs| => ToBytes(logs[i])) }

  lemma ReplayedIsKept(u: Setup, s: Site, logs: seq<EffectLog>)
    requires Lawful(u.h) && OneChain(u, s, logs)
    ensures ReplayedBytes(s.db) == BytesOf(logs)
  {
    LinearReplay(u, s, logs);
  }

  lemma StoredSnoc(step: Stepper, c: Context, svc: nat, k: nat, xs: seq<Sent>, before: Dispatch, init: seq<Sent>, p: Request, kept: bool, t: Dispatch)
    requires xs == init + [Sent(p, kept)] && LiveAfter(step, c, svc, k, xs, before).1 == t
    ensures StoredLogs(step, c, svc, k, xs, before) ==
            StoredLogs(step, c, svc, k, init, before) + if kept && t.s.mode.Recording? then [ToBytes(Stamped(p, t))] else []
  {
    assert xs[..|xs| - 1] == init;
  }

  lemma LastApart<T>(s: seq<T>, n: nat, init: seq<T>, x: T)
    requires |s| == n + 1 && s[..n] == init && s[n] == x
    ensures s == init + [x]
  {
  }

  lemma SentSnoc(u: Setup, qs: seq<Request>, before: Dispatch, n: nat)
    requires |qs| == n + 1
    ensures SentOf(u, qs, before) == SentOf(u, qs[..n], before) + [SentAt(u, qs, before, n)]
  {
    SentPrefix(u, qs, before, n);
    LastApart(SentOf(u, qs, before), n, SentOf(u, qs[..n], before), SentAt(u, qs, before, n));
  }

  lemma {:induction false} StoredIsKept(u: Setup, qs: seq<Request>, before: Dispatch)
    ensures StoredLogs(StepOf(u), u.c, u.svc, u.k, SentOf(u, qs, before), before) == BytesOf(KeptLogs(u, qs, before))
  {
    if qs != [] {
      var init, q := qs[..|qs| - 1], qs[|qs| - 1];
      var hs := Served(u, init, before);
      StoredIsKept(u, init, before);
      ServedLive(u, qs, before);
      SentSnoc(u, qs, before, |qs| - 1);
      StoredSnoc(StepOf(u), u.c, u.svc, u.k, SentOf(u, qs, before), before, SentOf(u, init, before),
                 Named(u, hs, q), LogKept(u, hs, q), Served(u, qs, before).t);
      BytesSnoc(KeptLogs(u, init, before), KeptLog(u, hs, q));
    }
  }

  lemma BytesSnoc(a: seq<EffectLog>, b: seq<EffectLog>)
    requires |b| <= 1
    ensures BytesOf(a + b) == BytesOf(a) + if b == [] then [] else [ToBytes(b[0])]
  {
  }

  lemma ServedReplays(u: Setup, qs: seq<Request>, before: Dispatch)
    requires Lawful(u.h)
    ensures ReplayedBytes(Served(u, qs, before).site.db) == BytesOf(KeptLogs(u, qs, before))
  {
    ServedChain(u, qs, before);
    ReplayedIsKept(u, Served(u, qs, before).site, KeptLogs(u, qs, before));
  }

  /** What a host that served these messages replays is what the history stored, in its order. */
  lemma ReplayedIsStored(u: Setup, qs: seq<Request>, before: Dispatch)
    requires Lawful(u.h)
    ensures ReplayedBytes(Served(u, qs, before).site.db) == StoredLogs(StepOf(u), u.c, u.svc, u.k, SentOf(u, qs, before), before)
  {
    ServedReplays(u, qs, before);
    StoredIsKept(u, qs, before);
  }

  /** Rebuilding from the store gives back the rows and the continuation the host had. */
  ghost predicate Recovers(u: Setup, d: Context, qs: seq<Request>, n: nat, before: Dispatch, before': Dispatch) {
    var hs := Served(u, qs, before);
    var (st, t, _) := Rebuilds.Rebuild(StepOf(u), d, u.svc, u.k, ReplayedBytes(hs.site.db), n, before');
    st == hs.rows && t.stored == hs.t.stored
  }

  /** The commit kept no log of the message, or nothing would be lost without it. */
  ghost predicate Spared(u: Setup, qs: seq<Request>, i: nat, before: Dispatch)
    requires i < |qs|
  {
    var hs := Served(u, qs[..i], before);
    LogKept(u, hs, qs[i]) || (Serve(u, hs, qs[i]).rows == hs.rows && Serve(u, hs, qs[i]).t.stored == hs.t.stored)
  }

  ghost predicate RecoversThroughout(u: Setup, d: Context, qs: seq<Request>, n: nat, before: Dispatch, before': Dispatch) {
    forall i :: 0 <= i <= |qs| ==> Recovers(u, d, qs[..i], n, before, before')
  }

  ghost predicate AllSpared(u: Setup, qs: seq<Request>, before: Dispatch) {
    forall i :: 0 <= i < |qs| ==> Spared(u, qs, i, before)
  }

  lemma ServedAt(u: Setup, qs: seq<Request>, i: nat, before: Dispatch)
    requires i <= |qs|
    ensures LiveAfter(StepOf(u), u.c, u.svc, u.k, SentOf(u, qs, before)[..i], before) ==
            (Served(u, qs[..i], before).rows, Served(u, qs[..i], before).t)
  {
    SentPrefix(u, qs, before, i);
    ServedLive(u, qs[..i], before);
  }

  lemma RecoversIsAgrees(u: Setup, d: Context, qs: seq<Request>, i: nat, n: nat, before: Dispatch, before': Dispatch)
    requires Lawful(u.h) && i <= |qs|
    ensures Recovers(u, d, qs[..i], n, before, before') <==>
            Agrees(StepOf(u), u.c, d, u.svc, u.k, SentOf(u, qs, before)[..i], n, before, before')
  {
    SentPrefix(u, qs, before, i);
    ReplayedIsStored(u, qs[..i], before);
    ServedLive(u, qs[..i], before);
  }

  lemma ServedSnoc(u: Setup, qs: seq<Request>, i: nat, before: Dispatch)
    requires i < |qs|
    ensures Served(u, qs[..i + 1], before) == Serve(u, Served(u, qs[..i], before), qs[i])
  {
    var ys := qs[..i + 1];
    assert ys[..|ys| - 1] == qs[..i] && ys[|ys| - 1] == qs[i];
  }

  lemma UntouchedIs(step: Stepper, c: Context, svc: nat, k: nat, xs: seq<Sent>, i: nat, before: Dispatch, st: Storage, t: Dispatch, st': Storage, t': Dispatch)
    requires i < |xs| && LiveAfter(step, c, svc, k, xs[..i], before) == (st, t) && LiveAfter(step, c, svc, k, xs[..i + 1], before) == (st', t')
    ensures Untouched(step, c, svc, k, xs, i, before) <==> st' == st && t'.stored == t.stored
  {
  }

  lemma SparedIsUntouched(u: Setup, qs: seq<Request>, i: nat, before: Dispatch)
    requires i < |qs|
    ensures var xs := SentOf(u, qs, before);
            Spared(u, qs, i, before) <==> (!xs[i].stored ==> Untouched(StepOf(u), u.c, u.svc, u.k, xs, i, before))
  {
    ServedAt(u, qs, i, before);
    ServedAt(u, qs, i + 1, before);
    ServedSnoc(u, qs, i, before);
    var a, b := Served(u, qs[..i], before), Served(u, qs[..i + 1], before);
    UntouchedIs(StepOf(u), u.c, u.svc, u.k, SentOf(u, qs, before), i, before, a.rows, a.t, b.rows, b.t);
    assert SentOf(u, qs, before)[i] == SentAt(u, qs, before, i);
  }

  lemma RecoversExact(u: Setup, d: Context, qs: seq<Request>, n: nat, before: Dispatch, before': Dispatch)
    requires Lawful(u.h)
    ensures RecoversThroughout(u, d, qs, n, before, before') <==>
            AgreesThroughout(StepOf(u), u.c, d, u.svc, u.k, SentOf(u, qs, before), n, before, before')
  {
    forall i | 0 <= i <= |qs|
      ensures Recovers(u, d, qs[..i], n, before, before') <==>
              Agrees(StepOf(u), u.c, d, u.svc, u.k, SentOf(u, qs, before)[..i], n, before, before')
    {
      RecoversIsAgrees(u, d, qs, i, n, before, before');
    }
  }

  lemma SparedExact(u: Setup, qs: seq<Request>, before: Dispatch)
    ensures AllSpared(u, qs, before) <==> UnstoredUntouched(StepOf(u), u.c, u.svc, u.k, SentOf(u, qs, before), before)
  {
    var xs := SentOf(u, qs, before);
    forall i | 0 <= i < |qs|
      ensures Spared(u, qs, i, before) <==> (!xs[i].stored ==> Untouched(StepOf(u), u.c, u.svc, u.k, xs, i, before))
    {
      SparedIsUntouched(u, qs, i, before);
    }
  }

  /**
   End to end: a host starts with an empty store, serves any messages, commits what each
   dispatch did, and lets the commit decide what becomes history.  Rebuilding from what the
   store then replays, on any host that started with the same rows, gives back rows and
   continuation after every message, if and only if every message whose log the commit did
   not keep left both as they were.
   */
  lemma HostedRebuildExact(u: Setup, d: Context, qs: seq<Request>, n: nat, before: Dispatch, before': Dispatch)
    requires Lawful(u.h) && SameHost(u.c, d) && before.stored == before'.stored
    requires StoredWell(u.c, u.guest, u.svc, u.gas, u.k, SentOf(u, qs, before), before)
    ensures RecoversThroughout(u, d, qs, n, before, before') <==> AllSpared(u, qs, before)
    ensures AllSpared(u, qs, before) ==>
              Rebuilds.Rebuild(StepOf(u), d, u.svc, u.k, ReplayedBytes(Served(u, qs, before).site.db), n, before').2
  {
    RebuildExact(u.c, d, u.guest, u.svc, u.gas, u.k, SentOf(u, qs, before), n, before, before');
    RecoversExact(u, d, qs, n, before, before');
    SparedExact(u, qs, before);
    ReplayedIsStored(u, qs, before);
  }
}
