/**
 What the runs of a replica guarantee about its own events and about its rows, and the
 one gap: a node whose batch crashed before compacting.
 */
module CommitChain {
  import opened Options
  import opened Orders
  import opened Ids
  import opened Dags
  import opened Replay
  import opened ReplayLoops
  import opened Logs
  import opened RowKeys
  import opened Commits
  import opened CommitRuns

  // ---- Local events ----

  lemma {:induction false} ChainReaches(h: Hashing, origin: Bytes, dag: Dag<CrdtEvent>, local: seq<Cid>, i: nat, j: nat)
    requires Chained(h, origin, dag, local) && i <= j < |local|
    ensures Reaches(dag, {local[j]}, local[i])
    decreases j
  {
    if i == j {
      ReachesRoot(dag, {local[j]}, local[i]);
    } else {
      ChainReaches(h, origin, dag, local, i, j - 1);
      ReachesVia(dag, {local[j]}, local[j - 1], local[i]);
    }
  }

  lemma ChainDistinct(h: Hashing, origin: Bytes, dag: Dag<CrdtEvent>, local: seq<Cid>)
    requires Chained(h, origin, dag, local)
    ensures Distinct(local)
  {
    forall i, j | 0 <= i < j < |local| ensures local[i] != local[j] {
      assert dag[local[i]].event.seqNo == i && dag[local[j]].event.seqNo == j;
    }
  }

  /**
   In every run the replica's own events carry seq 0, 1, 2, ... without gap or reuse, each
   is stamped with the identity of its (origin, seq), and each later one descends from
   every earlier one; a committed event keeps its number for good.
   */
  lemma LocalEventsNumbered(h: Hashing, origin: Bytes, ss: seq<Site>, es: seq<Event>, i: nat, j: nat, k: nat)
    requires Lawful(h) && Run(h, origin, ss, es) && i <= j < |ss| && k < |ss[i].local|
    ensures ss[i].local <= ss[j].local && Distinct(ss[j].local)
    ensures SeqOf(ss[j].db, ss[j].agent.nextSeq) == |ss[j].local|
    ensures var dag, c := DagOf(ss[j].db), ss[i].local[k];
            && c in dag && dag[c].event.origin == origin && dag[c].event.seqNo == k
            && dag[c].event.log.invocationId == h.derive(origin, k)
            && forall n :: 0 <= n <= k ==> Reaches(dag, {c}, ss[j].local[n])
  {
    LocalGrows(h, origin, ss, es, i, j);
    RunInv(h, origin, ss, es, j);
    var dag, local := DagOf(ss[j].db), ss[j].local;
    ChainDistinct(h, origin, dag, local);
    assert ss[i].local[k] == local[k];
    forall n | 0 <= n <= k ensures Reaches(dag, {local[k]}, local[n]) {
      ChainReaches(h, origin, dag, local, n, k);
    }
  }

  /**
   In every run, crashes and reloads included, a log stamped with the identity the open agent
   announces next is never refused as stamped for another event.
   */
  lemma NeverMisnumbered(h: Hashing, origin: Bytes, ss: seq<Site>, es: seq<Event>, i: nat, delta: Delta)
    requires Lawful(h) && Run(h, origin, ss, es) && i < |ss|
    requires delta.log.Some? ==> delta.log.value.invocationId == h.derive(origin, ss[i].agent.nextSeq)
    ensures ss[i].agent.nextSeq == |ss[i].local|
    ensures !WriteAtomic(h, origin, ss[i].db, ss[i].agent, delta).0.Refused?
  {
    RunInv(h, origin, ss, es, i);
  }

  lemma {:induction false} LocalGrows(h: Hashing, origin: Bytes, ss: seq<Site>, es: seq<Event>, i: nat, j: nat)
    requires Run(h, origin, ss, es) && i <= j < |ss|
    ensures ss[i].local <= ss[j].local
    decreases j
  {
    if i < j {
      LocalGrows(h, origin, ss, es, i, j - 1);
      assert ss[j] == Next(h, origin, ss[j - 1], es[j - 1]);
    }
  }

  // ---- Replay of the local events ----

  /** In a causal order an ancestor comes before its descendant. */
  lemma AncestorFirst(dag: Dag<CrdtEvent>, order: seq<Cid>, i: nat, y: Cid)
    requires forall k :: 0 <= k < |order| ==> order[k] in dag && dag[order[k]].children <= Elems(order[..k])
    requires i < |order| && Reaches(dag, {order[i]}, y)
    ensures y in order[..i + 1]
  {
    var head := order[..i + 1];
    var s := iset c | c in head;
    assert order[i] == head[i];
    assert ClosedUnder(dag, s) by {
      forall c, d | c in s && d in Children(dag, c) ensures d in s {
        var k :| 0 <= k < i + 1 && order[k] == c;
        assert d in Elems(order[..k]);
        var l :| 0 <= l < k && order[l] == d;
        assert head[l] == d;
      }
    }
    ReachesLeast(dag, {order[i]}, y, s);
  }

  lemma {:induction false} FilterPrecedes(s: seq<Cid>, keep: set<Cid>, a: Cid, b: Cid)
    requires Precedes(s, a, b) && a in keep && b in keep
    ensures Precedes(Filter(s, keep), a, b)
  {
    var i, j :| 0 <= i < j < |s| && s[i] == a && s[j] == b;
    assert s == s[..j] + s[j..];
    FilterAppend(s[..j], s[j..], keep);
    FilterMembers(s[..j], keep);
    FilterMembers(s[j..], keep);
    assert s[..j][i] == a && s[j..][0] == b;
    var x, y := Filter(s[..j], keep), Filter(s[j..], keep);
    assert a in x && b in y;
    var m :| 0 <= m < |x| && x[m] == a;
    var n :| 0 <= n < |y| && y[n] == b;
    assert (x + y)[m] == a && (x + y)[|x| + n] == b;
  }

  ghost predicate InOrderOf(s: seq<Cid>, t: seq<Cid>) {
    forall i, j :: 0 <= i < j < |t| ==> Precedes(s, t[i], t[j])
  }

  /** A sequence with the elements of `t`, in the order of `t`, is `t`. */
  lemma {:induction false} SameOrder(s: seq<Cid>, t: seq<Cid>)
    requires Distinct(s) && Distinct(t) && Elems(s) == Elems(t) && InOrderOf(s, t)
    ensures s == t
  {
    DistinctCard(s);
    DistinctCard(t);
    if t != [] {
      var n := |t| - 1;
      LastMatches(s, t);
      ButLast(s);
      ButLast(t);
      OrderButLast(s, t);
      SameOrder(s[..n], t[..n]);
      assert s == s[..n] + [s[n]] && t == t[..n] + [t[n]];
    }
  }

  lemma LastMatches(s: seq<Cid>, t: seq<Cid>)
    requires Distinct(s) && |s| == |t| > 0 && Elems(s) == Elems(t) && InOrderOf(s, t)
    ensures s[|s| - 1] == t[|t| - 1]
  {
    var x := s[|s| - 1];
    assert x in Elems(t);
    var k :| 0 <= k < |t| && t[k] == x;
    LastIsLast(s, t, k);
  }

  lemma OrderButLast(s: seq<Cid>, t: seq<Cid>)
    requires Distinct(t) && |s| == |t| > 0 && s[|s| - 1] == t[|t| - 1] && InOrderOf(s, t)
    ensures InOrderOf(s[..|s| - 1], t[..|t| - 1])
  {
    var n := |t| - 1;
    forall i, j | 0 <= i < j < n ensures Precedes(s[..n], t[..n][i], t[..n][j]) {
      PrecedesButLast(s, t[i], t[j]);
    }
  }

  lemma PrecedesButLast(s: seq<Cid>, a: Cid, b: Cid)
    requires Precedes(s, a, b) && b != s[|s| - 1]
    ensures Precedes(s[..|s| - 1], a, b)
  {
    var p, q :| 0 <= p < q < |s| && s[p] == a && s[q] == b;
    assert s[..|s| - 1][p] == a && s[..|s| - 1][q] == b;
  }

  lemma NothingAfterLast(s: seq<Cid>, b: Cid)
    requires s != [] && Distinct(s)
    ensures !Precedes(s, s[|s| - 1], b)
  {
  }

  lemma LastIsLast(s: seq<Cid>, t: seq<Cid>, k: nat)
    requires Distinct(s) && |s| == |t| && k < |t| && t[k] == s[|s| - 1] && InOrderOf(s, t)
    ensures k == |t| - 1
  {
    NothingAfterLast(s, t[|t| - 1]);
  }

  lemma ButLast(s: seq<Cid>)
    requires s != [] && Distinct(s)
    ensures Elems(s[..|s| - 1]) == Elems(s) - {s[|s| - 1]} && Distinct(s[..|s| - 1])
  {
    assert s == s[..|s| - 1] + [s[|s| - 1]];
    assert s[|s| - 1] !in s[..|s| - 1];
  }

  /** The local events with their whole ancestry come first in the chain. */
  lemma {:induction false} GroundedPrefix(h: Hashing, origin: Bytes, dag: Dag<CrdtEvent>, local: seq<Cid>) returns (k: nat)
    requires Chained(h, origin, dag, local)
    ensures k <= |local| && forall i :: 0 <= i < |local| ==> (Grounded(dag, local[i]) <==> i < k)
  {
    k := 0;
    while k < |local| && Grounded(dag, local[k])
      invariant k <= |local| && forall i :: 0 <= i < k ==> Grounded(dag, local[i])
    {
      k := k + 1;
    }
    forall i | k <= i < |local| ensures !Grounded(dag, local[i]) {
      if Grounded(dag, local[i]) {
        ChainReaches(h, origin, dag, local, k, i);
        GroundedReach(dag, local[i], local[k]);
      }
    }
  }

  lemma GroundedReach(dag: Dag<CrdtEvent>, c: Cid, d: Cid)
    requires Grounded(dag, c) && Reaches(dag, {c}, d)
    ensures Grounded(dag, d)
  {
    var g := iset x | Grounded(dag, x);
    assert ClosedUnder(dag, g) by {
      forall x, y | x in g && y in Children(dag, x) ensures y in g { GroundedDown(dag, x, y); }
    }
    ReachesLeast(dag, {c}, d, g);
  }

  lemma ReplayedLocals(h: Hashing, origin: Bytes, dag: Dag<CrdtEvent>, roots: set<Cid>, local: seq<Cid>, k: nat)
    requires Chained(h, origin, dag, local) && ReachLast(dag, roots, local) && k <= |local|
    requires forall i :: 0 <= i < |local| ==> (Grounded(dag, local[i]) <==> i < k)
    ensures Filter(ReplayOrder(dag, roots), Elems(local)) == local[..k]
  {
    var r, f := ReplayOrder(dag, roots), Filter(ReplayOrder(dag, roots), Elems(local));
    ReplayEmits(dag, roots);
    ChainDistinct(h, origin, dag, local);
    FilterMembers(r, Elems(local));
    forall i | 0 <= i < |local| ensures local[i] in r <==> i < k {
      ChainReaches(h, origin, dag, local, i, |local| - 1);
      ReachesVia(dag, roots, local[|local| - 1], local[i]);
    }
    assert Elems(f) == Elems(local[..k]);
    FilterDistinct(r, Elems(local));
    forall i, j | 0 <= i < j < |local[..k]| ensures Precedes(f, local[..k][i], local[..k][j]) {
      var a, b := local[i], local[j];
      assert b in r;
      var n :| 0 <= n < |r| && r[n] == b;
      ChainReaches(h, origin, dag, local, i, j);
      AncestorFirst(dag, r, n, a);
      var m :| 0 <= m < n + 1 && r[..n + 1][m] == a;
      assert r[m] == a && m != n;
      assert Precedes(r, a, b);
      FilterPrecedes(r, Elems(local), a, b);
    }
    SameOrder(f, local[..k]);
  }

  /**
   In every run, replaying from the agent's clock or from the persisted roots emits the
   replica's own events as a prefix of their chain, in seq order.
   */
  lemma ReplayEmitsChainPrefix(h: Hashing, origin: Bytes, ss: seq<Site>, es: seq<Event>, i: nat) returns (k: nat)
    requires Lawful(h) && Run(h, origin, ss, es) && i < |ss|
    ensures k <= |ss[i].local|
    ensures Filter(ReplayOrder(DagOf(ss[i].db), ss[i].agent.clock), Elems(ss[i].local)) == ss[i].local[..k]
    ensures Filter(ReplayOrder(DagOf(ss[i].db), RootsOf(ss[i].db)), Elems(ss[i].local)) == ss[i].local[..k]
  {
    RunInv(h, origin, ss, es, i);
    var dag, local := DagOf(ss[i].db), ss[i].local;
    k := GroundedPrefix(h, origin, dag, local);
    ReplayedLocals(h, origin, dag, ss[i].agent.clock, local, k);
    ReplayedLocals(h, origin, dag, RootsOf(ss[i].db), local, k);
  }

  // ---- A batch that does not compact ----

  /**
   Exactly when inserting a node and compacting makes it reachable: it was not stored
   before, or the batch already reached it.  A stored node that no root reaches stays
   unreachable, because inserting it again does not make it a candidate.
   */
  lemma InsertThenCompact(h: Hashing, origin: Bytes, s: Site, cid: Cid, wire: Wire)
    requires Lawful(h) && Inv(h, origin, s) && Authentic(h, wire) && wire.hash == cid && wire.row.Good?
    ensures var s1 := Next(h, origin, s, Insert(cid, wire, true));
            var s2 := Next(h, origin, s1, Compact);
            && cid in s2.db.table
            && (Reaches(DagOf(s2.db), RootsOf(s2.db), cid) <==>
                  cid !in s.db.table || Reaches(DagOf(s.db), s.ticker.clock + RootsOf(s.db), cid))
  {
    var s1 := Next(h, origin, s, Insert(cid, wire, true));
    InsertStep(h, origin, s, cid, wire, true);
    CompactedReach(h, s1.db, s1.ticker);
    var all := s1.ticker.clock + RootsOf(s1.db);
    assert Reaches(DagOf(s1.db), all, cid) <==> cid in Reached(DagOf(s1.db), all);
    if cid !in s.db.table { ReachesRoot(DagOf(s1.db), all, cid); }
  }

  lemma FirstInsert(h: Hashing, origin: Bytes, node: Node')
    requires Lawful(h) && node.children == {}
    ensures var cid := h.name(node);
            var s := Next(h, origin, Fresh, Insert(cid, Wire(cid, Good(node)), true));
            Inv(h, origin, s) && cid in s.db.table && s.db.roots.None?
  {
    var cid := h.name(node);
    FreshInv(h, origin);
    Step(h, origin, Fresh, Insert(cid, Wire(cid, Good(node)), true));
  }

  /** What a crash leaves of a first inserted node: its row, and no candidate. */
  lemma CrashLoses(h: Hashing, origin: Bytes, s: Site)
    requires Lawful(h) && Inv(h, origin, s) && s.db.roots.None?
    ensures var s' := Next(h, origin, s, Crash);
            Inv(h, origin, s') && s'.db == s.db && s'.ticker.clock + RootsOf(s'.db) == {}
  {
    Step(h, origin, s, Crash);
  }

  /** Such a node exists: inserted, then lost from the candidates by a crash before compaction. */
  lemma CrashOrphans(h: Hashing, origin: Bytes, node: Node')
    requires Lawful(h) && node.children == {}
    ensures var cid := h.name(node);
            var insert := Insert(cid, Wire(cid, Good(node)), true);
            var s1 := Next(h, origin, Fresh, insert);
            var s2 := Next(h, origin, s1, Crash);
            var s3 := Next(h, origin, Next(h, origin, s2, insert), Compact);
            Possible(h, insert) && cid in s3.db.table && !Reaches(DagOf(s3.db), RootsOf(s3.db), cid)
  {
    var cid := h.name(node);
    var insert := Insert(cid, Wire(cid, Good(node)), true);
    var s1 := Next(h, origin, Fresh, insert);
    FirstInsert(h, origin, node);
    CrashLoses(h, origin, s1);
    var s2 := Next(h, origin, s1, Crash);
    InsertThenCompact(h, origin, s2, cid, Wire(cid, Good(node)));
    NothingFromNothing(DagOf(s2.db), cid);
  }

  lemma FreshInv(h: Hashing, origin: Bytes)
    ensures Inv(h, origin, Fresh)
  {
    assert DagOf(EmptyDb) == map[];
  }

  lemma NothingFromNothing(dag: Dag<CrdtEvent>, c: Cid)
    ensures !Reaches(dag, {}, c)
  {
    if Reaches(dag, {}, c) { ReachesLeast(dag, {}, c, iset{}); }
  }

  // ---- Rows ----

  /** The materialized state and the other rows, as a plain pair of values. */
  datatype Slate = Slate(state: Bytes, kv: map<Bytes, Bytes>)

  function SlateOf(db: Db): Slate { Slate(StateOf(db), db.kv) }

  function ApplyDelta(s: Slate, writes: seq<Write>): Slate {
    if writes == [] then s
    else
      var t, w := ApplyDelta(s, writes[..|writes| - 1]), writes[|writes| - 1];
      if w.0 == StateKey then (if w.1.Some? then t.(state := w.1.value) else t)
      else t.(kv := ApplyWrite(t.kv, w))
  }

  lemma {:induction false} ApplyDeltaSplits(s: Slate, ws: seq<Write>)
    ensures ApplyDelta(s, ws) ==
            Slate(if LastState(ws).Some? then LastState(ws).value else s.state, ApplyWrites(s.kv, OtherWrites(ws)))
  {
    if ws != [] {
      var init, w := ws[..|ws| - 1], ws[|ws| - 1];
      ApplyDeltaSplits(s, init);
      if w.0 != StateKey {
        var o := OtherWrites(init) + [w];
        assert OtherWrites(ws) == o && o[..|o| - 1] == OtherWrites(init);
      } else {
        assert OtherWrites(ws) == OtherWrites(init);
      }
    }
  }

  /** What an event does to the slate: writes in order, or a whole replacement, or nothing. */
  ghost function NextSlate(h: Hashing, origin: Bytes, s: Site, e: Event): Slate {
    match e
    case Commit(delta) =>
      if WriteAtomic(h, origin, s.db, s.agent, delta).0.Refused? then SlateOf(s.db)
      else ApplyDelta(SlateOf(s.db), delta.writes)
    case Rebuild(state, rows) => Slate(state, TableOf(rows))
    case _ => SlateOf(s.db)
  }

  /**
   Persistence refines a plain map: after every event of every run the stored state and
   rows are those of applying the event to the slate before, although unchanged state and
   empty deltas are never written.
   */
  lemma PersistenceRefines(h: Hashing, origin: Bytes, ss: seq<Site>, es: seq<Event>, i: nat)
    requires Lawful(h) && Run(h, origin, ss, es) && i < |es|
    ensures SlateOf(ss[i + 1].db) == NextSlate(h, origin, ss[i], es[i])
  {
    RunInv(h, origin, ss, es, i);
    StepSlate(h, origin, ss[i], es[i]);
  }

  /** What a commit leaves in the rows, whichever of its shortcuts it takes. */
  lemma SplitSlate(h: Hashing, origin: Bytes, db: Db, mem: Mem, log: Option<EffectLog>, effectBearing: bool, state: Option<Bytes>, rest: seq<Write>)
    requires mem.last == StateOf(db)
    ensures var (out, db', mem') := WriteSplit(h, origin, db, mem, log, effectBearing, state, rest);
            SlateOf(db') == if out.Refused? then SlateOf(db)
                            else Slate(if state.Some? then state.value else StateOf(db), ApplyWrites(db.kv, rest))
  {
  }

  lemma StepSlate(h: Hashing, origin: Bytes, s: Site, e: Event)
    requires s.agent.last == StateOf(s.db)
    ensures SlateOf(Next(h, origin, s, e).db) == NextSlate(h, origin, s, e)
  {
    match e
    case Commit(delta) =>
      var state, rest := LastState(delta.writes), OtherWrites(delta.writes);
      SplitSlate(h, origin, s.db, s.agent, delta.log, delta.effectBearing, state, rest);
      ApplyDeltaSplits(SlateOf(s.db), delta.writes);
    case Rebuild(_, rows) => ApplyRowsIsTable(rows);
    case _ =>
  }

  // ---- What one commit does ----

  /** The delta changes the state, writes another row, or is said to bear effects. */
  predicate Bears(last: Bytes, delta: Delta) {
    || delta.effectBearing
    || (exists i :: 0 <= i < |delta.writes| && delta.writes[i].0 != StateKey)
    || (LastState(delta.writes).Some? && LastState(delta.writes).value != last)
  }

  lemma {:induction false} OtherWritesNone(ws: seq<Write>)
    ensures OtherWrites(ws) != [] <==> exists i :: 0 <= i < |ws| && ws[i].0 != StateKey
  {
    if ws != [] {
      var n := |ws| - 1;
      OtherWritesNone(ws[..n]);
      assert forall i :: 0 <= i < n ==> ws[..n][i] == ws[i];
      if i :| 0 <= i < |ws[..n]| && ws[..n][i].0 != StateKey { assert ws[i].0 != StateKey; }
      if ws[n].0 != StateKey { assert 0 <= n < |ws|; }
    }
  }

  /**
   A commit appends exactly if it has a log and bears anything; it is refused exactly if the
   log is then numbered for another event, and leaves everything as it was.  The node it
   appends holds the log under the next number on top of the stored roots, and is the only
   root afterwards.
   */
  lemma CommitAppends(h: Hashing, origin: Bytes, db: Db, mem: Mem, delta: Delta)
    ensures var (out, db', mem') := WriteAtomic(h, origin, db, mem, delta);
            var n := if db.nextSeq.Some? then db.nextSeq.value else mem.nextSeq;
            var appends := delta.log.Some? && Bears(mem.last, delta);
            && (out.Refused? <==> appends && delta.log.value.invocationId != ZeroId && delta.log.value.invocationId != h.derive(origin, n))
            && (out == Committed(true) ==> appends) && (appends && !out.Refused? ==> out == Committed(true))
            && (out.Refused? ==> db' == db)
            && (out == Committed(true) ==>
                  var node := Node(CrdtEvent(origin, n, delta.log.value.(invocationId := h.derive(origin, n))), RootsOf(db));
                  && db'.table == db.table[h.name(node) := Good(node)] && db'.roots == Some({h.name(node)}) && db'.nextSeq == Some(n + 1)
                  && mem'.clock == {h.name(node)} && mem'.nextSeq == n + 1)
            && (out == Committed(false) ==> db'.table == db.table && RootsOf(db') == RootsOf(db))
  {
    OtherWritesNone(delta.writes);
  }
}
