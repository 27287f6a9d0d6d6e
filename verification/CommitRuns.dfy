/**
 An agent thread and a sync ticker over one database: every interleaving of commits,
 rebuilds, reloads, merged peer nodes, compactions and crashes.
 */
module CommitRuns {
  import opened Options
  import opened Ids
  import opened Dags
  import opened ReplayLoops
  import opened Logs
  import opened Commits

  /**
   One replica.  `local` lists the nodes it appended itself; `pending` the nodes its
   current sync batch inserted; `settled` those of batches whose compaction has run.
   */
  datatype Site = Site(db: Db, agent: Mem, ticker: Mem, local: seq<Cid>, pending: set<Cid>, settled: set<Cid>)

  const Fresh := Site(EmptyDb, Opened(EmptyDb), Opened(EmptyDb), [], {}, {})

  datatype Event =
    | Commit(delta: Delta)
    | Rebuild(state: Bytes, rows: seq<(Bytes, Bytes)>)
    | Reload
    | OpenBatch
    | Insert(cid: Cid, wire: Wire, trusted: bool)
    | Compact
    | Crash

  ghost function Next(h: Hashing, origin: Bytes, s: Site, e: Event): Site {
    match e
    case Commit(delta) =>
      var (out, db, mem) := WriteAtomic(h, origin, s.db, s.agent, delta);
      s.(db := db, agent := mem, local := if out == Committed(true) then s.local + [Appended(h, origin, s, delta)] else s.local)
    case Rebuild(state, rows) =>
      var (db, mem) := Rebuilt(s.db, s.agent, state, rows);
      s.(db := db, agent := mem)
    case Reload => s.(agent := Reloaded(s.db, s.agent))
    case OpenBatch => s.(ticker := Opened(s.db), pending := {})
    case Insert(cid, wire, trusted) =>
      var (out, db, mem) := InsertNode(s.db, s.ticker, cid, wire, trusted);
      s.(db := db, ticker := mem, pending := if out == Merged(true) then s.pending + {cid} else s.pending)
    case Compact =>
      var (out, db, mem) := Compacted(s.db, s.ticker);
      if out == Refused then s.(db := db, ticker := mem)
      else s.(db := db, ticker := mem, settled := s.settled + s.pending)
    case Crash => s.(agent := Opened(s.db), ticker := Opened(s.db), pending := {})
  }

  /** The id of the node a commit appends. */
  ghost function Appended(h: Hashing, origin: Bytes, s: Site, delta: Delta): Cid {
    if delta.log.Some? then h.name(NewNode(h, origin, s.db, SeqOf(s.db, s.agent.nextSeq), delta.log.value)) else []
  }

  ghost predicate Possible(h: Hashing, e: Event) {
    e.Insert? ==> Authentic(h, e.wire)
  }

  ghost predicate Run(h: Hashing, origin: Bytes, ss: seq<Site>, es: seq<Event>) {
    && |ss| == |es| + 1 && ss[0] == Fresh
    && forall i :: 0 <= i < |es| ==> Possible(h, es[i]) && ss[i + 1] == Next(h, origin, ss[i], es[i])
  }

  // ---- What every step keeps ----

  /** Every row decodes to the content its id names. */
  ghost predicate Genuine(h: Hashing, db: Db) {
    forall c :: c in db.table ==> db.table[c].Good? && h.content(c) == Some(db.table[c].node)
  }

  lemma GenuineAcyclic(h: Hashing, db: Db)
    requires Lawful(h) && Genuine(h, db)
    ensures Acyclic(DagOf(db), h.rank)
    ensures DagOf(db).Keys == db.table.Keys
    ensures forall cs :: !GarbageReached(db.table, cs)
  {
    forall c, d | d in Children(DagOf(db), c) ensures h.rank(d) < h.rank(c) {
      assert h.content(c) == Some(DagOf(db)[c]);
    }
  }

  /** Local events are numbered 0, 1, 2, ..., stamped with their number, each below the next. */
  ghost predicate Chained(h: Hashing, origin: Bytes, dag: Dag<CrdtEvent>, local: seq<Cid>) {
    && (forall i :: 0 <= i < |local| ==>
          && local[i] in dag
          && dag[local[i]].event.origin == origin && dag[local[i]].event.seqNo == i
          && dag[local[i]].event.log.invocationId == h.derive(origin, i))
    && (forall i :: 0 < i < |local| ==> Reaches(dag, {local[i]}, local[i - 1]))
  }

  ghost predicate ReachLast(dag: Dag<CrdtEvent>, roots: set<Cid>, local: seq<Cid>) {
    local != [] ==> Reaches(dag, roots, local[|local| - 1])
  }

  ghost predicate ReachAll(dag: Dag<CrdtEvent>, roots: set<Cid>, cs: set<Cid>) {
    forall c :: c in cs ==> Reaches(dag, roots, c)
  }

  ghost predicate Inv(h: Hashing, origin: Bytes, s: Site) {
    var dag := DagOf(s.db);
    && Genuine(h, s.db)
    && Chained(h, origin, dag, s.local)
    && s.agent.nextSeq == SeqOf(s.db, s.agent.nextSeq) == |s.local| && (s.db.nextSeq.None? ==> s.local == [])
    && ReachLast(dag, RootsOf(s.db), s.local)
    && ReachLast(dag, s.agent.clock, s.local)
    && ReachAll(dag, s.ticker.clock + RootsOf(s.db), s.pending)
    && ReachAll(dag, RootsOf(s.db), s.settled)
    && s.agent.last == StateOf(s.db)
  }

  /** Reachability from the persisted roots never shrinks. */
  ghost predicate ReachGrows(s: Site, s': Site) {
    && Grows(DagOf(s.db), DagOf(s'.db))
    && (forall c :: Reaches(DagOf(s.db), RootsOf(s.db), c) ==> Reaches(DagOf(s'.db), RootsOf(s'.db), c))
  }

  lemma ReachAllMono(dag: Dag<CrdtEvent>, dag': Dag<CrdtEvent>, roots: set<Cid>, roots': set<Cid>, cs: set<Cid>)
    requires Grows(dag, dag') && ReachAll(dag, roots, cs) && ReachAll(dag', roots', roots)
    ensures ReachAll(dag', roots', cs)
  {
    forall c | c in cs ensures Reaches(dag', roots', c) { ReachesMono(dag, roots, dag', roots', c); }
  }

  lemma RootsReachThemselves(dag: Dag<CrdtEvent>, roots: set<Cid>, more: set<Cid>)
    requires roots <= more
    ensures ReachAll(dag, more, roots)
  {
    forall c | c in roots ensures Reaches(dag, more, c) { ReachesRoot(dag, more, c); }
  }

  lemma ChainedGrows(h: Hashing, origin: Bytes, dag: Dag<CrdtEvent>, dag': Dag<CrdtEvent>, local: seq<Cid>)
    requires Chained(h, origin, dag, local) && Grows(dag, dag')
    ensures Chained(h, origin, dag', local)
  {
    forall i | 0 < i < |local| ensures Reaches(dag', {local[i]}, local[i - 1]) {
      RootsReachThemselves(dag', {local[i]}, {local[i]});
      ReachesMono(dag, {local[i]}, dag', {local[i]}, local[i - 1]);
    }
  }

  lemma ReachLastMono(dag: Dag<CrdtEvent>, dag': Dag<CrdtEvent>, roots: set<Cid>, roots': set<Cid>, local: seq<Cid>)
    requires Grows(dag, dag') && ReachLast(dag, roots, local) && ReachAll(dag', roots', roots)
    ensures ReachLast(dag', roots', local)
  {
    if local != [] { ReachesMono(dag, roots, dag', roots', local[|local| - 1]); }
  }

  // ---- A commit that appends ----

  lemma AppendGrows(h: Hashing, db: Db, db': Db, node: Node')
    requires Lawful(h) && Genuine(h, db)
    requires db'.table == db.table[h.name(node) := Good(node)]
    ensures Genuine(h, db') && Grows(DagOf(db), DagOf(db'))
    ensures h.name(node) in DagOf(db') && DagOf(db')[h.name(node)] == node
  {
    var c := h.name(node);
    if c in db.table { assert h.content(c) == Some(db.table[c].node); }
  }

  /** The new node is on top of the old roots, so it reaches what they reached. */
  lemma AppendReaches(dag: Dag<CrdtEvent>, c: Cid, roots: set<Cid>)
    requires c in dag && dag[c].children == roots
    ensures ReachAll(dag, {c}, roots)
  {
    ReachesRoot(dag, {c}, c);
    forall r | r in roots ensures Reaches(dag, {c}, r) { ReachesStep(dag, {c}, c, r); }
  }

  lemma AppendChained(h: Hashing, origin: Bytes, dag: Dag<CrdtEvent>, local: seq<Cid>, c: Cid, log: EffectLog)
    requires Chained(h, origin, dag, local)
    requires c in dag && dag[c].event == NewEvent(h.derive, origin, |local|, log)
    requires ReachLast(dag, {c}, local)
    ensures Chained(h, origin, dag, local + [c]) && ReachLast(dag, {c}, local + [c])
  {
    ReachesRoot(dag, {c}, c);
    var l := local + [c];
    forall i | 0 < i < |l| ensures Reaches(dag, {l[i]}, l[i - 1]) {
      if i == |local| { assert l[i] == c && l[i - 1] == local[|local| - 1]; }
    }
  }

  lemma CommitStep(h: Hashing, origin: Bytes, s: Site, delta: Delta)
    requires Lawful(h) && Inv(h, origin, s)
    ensures Inv(h, origin, Next(h, origin, s, Commit(delta))) && ReachGrows(s, Next(h, origin, s, Commit(delta)))
  {
    var s' := Next(h, origin, s, Commit(delta));
    var (out, db, mem) := WriteAtomic(h, origin, s.db, s.agent, delta);
    var dag, dag', roots := DagOf(s.db), DagOf(s'.db), RootsOf(s.db);
    if out == Committed(true) {
      var node := NewNode(h, origin, s.db, |s.local|, delta.log.value);
      var c := h.name(node);
      AppendGrows(h, s.db, s'.db, node);
      AppendReaches(dag', c, roots);
      ChainedGrows(h, origin, dag, dag', s.local);
      ReachLastMono(dag, dag', roots, {c}, s.local);
      AppendChained(h, origin, dag', s.local, c, delta.log.value);
      ReachAllMono(dag, dag', roots, {c}, s.settled);
      forall x | Reaches(dag, roots, x) ensures Reaches(dag', {c}, x) { ReachesMono(dag, roots, dag', {c}, x); }
      RootsReachThemselves(dag', s.ticker.clock, s.ticker.clock + {c});
      ReachAllVia(dag', {c}, s.ticker.clock + {c}, roots);
      ReachAllMono(dag, dag', s.ticker.clock + roots, s.ticker.clock + {c}, s.pending);
    } else {
      assert dag' == dag && RootsOf(s'.db) == roots;
    }
  }

  lemma ReachAllVia(dag: Dag<CrdtEvent>, small: set<Cid>, big: set<Cid>, cs: set<Cid>)
    requires small <= big && ReachAll(dag, small, cs)
    ensures ReachAll(dag, big, cs)
  {
    RootsReachThemselves(dag, small, big);
    ReachAllMono(dag, dag, small, big, cs);
  }

  // ---- Merging and compacting ----

  /** What a growing table keeps, the roots being the same. */
  lemma TableGrows(h: Hashing, origin: Bytes, s: Site, db: Db)
    requires Inv(h, origin, s) && Grows(DagOf(s.db), DagOf(db)) && RootsOf(db) == RootsOf(s.db)
    ensures var dag, roots := DagOf(db), RootsOf(db);
            && Chained(h, origin, dag, s.local)
            && ReachLast(dag, roots, s.local) && ReachLast(dag, s.agent.clock, s.local)
            && ReachAll(dag, roots, s.settled) && ReachAll(dag, s.ticker.clock + roots, s.pending)
            && forall c :: Reaches(DagOf(s.db), roots, c) ==> Reaches(dag, roots, c)
  {
    var dag, dag', roots := DagOf(s.db), DagOf(db), RootsOf(db);
    RootsReachThemselves(dag', roots, roots);
    RootsReachThemselves(dag', s.agent.clock, s.agent.clock);
    RootsReachThemselves(dag', s.ticker.clock + roots, s.ticker.clock + roots);
    ChainedGrows(h, origin, dag, dag', s.local);
    ReachLastMono(dag, dag', roots, roots, s.local);
    ReachLastMono(dag, dag', s.agent.clock, s.agent.clock, s.local);
    ReachAllMono(dag, dag', roots, roots, s.settled);
    ReachAllMono(dag, dag', s.ticker.clock + roots, s.ticker.clock + roots, s.pending);
    forall c | Reaches(dag, roots, c) ensures Reaches(dag', roots, c) { ReachesMono(dag, roots, dag', roots, c); }
  }

  lemma InsertGrows(h: Hashing, db: Db, cid: Cid, wire: Wire)
    requires Genuine(h, db) && Authentic(h, wire) && wire.hash == cid && wire.row.Good? && cid !in db.table
    ensures var db' := db.(table := db.table[cid := wire.row]);
            Genuine(h, db') && Grows(DagOf(db), DagOf(db')) && cid in DagOf(db')
  {
  }

  /** What a merged node does to an invariant site. */
  lemma MergedStep(h: Hashing, origin: Bytes, s: Site, cid: Cid, wire: Wire)
    requires Inv(h, origin, s) && Authentic(h, wire) && wire.hash == cid && wire.row.Good? && cid !in s.db.table
    ensures var s' := s.(db := s.db.(table := s.db.table[cid := wire.row]),
                         ticker := s.ticker.(clock := s.ticker.clock + {cid}), pending := s.pending + {cid});
            Inv(h, origin, s') && ReachGrows(s, s')
  {
    var db', clock', roots := s.db.(table := s.db.table[cid := wire.row]), s.ticker.clock + {cid}, RootsOf(s.db);
    InsertGrows(h, s.db, cid, wire);
    TableGrows(h, origin, s, db');
    ReachAllVia(DagOf(db'), s.ticker.clock + roots, clock' + roots, s.pending);
    ReachesRoot(DagOf(db'), clock' + roots, cid);
  }

  lemma InsertStep(h: Hashing, origin: Bytes, s: Site, cid: Cid, wire: Wire, trusted: bool)
    requires Lawful(h) && Inv(h, origin, s) && Authentic(h, wire)
    ensures Inv(h, origin, Next(h, origin, s, Insert(cid, wire, trusted)))
    ensures ReachGrows(s, Next(h, origin, s, Insert(cid, wire, trusted)))
  {
    if InsertNode(s.db, s.ticker, cid, wire, trusted).0 == Merged(true) { MergedStep(h, origin, s, cid, wire); }
  }

  /** Compacting keeps what the candidates reached. */
  lemma CompactedReach(h: Hashing, db: Db, mem: Mem)
    requires Lawful(h) && Genuine(h, db)
    ensures Compacted(db, mem).0 == Committed(false)
    ensures var db' := Compacted(db, mem).1;
            && db'.table == db.table && db'.nextSeq == db.nextSeq && StateOf(db') == StateOf(db)
            && Reached(DagOf(db), RootsOf(db')) == Reached(DagOf(db), mem.clock + RootsOf(db))
            && Compacted(db, mem).2.clock == RootsOf(db')
  {
    GenuineAcyclic(h, db);
    var candidates := mem.clock + RootsOf(db);
    if |candidates| > 1 {
      HeadsIsCompaction(DagOf(db), candidates, {});
      CompactionExact(DagOf(db), h.rank, candidates, Heads(DagOf(db), candidates));
    }
  }

  lemma ReachAllSame(dag: Dag<CrdtEvent>, a: set<Cid>, b: set<Cid>, cs: set<Cid>)
    requires Reached(dag, a) == Reached(dag, b) && ReachAll(dag, a, cs)
    ensures ReachAll(dag, b, cs)
  {
    forall c | c in cs ensures Reaches(dag, b, c) { assert c in Reached(dag, a); }
  }

  lemma CompactStep(h: Hashing, origin: Bytes, s: Site)
    requires Lawful(h) && Inv(h, origin, s)
    ensures Inv(h, origin, Next(h, origin, s, Compact)) && ReachGrows(s, Next(h, origin, s, Compact))
  {
    var s' := Next(h, origin, s, Compact);
    var dag, roots, all := DagOf(s.db), RootsOf(s.db), s.ticker.clock + RootsOf(s.db);
    CompactedReach(h, s.db, s.ticker);
    var roots' := RootsOf(s'.db);
    RootsReachThemselves(dag, roots, all);
    ReachAllSame(dag, all, roots', roots);
    ReachLastMono(dag, dag, roots, roots', s.local);
    ReachAllMono(dag, dag, roots, roots', s.settled);
    ReachAllSame(dag, all, roots', s.pending);
    ReachAllVia(dag, roots', s'.ticker.clock + roots', s.pending);
    forall c | Reaches(dag, roots, c) ensures Reaches(dag, roots', c) { ReachesMono(dag, roots, dag, roots', c); }
  }

  lemma Step(h: Hashing, origin: Bytes, s: Site, e: Event)
    requires Lawful(h) && Inv(h, origin, s) && Possible(h, e)
    ensures Inv(h, origin, Next(h, origin, s, e)) && ReachGrows(s, Next(h, origin, s, e))
  {
    match e
    case Commit(delta) => CommitStep(h, origin, s, delta);
    case Insert(cid, wire, trusted) => InsertStep(h, origin, s, cid, wire, trusted);
    case Compact => CompactStep(h, origin, s);
    case Rebuild(state, rows) =>
    case Reload =>
    case OpenBatch =>
    case Crash =>
  }

  lemma {:induction false} RunInv(h: Hashing, origin: Bytes, ss: seq<Site>, es: seq<Event>, i: nat)
    requires Lawful(h) && Run(h, origin, ss, es) && i < |ss|
    ensures Inv(h, origin, ss[i])
  {
    if i == 0 {
      assert DagOf(EmptyDb) == map[];
    } else {
      RunInv(h, origin, ss, es, i - 1);
      Step(h, origin, ss[i - 1], es[i - 1]);
    }
  }

  lemma RunGrows(h: Hashing, origin: Bytes, ss: seq<Site>, es: seq<Event>, i: nat)
    requires Lawful(h) && Run(h, origin, ss, es) && i < |es|
    ensures ReachGrows(ss[i], ss[i + 1])
  {
    RunInv(h, origin, ss, es, i);
    Step(h, origin, ss[i], es[i]);
  }

  /** Nothing reachable from the persisted roots is ever lost, in any interleaving. */
  lemma {:induction false} ReachNeverShrinks(h: Hashing, origin: Bytes, ss: seq<Site>, es: seq<Event>, i: nat, j: nat, c: Cid)
    requires Lawful(h) && Run(h, origin, ss, es) && i <= j < |ss|
    requires Reaches(DagOf(ss[i].db), RootsOf(ss[i].db), c)
    ensures Reaches(DagOf(ss[j].db), RootsOf(ss[j].db), c)
    decreases j - i
  {
    if i < j {
      RunGrows(h, origin, ss, es, i);
      ReachNeverShrinks(h, origin, ss, es, i + 1, j, c);
    }
  }

  /** Once a batch's compaction has run, every node it inserted is reachable, for good. */
  lemma SettledReachable(h: Hashing, origin: Bytes, ss: seq<Site>, es: seq<Event>, i: nat, j: nat, c: Cid)
    requires Lawful(h) && Run(h, origin, ss, es) && i < |es| && i < j < |ss|
    requires es[i].Compact? && c in ss[i].pending
    ensures Reaches(DagOf(ss[j].db), RootsOf(ss[j].db), c)
  {
    RunInv(h, origin, ss, es, i);
    RunInv(h, origin, ss, es, i + 1);
    CompactedReach(h, ss[i].db, ss[i].ticker);
    assert ss[i + 1] == Next(h, origin, ss[i], es[i]);
    assert c in ss[i + 1].settled;
    ReachNeverShrinks(h, origin, ss, es, i + 1, j, c);
  }

  /** Neither a new batch nor a crash between two moments of a run. */
  ghost predicate SameBatch(es: seq<Event>, i: nat, j: nat) {
    i <= j <= |es| && forall k :: i <= k < j ==> !es[k].OpenBatch? && !es[k].Crash?
  }

  lemma {:induction false} PendingStays(h: Hashing, origin: Bytes, ss: seq<Site>, es: seq<Event>, i: nat, j: nat, c: Cid)
    requires Run(h, origin, ss, es) && SameBatch(es, i, j) && c in ss[i].pending
    ensures c in ss[j].pending
    decreases j - i
  {
    if i < j {
      assert ss[i + 1] == Next(h, origin, ss[i], es[i]);
      PendingStays(h, origin, ss, es, i + 1, j, c);
    }
  }

  /** A new node inserted anywhere in a batch is reachable from its next compaction on, whatever the agent did meanwhile. */
  lemma BatchReachable(h: Hashing, origin: Bytes, ss: seq<Site>, es: seq<Event>, i: nat, j: nat, m: nat, c: Cid)
    requires Lawful(h) && Run(h, origin, ss, es) && i < j < |es| && j < m < |ss| && SameBatch(es, i, j)
    requires es[i].Insert? && es[i].cid == c && es[i].trusted && es[i].wire.hash == c && es[i].wire.row.Good? && c !in ss[i].db.table
    requires es[j].Compact?
    ensures Reaches(DagOf(ss[m].db), RootsOf(ss[m].db), c)
  {
    assert ss[i + 1] == Next(h, origin, ss[i], es[i]);
    PendingStays(h, origin, ss, es, i + 1, j, c);
    SettledReachable(h, origin, ss, es, j, m, c);
  }
}
