/**
 The commit strategies as functions of what is stored and what an open instance
 remembers: one committed dispatch, a merged peer node, a compaction, a rebuild, a reload.
 */
module Commits {
  import opened Options
  import opened Ids
  import opened Dags
  import opened ReplayLoops
  import opened Tables
  import opened Logs
  import opened RowKeys

  type Node' = Node<CrdtEvent>

  /** Content addressing: what the bytes with a given hash decode to, and the name of a node's own bytes. */
  datatype Hashing = Hashing(
    content: Cid -> Option<Node'>,
    name: Node' -> Cid,
    rank: Cid -> nat,
    derive: (Bytes, nat) -> Bytes)

  /** A hash is a name for one content, and no content contains its own hash. */
  ghost predicate Lawful(h: Hashing) {
    && (forall n :: h.content(h.name(n)) == Some(n))
    && (forall c, d :: h.content(c).Some? && d in h.content(c).value.children ==> h.rank(d) < h.rank(c))
  }

  type Write = (Bytes, Option<Bytes>)

  datatype Delta = Delta(writes: seq<Write>, log: Option<EffectLog>, effectBearing: bool)

  /** The tables of one database; absent rows are `None`. */
  datatype Db = Db(table: Table<CrdtEvent>, roots: Option<set<Cid>>, nextSeq: Option<nat>, state: Option<Bytes>, kv: map<Bytes, Bytes>)

  const EmptyDb := Db(map[], None, None, None, map[])

  /** What an open instance keeps in memory. */
  datatype Mem = Mem(clock: set<Cid>, last: Bytes, nextSeq: nat)

  function RootsOf(db: Db): set<Cid> { if db.roots.Some? then db.roots.value else {} }

  function StateOf(db: Db): Bytes { if db.state.Some? then db.state.value else [] }

  function SeqOf(db: Db, default: nat): nat { if db.nextSeq.Some? then db.nextSeq.value else default }

  function Opened(db: Db): Mem { Mem(RootsOf(db), StateOf(db), SeqOf(db, 0)) }

  function DagOf(db: Db): Dag<CrdtEvent> { Decodable(db.table) }

  // ---- Splitting a delta ----

  /** The last state value written, if any; a state tombstone is ignored. */
  function LastState(ws: seq<Write>): Option<Bytes> {
    if ws == [] then None
    else
      var w := ws[|ws| - 1];
      if w.0 == StateKey && w.1.Some? then w.1 else LastState(ws[..|ws| - 1])
  }

  /** The writes to other keys, in order. */
  function OtherWrites(ws: seq<Write>): seq<Write> {
    if ws == [] then []
    else OtherWrites(ws[..|ws| - 1]) + if ws[|ws| - 1].0 == StateKey then [] else [ws[|ws| - 1]]
  }

  method SplitDelta(ws: seq<Write>) returns (state: Option<Bytes>, rest: seq<Write>)
    ensures state == LastState(ws) && rest == OtherWrites(ws)
  {
    state, rest := None, [];
    for i := 0 to |ws|
      invariant state == LastState(ws[..i]) && rest == OtherWrites(ws[..i])
    {
      assert ws[..i + 1][..i] == ws[..i];
      if ws[i].0 == StateKey {
        if ws[i].1.Some? { state := ws[i].1; }
      } else {
        rest := rest + [ws[i]];
      }
    }
    assert ws[..|ws|] == ws;
  }

  function ApplyWrite(kv: map<Bytes, Bytes>, w: Write): map<Bytes, Bytes> {
    if w.1.Some? then kv[w.0 := w.1.value] else kv - {w.0}
  }

  /** Rows after writes and deletes in order: the last one wins per key. */
  function ApplyWrites(kv: map<Bytes, Bytes>, ws: seq<Write>): map<Bytes, Bytes> {
    if ws == [] then kv else ApplyWrite(ApplyWrites(kv, ws[..|ws| - 1]), ws[|ws| - 1])
  }

  function ApplyRows(rows: seq<(Bytes, Bytes)>): map<Bytes, Bytes> {
    if rows == [] then map[] else ApplyRows(rows[..|rows| - 1])[rows[|rows| - 1].0 := rows[|rows| - 1].1]
  }

  lemma {:induction false} RowsApplied(rows: seq<(Bytes, Bytes)>)
    ensures HoldsRows(ApplyRows(rows), rows)
  {
    if rows != [] {
      var n := |rows| - 1;
      RowsApplied(rows[..n]);
      OneMoreRow(ApplyRows(rows[..n]), rows[..n], rows[n].0, rows[n].1);
      assert rows == rows[..n] + [(rows[n].0, rows[n].1)];
    }
  }

  /** The table that holds exactly the given rows. */
  ghost function TableOf(rows: seq<(Bytes, Bytes)>): (kv: map<Bytes, Bytes>)
    ensures HoldsRows(kv, rows)
  {
    RowsApplied(rows);
    var kv :| HoldsRows(kv, rows);
    kv
  }

  lemma ApplyRowsIsTable(rows: seq<(Bytes, Bytes)>)
    ensures ApplyRows(rows) == TableOf(rows)
  {
    RowsApplied(rows);
    RowsDecide(ApplyRows(rows), TableOf(rows), rows);
  }

  /** After writes and deletes a row is what its last write says. */
  lemma {:induction false} RowWritten(kv: map<Bytes, Bytes>, ws: seq<Write>, k: Bytes, i: nat)
    requires IsLast(ws, k, i)
    ensures k in ApplyWrites(kv, ws) <==> ws[i].1.Some?
    ensures ws[i].1.Some? ==> ApplyWrites(kv, ws)[k] == ws[i].1.value
  {
    var n := |ws| - 1;
    if i < n {
      LastOfPrefix(ws, k, i, n);
      RowWritten(kv, ws[..n], k, i);
    }
  }

  /** A row that no write names is as it was. */
  lemma {:induction false} RowKept(kv: map<Bytes, Bytes>, ws: seq<Write>, k: Bytes)
    requires !Occurs(ws, k)
    ensures k in ApplyWrites(kv, ws) <==> k in kv
    ensures k in kv ==> ApplyWrites(kv, ws)[k] == kv[k]
  {
    if ws != [] {
      assert ws[|ws| - 1].0 != k;
      RowKept(kv, ws[..|ws| - 1], k);
    }
  }

  // ---- One commit ----

  datatype Outcome = Committed(appended: bool) | Refused

  predicate StateChanged(last: Bytes, state: Option<Bytes>) { state.Some? && state.value != last }

  /** The node a commit appends: the stamped event, on top of the persisted roots. */
  function NewNode(h: Hashing, origin: Bytes, db: Db, n: nat, log: EffectLog): Node' {
    Node(NewEvent(h.derive, origin, n, log), RootsOf(db))
  }

  /** A log stamped for another event must not be committed as this one. */
  predicate Misnumbered(h: Hashing, origin: Bytes, n: nat, log: EffectLog) {
    log.invocationId != ZeroId && log.invocationId != h.derive(origin, n)
  }

  function WriteAtomic(h: Hashing, origin: Bytes, db: Db, mem: Mem, delta: Delta): (Outcome, Db, Mem) {
    WriteSplit(h, origin, db, mem, delta.log, delta.effectBearing, LastState(delta.writes), OtherWrites(delta.writes))
  }

  /** The roots and the next sequence number are read afresh; the node, if any, becomes the only root. */
  function WriteSplit(h: Hashing, origin: Bytes, db: Db, mem: Mem, log: Option<EffectLog>, effectBearing: bool, state: Option<Bytes>, rest: seq<Write>): (Outcome, Db, Mem) {
    var n, changed := SeqOf(db, mem.nextSeq), StateChanged(mem.last, state);
    if log.Some? && (changed || effectBearing || rest != []) then
      if Misnumbered(h, origin, n, log.value) then (Refused, db, mem.(clock := RootsOf(db), nextSeq := n))
      else
        var node := NewNode(h, origin, db, n, log.value);
        var cid := h.name(node);
        (Committed(true), Written(db, changed, state, rest, db.table[cid := Good(node)], {cid}, n + 1),
         Mem({cid}, if changed then state.value else mem.last, n + 1))
    else if !changed && rest == [] then (Committed(false), db, mem)
    else
      var roots := RootsOf(db);
      (Committed(false), Written(db, changed, state, rest, db.table, roots, n), Mem(roots, if changed then state.value else mem.last, n))
  }

  function Written(db: Db, changed: bool, state: Option<Bytes>, rest: seq<Write>, table: Table<CrdtEvent>, roots: set<Cid>, n: nat): Db {
    Db(table, Some(roots), Some(n), if changed then state else db.state, ApplyWrites(db.kv, rest))
  }

  function Rebuilt(db: Db, mem: Mem, state: Bytes, rows: seq<(Bytes, Bytes)>): (Db, Mem) {
    (db.(state := Some(state), kv := ApplyRows(rows)), mem.(last := state))
  }

  function Reloaded(db: Db, mem: Mem): Mem { mem.(clock := RootsOf(db), last := StateOf(db)) }

  // ---- Merging peer nodes ----

  /** Bytes from a peer: their hash and what they decode to. */
  datatype Wire = Wire(hash: Cid, row: Row<CrdtEvent>)

  ghost predicate Authentic(h: Hashing, w: Wire) {
    w.row.Good? ==> h.content(w.hash) == Some(w.row.node)
  }

  datatype Merge = Merged(isNew: bool) | Mismatch

  function InsertNode(db: Db, mem: Mem, cid: Cid, w: Wire, trusted: bool): (Merge, Db, Mem) {
    if w.hash != cid then (Mismatch, db, mem)
    else if w.row.Garbage? || !trusted || cid in db.table then (Merged(false), db, mem)
    else (Merged(true), db.(table := db.table[cid := w.row]), mem.(clock := mem.clock + {cid}))
  }

  /** The candidates that no reached node names as a predecessor. */
  ghost function Heads(dag: Dag<CrdtEvent>, candidates: set<Cid>): set<Cid> {
    set c | c in candidates && !Subsumed(dag, candidates, c)
  }

  lemma HeadsIsCompaction(dag: Dag<CrdtEvent>, candidates: set<Cid>, roots: set<Cid>)
    ensures IsCompaction(dag, candidates, Heads(dag, candidates))
    ensures IsCompaction(dag, candidates, roots) ==> roots == Heads(dag, candidates)
  {
  }

  /** Persisted and remembered roots become the heads of their union; refused on an undecodable row. */
  ghost function Compacted(db: Db, mem: Mem): (Outcome, Db, Mem) {
    var candidates := mem.clock + RootsOf(db);
    if |candidates| <= 1 then (Committed(false), db.(roots := Some(candidates)), mem.(clock := candidates))
    else if GarbageReached(db.table, candidates) then (Refused, db, mem.(clock := candidates))
    else
      var roots := Heads(DagOf(db), candidates);
      (Committed(false), db.(roots := Some(roots)), mem.(clock := roots))
  }
}
