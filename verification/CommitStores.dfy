/** The commit strategies as objects over a shared database, each method proved against its function. */
module CommitStores {
  import opened Options
  import opened Orders
  import opened Ids
  import opened Dags
  import opened Replay
  import opened ReplayLoops
  import opened Tables
  import opened Logs
  import opened Commits
  import opened CommitChain

  /** The tables, shared by every instance opened on the file. */
  class Database {
    var table: Table<CrdtEvent>
    var roots: Option<set<Cid>>
    var nextSeq: Option<nat>
    var state: Option<Bytes>
    var kv: map<Bytes, Bytes>

    ghost function View(): Db reads this { Db(table, roots, nextSeq, state, kv) }

    constructor ()
      ensures View() == EmptyDb
    {
      table, roots, nextSeq, state, kv := map[], None, None, None, map[];
    }

    method WriteRows(rest: seq<Write>)
      modifies this`kv
      ensures kv == ApplyWrites(old(kv), rest)
    {
      for i := 0 to |rest|
        invariant kv == ApplyWrites(old(kv), rest[..i])
      {
        assert rest[..i + 1][..i] == rest[..i];
        match rest[i].1
        case Some(value) => kv := kv[rest[i].0 := value];
        case None => kv := kv - {rest[i].0};
      }
      assert rest[..|rest|] == rest;
    }

    /** One write transaction: state, node, roots, sequence number and rows together. */
    method Transact(state': Option<Bytes>, table': Table<CrdtEvent>, roots': set<Cid>, n: nat, rest: seq<Write>)
      modifies this
      ensures View() == Db(table', Some(roots'), Some(n), state', ApplyWrites(old(kv), rest))
    {
      state, table, roots, nextSeq := state', table', Some(roots'), Some(n);
      WriteRows(rest);
    }

    method SwapRows(rows: seq<(Bytes, Bytes)>)
      modifies this`kv
      ensures kv == ApplyRows(rows) && HoldsRows(kv, rows)
    {
      kv := map[];
      for i := 0 to |rows|
        invariant kv == ApplyRows(rows[..i])
      {
        assert rows[..i + 1][..i] == rows[..i];
        kv := kv[rows[i].0 := rows[i].1];
      }
      assert rows[..|rows|] == rows;
      RowsApplied(rows);
    }
  }

  class CrdtCommit {
    const db: Database
    const origin: Bytes
    const h: Hashing
    var clock: set<Cid>
    var lastState: Bytes
    var nextSeq: nat

    ghost function View(): Mem reads this { Mem(clock, lastState, nextSeq) }

    constructor (db: Database, origin: Bytes, h: Hashing)
      ensures this.db == db && this.origin == origin && this.h == h
      ensures View() == Opened(db.View())
      ensures db.roots.Some? ==> clock == db.roots.value
      ensures db.state.Some? ==> lastState == db.state.value
      ensures db.nextSeq.Some? ==> nextSeq == db.nextSeq.value
    {
      this.db, this.origin, this.h := db, origin, h;
      clock := if db.roots.Some? then db.roots.value else {};
      lastState := if db.state.Some? then db.state.value else [];
      nextSeq := if db.nextSeq.Some? then db.nextSeq.value else 0;
    }

    method Commit(delta: Delta) returns (r: Outcome)
      modifies this, db
      ensures (r, db.View(), View()) == WriteAtomic(h, origin, old(db.View()), old(View()), delta)
    {
      var state, rest := SplitDelta(delta.writes);
      r := CommitSplit(delta.log, delta.effectBearing, state, rest);
    }

    method CommitSplit(log: Option<EffectLog>, effectBearing: bool, state: Option<Bytes>, rest: seq<Write>) returns (r: Outcome)
      modifies this, db
      ensures (r, db.View(), View()) == WriteSplit(h, origin, old(db.View()), old(View()), log, effectBearing, state, rest)
    {
      var changed := state.Some? && state.value != lastState;
      var append := log.Some? && (changed || effectBearing || rest != []);
      if !changed && rest == [] && !append { return Committed(false); }
      clock := if db.roots.Some? then db.roots.value else {};
      nextSeq := if db.nextSeq.Some? then db.nextSeq.value else nextSeq;
      if append {
        var id := log.value.invocationId;
        if id != ZeroId && id != h.derive(origin, nextSeq) { return Refused; }
        var node := Node(NewEvent(h.derive, origin, nextSeq, log.value), clock);
        var cid := h.name(node);
        Store(changed, state, db.table[cid := Good(node)], {cid}, nextSeq + 1, rest);
      } else {
        Store(changed, state, db.table, clock, nextSeq, rest);
      }
      r := Committed(append);
    }

    /** The write transaction, then the same values in memory. */
    method Store(changed: bool, state: Option<Bytes>, table: Table<CrdtEvent>, roots: set<Cid>, n: nat, rest: seq<Write>)
      requires changed ==> state.Some?
      modifies this, db
      ensures db.View() == Db(table, Some(roots), Some(n), if changed then state else old(db.state), ApplyWrites(old(db.kv), rest))
      ensures View() == Mem(roots, if changed then state.value else old(lastState), n)
    {
      db.Transact(if changed then state else db.state, table, roots, n, rest);
      clock, nextSeq := roots, n;
      if changed { lastState := state.value; }
    }

    method CommitRebuilt(state: Bytes, rows: seq<(Bytes, Bytes)>)
      modifies this, db
      ensures (db.View(), View()) == Rebuilt(old(db.View()), old(View()), state, rows)
      ensures db.state == Some(state) && HoldsRows(db.kv, rows) && lastState == state
    {
      db.state := Some(state);
      db.SwapRows(rows);
      lastState := state;
    }

    method Reload()
      modifies this
      ensures View() == Reloaded(old(db.View()), old(View()))
      ensures db.roots.Some? ==> clock == db.roots.value
      ensures db.state.Some? ==> lastState == db.state.value
      ensures nextSeq == old(nextSeq)
    {
      clock := if db.roots.Some? then db.roots.value else {};
      lastState := if db.state.Some? then db.state.value else [];
    }

    method InsertNode(cid: Cid, w: Wire, trusted: bool) returns (r: Merge)
      modifies this, db
      ensures (r, db.View(), View()) == Commits.InsertNode(old(db.View()), old(View()), cid, w, trusted)
      ensures r == Merged(true) <==> w.hash == cid && w.row.Good? && trusted && cid !in old(db.table)
      ensures r == Mismatch <==> w.hash != cid
      ensures r != Merged(true) ==> db.View() == old(db.View()) && View() == old(View())
      ensures r == Merged(true) ==>
                && db.table == old(db.table)[cid := w.row] && clock == old(clock) + {cid}
                && db.roots == old(db.roots) && db.nextSeq == old(db.nextSeq) && db.state == old(db.state) && db.kv == old(db.kv)
    {
      if w.hash != cid { return Mismatch; }
      if w.row.Garbage? { return Merged(false); }
      if !trusted { return Merged(false); }
      if cid in db.table { return Merged(false); }
      db.table := db.table[cid := w.row];
      clock := clock + {cid};
      r := Merged(true);
    }

    method CompactRoots() returns (r: Outcome)
      modifies this, db
      ensures (r, db.View(), View()) == Compacted(old(db.View()), old(View()))
    {
      clock := clock + if db.roots.Some? then db.roots.value else {};
      var heads := CompactCandidates(db.table, clock);
      HeadsIsCompaction(Decodable(db.table), clock, if heads.Some? then heads.value else {});
      if heads.None? { return Refused; }
      clock := heads.value;
      db.roots := Some(clock);
      r := Committed(false);
    }

    method ReplayLogs() returns (events: seq<CrdtEvent>)
      ensures var dag, order := DagOf(db.View()), ReplayOrder(DagOf(db.View()), clock);
              && Distinct(order)
              && (forall c :: c in order <==> Reaches(dag, clock, c) && Grounded(dag, c))
              && (forall c :: c in order ==> c in dag)
              && events == EventsOf(dag, order)
    {
      events := ReplayLoops.ReplayLogs(db.table, clock);
      ReplayEmits(Decodable(db.table), clock);
    }
  }

  // ---- Local persistence ----

  /** One local commit: only changed state and actual rows are written. */
  function LocalWrite(db: Db, last: Bytes, writes: seq<Write>): (Db, Bytes) {
    var state, rest := LastState(writes), OtherWrites(writes);
    var changed := state.Some? && state.value != last;
    if !changed && rest == [] then (db, last)
    else (db.(state := if changed then state else db.state, kv := ApplyWrites(db.kv, rest)),
          if state.Some? then state.value else last)
  }

  /**
   A local commit is the plain application of its writes exactly when the remembered state
   is not a stale copy of the one being written; once restored, it always is.
   */
  lemma LocalWriteRefines(db: Db, last: Bytes, writes: seq<Write>)
    ensures SlateOf(LocalWrite(db, last, writes).0) == ApplyDelta(SlateOf(db), writes) <==>
            !(LastState(writes) == Some(last) && last != StateOf(db))
    ensures last == StateOf(db) ==>
              && SlateOf(LocalWrite(db, last, writes).0) == ApplyDelta(SlateOf(db), writes)
              && LocalWrite(db, last, writes).1 == StateOf(LocalWrite(db, last, writes).0)
  {
    ApplyDeltaSplits(SlateOf(db), writes);
  }

  class LocalCommit {
    const db: Database
    var last: Bytes

    constructor (db: Database)
      ensures this.db == db && last == []
    {
      this.db, last := db, [];
    }

    method Restore() returns (r: Option<Bytes>)
      modifies this
      ensures r == db.state
      ensures last == if db.state.Some? then db.state.value else old(last)
    {
      r := db.state;
      if r.Some? { last := r.value; }
    }

    method Commit(writes: seq<Write>)
      modifies this, db
      ensures (db.View(), last) == LocalWrite(old(db.View()), old(last), writes)
    {
      var state, rest := SplitDelta(writes);
      var changed := state.Some? && state.value != last;
      if !changed && rest == [] { return; }
      if changed { db.state := state; }
      db.WriteRows(rest);
      if state.Some? { last := state.value; }
    }

    method CommitRebuilt(state: Bytes, rows: seq<(Bytes, Bytes)>)
      modifies this, db
      ensures db.View() == old(db.View()).(state := Some(state), kv := ApplyRows(rows)) && last == state
      ensures HoldsRows(db.kv, rows)
    {
      db.state := Some(state);
      db.SwapRows(rows);
      last := state;
    }
  }
}
