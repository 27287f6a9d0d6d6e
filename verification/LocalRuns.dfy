/** Runs of local persistence: commits, rebuilds and reopenings, against a plain slate. */
module LocalRuns {
  import opened Options
  import opened Ids
  import opened RowKeys
  import opened Commits
  import opened CommitChain
  import opened CommitStores

  /** A reopening restores before it commits. */
  datatype LocalEvent = Write(writes: seq<Commits.Write>) | Replace(state: Bytes, rows: seq<(Bytes, Bytes)>) | Reopen

  /** The database, and the state the open instance remembers. */
  datatype LocalSite = LocalSite(db: Db, last: Bytes)

  function LocalNext(s: LocalSite, e: LocalEvent): LocalSite {
    match e
    case Write(writes) => var (db, last) := LocalWrite(s.db, s.last, writes); LocalSite(db, last)
    case Replace(state, rows) => LocalSite(s.db.(state := Some(state), kv := ApplyRows(rows)), state)
    case Reopen => LocalSite(s.db, if s.db.state.Some? then s.db.state.value else [])
  }

  function LocalRun(es: seq<LocalEvent>): LocalSite {
    if es == [] then LocalSite(EmptyDb, []) else LocalNext(LocalRun(es[..|es| - 1]), es[|es| - 1])
  }

  /** What the caller asked for: every write applied, the last one winning. */
  ghost function Asked(es: seq<LocalEvent>): Slate {
    if es == [] then Slate([], map[])
    else
      var s := Asked(es[..|es| - 1]);
      match es[|es| - 1]
      case Write(writes) => ApplyDelta(s, writes)
      case Replace(state, rows) => Slate(state, TableOf(rows))
      case Reopen => s
  }

  /** In every run the stored state and rows are what was asked for, although unchanged state is never written. */
  lemma {:induction false} LocalRunRefines(es: seq<LocalEvent>)
    ensures SlateOf(LocalRun(es).db) == Asked(es) && LocalRun(es).last == StateOf(LocalRun(es).db)
  {
    if es != [] {
      LocalRunRefines(es[..|es| - 1]);
      var s, e := LocalRun(es[..|es| - 1]), es[|es| - 1];
      if e.Write? { LocalWriteRefines(s.db, s.last, e.writes); }
      if e.Replace? { ApplyRowsIsTable(e.rows); }
    }
  }

  /** Opened without restoring, the same shortcut loses a write of the empty state over a stored one. */
  lemma UnrestoredLosesWrite(db: Db)
    requires db.state == Some([1])
    ensures var w: seq<Commits.Write> := [(StateKey, Some([]))];
            LocalWrite(db, [], w).0 == db && StateOf(db) == [1] && ApplyDelta(SlateOf(db), w).state == []
  {
    var w: seq<Commits.Write> := [(StateKey, Some([]))];
    assert w[..|w| - 1] == [];
    assert LastState(w) == Some([]) && OtherWrites(w) == [];
  }
}
