/**
 The refine journal: an ordered overlay of pending row mutations on committed storage,
 with the other side effects of a service's tick queued beside it.
 */
module Journals {
  import opened Options
  import opened Ids
  import opened Payloads

  // ---- Storage ----

  type Rows = map<Bytes, Bytes>

  /** Each service's keyspace. */
  type Storage = map<nat, Rows>

  function RowsOf(st: Storage, svc: nat): Rows { if svc in st then st[svc] else map[] }

  function RowAt(st: Storage, svc: nat, key: Bytes): Option<Bytes> {
    if key in RowsOf(st, svc) then Some(RowsOf(st, svc)[key]) else None
  }

  /** One pending mutation; `None` is a delete tombstone. */
  datatype Entry = Entry(svc: nat, key: Bytes, value: Option<Bytes>)

  function Put(st: Storage, e: Entry): Storage {
    if e.value.Some? then st[e.svc := RowsOf(st, e.svc)[e.key := e.value.value]]
    else if e.svc in st then st[e.svc := st[e.svc] - {e.key}]
    else st
  }

  /** Draining a journal: its mutations applied in order. */
  function Drain(st: Storage, writes: seq<Entry>): Storage {
    if writes == [] then st else Put(Drain(st, writes[..|writes| - 1]), writes[|writes| - 1])
  }

  // ---- The overlay ----

  datatype Journal = Journal(
    writes: seq<Entry>,
    transfers: seq<(nat, Bytes)>,
    preimages: seq<(Bytes, Bytes)>,
    selfMessages: seq<Bytes>,
    newServices: seq<(Bytes, nat)>)

  const EmptyJournal := Journal([], [], [], [], [])

  /** The latest journaled mutation of one row of one service, if there is one. */
  function Journaled(writes: seq<Entry>, svc: nat, key: Bytes): Option<Option<Bytes>> {
    if writes == [] then None
    else
      var e := writes[|writes| - 1];
      if e.svc == svc && e.key == key then Some(e.value) else Journaled(writes[..|writes| - 1], svc, key)
  }

  function Effective(j: Journal, st: Storage, svc: nat, key: Bytes): Option<Bytes> {
    match Journaled(j.writes, svc, key)
    case Some(value) => value
    case None => RowAt(st, svc, key)
  }

  /** Reading through the overlay is reading the row after draining it, tombstones included. */
  lemma OverlayRefinesCommit(j: Journal, st: Storage, svc: nat, key: Bytes)
    ensures Effective(j, st, svc, key) == RowAt(Drain(st, j.writes), svc, key)
  {
    DrainedRow(j.writes, st, svc, key);
  }

  lemma {:induction false} DrainedRow(writes: seq<Entry>, st: Storage, svc: nat, key: Bytes)
    ensures RowAt(Drain(st, writes), svc, key) ==
            match Journaled(writes, svc, key) { case Some(value) => value case None => RowAt(st, svc, key) }
  {
    if writes != [] { DrainedRow(writes[..|writes| - 1], st, svc, key); }
  }

  /** Draining in two steps. */
  lemma {:induction false} DrainAppend(st: Storage, a: seq<Entry>, b: seq<Entry>)
    ensures Drain(st, a + b) == Drain(Drain(st, a), b)
  {
    if b == [] {
      assert a + b == a;
    } else {
      assert (a + b)[..|a + b| - 1] == a + b[..|b| - 1];
      DrainAppend(st, a, b[..|b| - 1]);
    }
  }

  // ---- Appending ----

  /** One journal on top of another. */
  function Concat(a: Journal, b: Journal): Journal {
    Journal(a.writes + b.writes, a.transfers + b.transfers, a.preimages + b.preimages,
            a.selfMessages + b.selfMessages, a.newServices + b.newServices)
  }

  function Absorb(j: Journal, e: Effect, self: nat): Journal {
    match e
    case Write(key, value) => j.(writes := j.writes + [Entry(self, key, Some(value))])
    case Delete(key) => j.(writes := j.writes + [Entry(self, key, None)])
    case Transfer(target, memo) =>
      if target == self then j.(selfMessages := j.selfMessages + [memo])
      else j.(transfers := j.transfers + [(target, memo)])
    case Provide(hash, data) => j.(preimages := j.preimages + [(hash, data)])
    case New(codeHash) => j.(newServices := j.newServices + [(codeHash, 0)])
  }

  function AbsorbAll(j: Journal, es: seq<Effect>, self: nat): Journal {
    if es == [] then j else Absorb(AbsorbAll(j, es[..|es| - 1], self), es[|es| - 1], self)
  }

  /** What effects add to a journal does not depend on what it holds. */
  lemma {:induction false} AbsorbAllAppends(a: Journal, b: Journal, es: seq<Effect>, self: nat)
    ensures AbsorbAll(Concat(a, b), es, self) == Concat(a, AbsorbAll(b, es, self))
  {
    if es != [] {
      AbsorbAllAppends(a, b, es[..|es| - 1], self);
      AbsorbAppends(a, AbsorbAll(b, es[..|es| - 1], self), es[|es| - 1], self);
    }
  }

  lemma AbsorbAppends(a: Journal, b: Journal, e: Effect, self: nat)
    ensures Absorb(Concat(a, b), e, self) == Concat(a, Absorb(b, e, self))
  {
    var j, k := Absorb(Concat(a, b), e, self), Concat(a, Absorb(b, e, self));
    assert j.writes == k.writes;
    assert j.transfers == k.transfers;
    assert j.preimages == k.preimages;
    assert j.selfMessages == k.selfMessages;
    assert j.newServices == k.newServices;
  }

  lemma ConcatEmpty(j: Journal)
    ensures Concat(j, EmptyJournal) == j && Concat(EmptyJournal, j) == j
  {
  }

  lemma ConcatAssoc(a: Journal, b: Journal, c: Journal)
    ensures Concat(Concat(a, b), c) == Concat(a, Concat(b, c))
  {
    assert a.writes + b.writes + c.writes == a.writes + (b.writes + c.writes);
    assert a.transfers + b.transfers + c.transfers == a.transfers + (b.transfers + c.transfers);
    assert a.preimages + b.preimages + c.preimages == a.preimages + (b.preimages + c.preimages);
    assert a.selfMessages + b.selfMessages + c.selfMessages == a.selfMessages + (b.selfMessages + c.selfMessages);
    assert a.newServices + b.newServices + c.newServices == a.newServices + (b.newServices + c.newServices);
  }

  // ---- Marks ----

  datatype Mark = Mark(writes: nat, transfers: nat, preimages: nat, selfMessages: nat, newServices: nat)

  function MarkOf(j: Journal): Mark {
    Mark(|j.writes|, |j.transfers|, |j.preimages|, |j.selfMessages|, |j.newServices|)
  }

  function Truncate<T>(s: seq<T>, n: nat): seq<T> { if n < |s| then s[..n] else s }

  function RollbackTo(j: Journal, m: Mark): Journal {
    Journal(Truncate(j.writes, m.writes), Truncate(j.transfers, m.transfers), Truncate(j.preimages, m.preimages),
            Truncate(j.selfMessages, m.selfMessages), Truncate(j.newServices, m.newServices))
  }

  lemma TruncateShift<T>(a: seq<T>, b: seq<T>, n: nat)
    ensures Truncate(a + b, |a| + n) == a + Truncate(b, n)
  {
  }

  function MarkShift(m: Mark, a: Journal): Mark {
    Mark(|a.writes| + m.writes, |a.transfers| + m.transfers, |a.preimages| + m.preimages,
         |a.selfMessages| + m.selfMessages, |a.newServices| + m.newServices)
  }

  lemma RollbackShift(a: Journal, b: Journal, m: Mark)
    ensures RollbackTo(Concat(a, b), MarkShift(m, a)) == Concat(a, RollbackTo(b, m))
  {
    TruncateShift(a.writes, b.writes, m.writes);
    TruncateShift(a.transfers, b.transfers, m.transfers);
    TruncateShift(a.preimages, b.preimages, m.preimages);
    TruncateShift(a.selfMessages, b.selfMessages, m.selfMessages);
    TruncateShift(a.newServices, b.newServices, m.newServices);
  }

  /** Rolling back to a mark drops exactly what was appended since. */
  lemma RollbackUndoes(j: Journal, more: Journal)
    ensures RollbackTo(Concat(j, more), MarkOf(j)) == j
  {
    RollbackShift(j, more, MarkOf(EmptyJournal));
    ConcatEmpty(j);
    assert RollbackTo(more, MarkOf(EmptyJournal)) == EmptyJournal;
    assert MarkShift(MarkOf(EmptyJournal), j) == MarkOf(j);
  }

  // ---- Nested marks ----

  /** What a refine and its nested invokes do to a journal: append, mark, and roll back to a mark or drop it. */
  datatype JournalOp = Append(more: Journal) | Open | Abort | Close

  /** A journal with the marks still open on it, outermost first; `was` is what each of them marked. */
  datatype Nest = Nest(journal: Journal, marks: seq<Mark>, was: seq<Journal>)

  function JournalStep(n: Nest, op: JournalOp): Nest {
    match op
    case Append(more) => n.(journal := Concat(n.journal, more))
    case Open => Nest(n.journal, n.marks + [MarkOf(n.journal)], n.was + [n.journal])
    case Abort =>
      if n.marks == [] || |n.was| != |n.marks| then n
      else Nest(RollbackTo(n.journal, n.marks[|n.marks| - 1]), n.marks[..|n.marks| - 1], n.was[..|n.was| - 1])
    case Close =>
      if n.marks == [] || |n.was| != |n.marks| then n
      else n.(marks := n.marks[..|n.marks| - 1], was := n.was[..|n.was| - 1])
  }

  function JournalRun(n: Nest, ops: seq<JournalOp>): Nest {
    if ops == [] then n else JournalStep(JournalRun(n, ops[..|ops| - 1]), ops[|ops| - 1])
  }

  ghost predicate Grown(j: Journal, k: Journal) { exists more :: k == Concat(j, more) }

  ghost predicate Nested(n: Nest) {
    && |n.marks| == |n.was|
    && (forall i :: 0 <= i < |n.was| ==> n.marks[i] == MarkOf(n.was[i]) && Grown(n.was[i], n.journal))
    && (forall i, k :: 0 <= i < k < |n.was| ==> Grown(n.was[i], n.was[k]))
  }

  lemma GrownTrans(a: Journal, b: Journal, more: Journal)
    requires Grown(a, b)
    ensures Grown(a, Concat(b, more))
  {
    var x :| b == Concat(a, x);
    ConcatAssoc(a, x, more);
  }

  lemma NestedStep(n: Nest, op: JournalOp)
    requires Nested(n)
    ensures Nested(JournalStep(n, op))
  {
    match op
    case Append(more) =>
      forall i | 0 <= i < |n.was| ensures Grown(n.was[i], Concat(n.journal, more)) { GrownTrans(n.was[i], n.journal, more); }
    case Open =>
      ConcatEmpty(n.journal);
      assert Grown(n.journal, n.journal);
    case Abort =>
      if n.marks != [] {
        var last := n.was[|n.was| - 1];
        var more :| n.journal == Concat(last, more);
        RollbackUndoes(last, more);
      }
    case Close =>
  }

  /**
   However appends, marks and rollbacks nest, rolling back to any mark still open gives
   the journal as it was at that mark, and with it every effective read.
   */
  lemma {:induction false} NestedRollback(ops: seq<JournalOp>, i: nat)
    requires i < |JournalRun(Nest(EmptyJournal, [], []), ops).marks|
    ensures var n := JournalRun(Nest(EmptyJournal, [], []), ops);
            |n.was| == |n.marks| && RollbackTo(n.journal, n.marks[i]) == n.was[i]
  {
    RunNested(ops);
    var n := JournalRun(Nest(EmptyJournal, [], []), ops);
    assert Grown(n.was[i], n.journal);
    var more :| n.journal == Concat(n.was[i], more);
    RollbackUndoes(n.was[i], more);
  }

  lemma {:induction false} RunNested(ops: seq<JournalOp>)
    ensures Nested(JournalRun(Nest(EmptyJournal, [], []), ops))
  {
    if ops != [] {
      RunNested(ops[..|ops| - 1]);
      NestedStep(JournalRun(Nest(EmptyJournal, [], []), ops[..|ops| - 1]), ops[|ops| - 1]);
    }
  }
}
