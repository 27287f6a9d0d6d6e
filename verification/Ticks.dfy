/**
 One service's tick: slices of refine chained over self-messages on one journal, each
 work-result judged against the effective state, and the journal committed at the end.
 */
module Ticks {
  import opened Options
  import opened Ids
  import opened RowKeys
  import opened WorkResults
  import opened Journals
  import opened Refine
  import opened RefineShift

  const MaxRefineIterations: nat := 64

  /** How a slice ends; a rejection may come after its work-result was absorbed. */
  datatype End =
    | Idle(payload: Option<Payload>)
    | Yield(payload: Option<Payload>, next: seq<Obs>)
    | Rejection(payload: Option<Payload>)
    | Trapped
    | PrivateRecord

  /** A yield needs a suspension boundary, and a suspension boundary must yield. */
  function Boundary(p: Option<Payload>, goesOn: bool, continuation: Option<seq<Obs>>): End {
    if goesOn && continuation.Some? then Yield(p, continuation.value)
    else if goesOn || continuation.Some? then Rejection(p)
    else Idle(p)
  }

  /** The verdict on a finished run, and the journal with its work-result absorbed. */
  function Judge(c: Context, svc: nat, exit: Exit, s: State): (End, Journal) {
    if s.rejected then (PrivateRecord, s.journal)
    else
      match exit
      case OutOfGas => (Trapped, s.journal)
      case Panicked => (Trapped, s.journal)
      case Halted(out, continuation) =>
        match Decode(out)
        case Some(p) =>
          if (p.anchorKind, p.anchor) != ExpectedAnchor(c, s.journal, svc, Effective(s.journal, c.storage, svc, StateKey)) then
            (Rejection(None), s.journal)
          else (Boundary(Some(p), p.continueNext, continuation), AbsorbAll(s.journal, p.effects, svc))
        case None =>
          if ClaimsPayload(out) then (Rejection(None), s.journal)
          else (Boundary(None, out != [] && out[0] == StatusYielded, continuation), s.journal)
  }

  function NonEmpty(items: seq<Bytes>): seq<Bytes> {
    if items == [] then []
    else NonEmpty(items[..|items| - 1]) + if items[|items| - 1] == [] then [] else [items[|items| - 1]]
  }

  /** One slice: the guest resumes where it was suspended, or starts afresh. */
  function RunSlice(c: Context, guest: Guest, svc: nat, gas: nat, s: State, items: seq<Bytes>, resume: Option<seq<Obs>>): (End, State, seq<Bytes>) {
    var hist := if resume.Some? then resume.value + [Woken(true)] else [];
    var (exit, s', left) := Run(c, guest, svc, 0, gas, s, NonEmpty(items), hist, None);
    var (end, j) := Judge(c, svc, exit, s');
    (end, s'.(journal := j), left)
  }

  /** What a tick keeps about its service beside the journal. */
  datatype Dispatch = Dispatch(
    s: State,
    stored: Option<seq<Obs>>,
    reply: Option<Bytes>,
    forbidden: bool,
    anchor: Option<(byte, Bytes)>,
    effectBearing: bool,
    requeued: seq<Bytes>)

  /** An absorbed work-result; the first one's anchor is kept. */
  function Note(d: Dispatch, p: Option<Payload>): Dispatch {
    if p.None? then d
    else
      var w := p.value;
      d.(anchor := if d.anchor.Some? then d.anchor else Some((w.anchorKind, w.anchor)),
         effectBearing := d.effectBearing || w.effects != [], reply := Some(w.reply), forbidden := d.forbidden || w.forbidden)
  }

  function Failed(d: Dispatch, s: State, m: Mark): Dispatch {
    d.(s := s.(journal := RollbackTo(s.journal, m)), reply := None, forbidden := false)
  }

  function Settle(d: Dispatch, m: Mark, end: End, s: State, left: seq<Bytes>): Dispatch {
    match end
    case PrivateRecord => Failed(d, s, MarkOf(EmptyJournal))
    case Trapped => Failed(d, s, m)
    case Rejection(p) => Failed(Note(d, p), s, m).(stored := None)
    case Yield(p, next) =>
      Note(d, p).(s := s.(journal := s.journal.(selfMessages := [])), stored := Some(next), requeued := left + s.journal.selfMessages)
    case Idle(p) => Note(d, p).(s := s, stored := None)
  }

  function TakeMail(d: Dispatch): Dispatch { d.(s := d.s.(journal := d.s.journal.(selfMessages := []))) }

  /** One slice, settled. */
  function Step(c: Context, guest: Guest, svc: nat, gas: nat, d: Dispatch, items: seq<Bytes>, resume: Option<seq<Obs>>): (End, Dispatch) {
    var (end, s, left) := RunSlice(c, guest, svc, gas, d.s, items, resume);
    (end, Settle(d, MarkOf(d.s.journal), end, s, left))
  }

  /** What runs one slice in a given context. */
  type Stepper = (Context, Dispatch, seq<Bytes>, Option<seq<Obs>>) -> (End, Dispatch)

  function SliceStep(guest: Guest, svc: nat, gas: nat): Stepper {
    (c, d, items, resume) => Step(c, guest, svc, gas, d, items, resume)
  }

  function Mail(d: Dispatch): seq<Bytes> { d.s.journal.selfMessages }

  /** Up to `k` slices on one journal; self-messages left after the last one are spilled. */
  function Chain(step: Stepper, c: Context, k: nat, d: Dispatch, items: seq<Bytes>, resume: Option<seq<Obs>>): Dispatch
    requires k > 0
    decreases k
  {
    var (end, d') := step(c, d, items, resume);
    if !end.Idle? || Mail(d') == [] then d'
    else if k == 1 then TakeMail(d').(requeued := Mail(d'))
    else Chain(step, c, k - 1, TakeMail(d'), Mail(d'), None)
  }

  // ---- The same tick, committing as it goes ----

  /** One slice and what it contributed, its mail aside. */
  datatype Slice = Slice(end: End, delta: Journal)

  /** The dispatch with its journal committed and emptied. */
  function Clear(d: Dispatch): Dispatch { d.(s := d.s.(journal := EmptyJournal)) }

  /**
   The reference: every slice starts from an empty journal on storage in which the
   contributions of the slices before it are already committed.
   */
  function Serial(step: Stepper, c: Context, k: nat, d: Dispatch, items: seq<Bytes>, resume: Option<seq<Obs>>): (seq<Slice>, Dispatch)
    requires k > 0
    decreases k
  {
    var (end, d') := step(c, Clear(d), items, resume);
    var slice := Slice(end, TakeMail(d').s.journal);
    if !end.Idle? || Mail(d') == [] then ([slice], Clear(d'))
    else if k == 1 then ([slice], Clear(d').(requeued := Mail(d')))
    else
      var (rest, f) := Serial(step, Under(c, slice.delta), k - 1, Clear(d'), Mail(d'), None);
      ([slice] + rest, f)
  }

  function Contributions(slices: seq<Slice>): Journal {
    if slices == [] then EmptyJournal else Concat(slices[0].delta, Contributions(slices[1..]))
  }

  function CommitEach(st: Storage, slices: seq<Slice>): Storage
    decreases |slices|
  {
    if slices == [] then st else CommitEach(Drain(st, slices[0].delta.writes), slices[1..])
  }

  predicate Accepted(end: End) { end.Idle? || end.Yield? }

  lemma JudgeShift(c: Context, base: Journal, svc: nat, exit: Exit, s: State)
    ensures var (end, j) := Judge(Under(c, base), svc, exit, s);
            Judge(c, svc, exit, Over(base, s)) == (end, Concat(base, j))
  {
    if !s.rejected && exit.Halted? && Decode(exit.output).Some? {
      var p := Decode(exit.output).value;
      EffectiveShift(c, base, s.journal, svc, StateKey);
      AnchorShift(c, base, s.journal, svc, Effective(s.journal, Under(c, base).storage, svc, StateKey));
      AbsorbAllAppends(base, s.journal, p.effects, svc);
    }
  }

  lemma SliceShift(c: Context, base: Journal, guest: Guest, svc: nat, gas: nat, s: State, items: seq<Bytes>, resume: Option<seq<Obs>>)
    ensures var (end, s', left) := RunSlice(Under(c, base), guest, svc, gas, s, items, resume);
            RunSlice(c, guest, svc, gas, Over(base, s), items, resume) == (end, Over(base, s'), left)
  {
    var hist := if resume.Some? then resume.value + [Woken(true)] else [];
    RunShift(c, base, guest, svc, 0, gas, s, NonEmpty(items), hist, None);
    var (exit, s', left) := Run(Under(c, base), guest, svc, 0, gas, s, NonEmpty(items), hist, None);
    JudgeShift(c, base, svc, exit, s');
  }

  function OnTop(base: Journal, d: Dispatch): Dispatch { d.(s := Over(base, d.s)) }

  /** Unless everything is thrown away, settling leaves what was below untouched. */
  lemma SettleShift(base: Journal, d: Dispatch, end: End, s: State, left: seq<Bytes>)
    requires base.selfMessages == [] && d.s.journal == EmptyJournal
    ensures var m := MarkOf(EmptyJournal);
            Settle(OnTop(base, d), MarkOf(base), end, Over(base, s), left) ==
            if end.PrivateRecord? then Settle(d, m, end, s, left) else OnTop(base, Settle(d, m, end, s, left))
  {
    RollbackUndoes(base, s.journal);
    RollbackUndoes(EmptyJournal, s.journal);
    ConcatEmpty(s.journal);
    ConcatEmpty(base);
    RollbackUndoes(EmptyJournal, Concat(base, s.journal));
    ConcatEmpty(Concat(base, s.journal));
  }

  lemma UnderTwice(c: Context, base: Journal, delta: Journal)
    ensures Under(Under(c, base), delta) == Under(c, Concat(base, delta))
  {
    DrainAppend(c.storage, base.writes, delta.writes);
  }

  lemma OneSlice(slice: Slice)
    ensures Contributions([slice]) == slice.delta
  {
    assert [slice][1..] == [];
    ConcatEmpty(slice.delta);
  }

  lemma MailTaken(base: Journal, d: Dispatch)
    requires base.selfMessages == []
    ensures Mail(OnTop(base, d)) == Mail(d)
    ensures TakeMail(OnTop(base, d)) == OnTop(Concat(base, TakeMail(d).s.journal), Clear(d))
  {
    ConcatEmpty(Concat(base, TakeMail(d).s.journal));
    assert [] + Mail(d) == Mail(d);
    assert Concat(base, TakeMail(d).s.journal) == Concat(base, d.s.journal).(selfMessages := []);
  }

  lemma ConsContributions(base: Journal, slice: Slice, rest: seq<Slice>)
    ensures Concat(Concat(base, slice.delta), Contributions(rest)) == Concat(base, Contributions([slice] + rest))
  {
    assert ([slice] + rest)[1..] == rest;
    ConcatAssoc(base, slice.delta, Contributions(rest));
  }

  /** How a tick's result reads off the serial one: all contributions on top of the base, or nothing at all. */
  function Outcome(base: Journal, slices: seq<Slice>, e: Dispatch): Dispatch
    requires slices != []
  {
    if slices[|slices| - 1].end.PrivateRecord? then e
    else e.(s := e.s.(journal := Concat(base, Contributions(slices))))
  }

  lemma ConsOutcome(base: Journal, slice: Slice, rest: seq<Slice>, f: Dispatch)
    requires rest != []
    ensures Outcome(Concat(base, slice.delta), rest, f) == Outcome(base, [slice] + rest, f)
  {
    ConsContributions(base, slice, rest);
    assert ([slice] + rest)[|rest|] == rest[|rest| - 1];
  }

  /** One slice on top of a journal, and on the storage it drains to. */
  lemma StepShift(c: Context, base: Journal, guest: Guest, svc: nat, gas: nat, d: Dispatch, items: seq<Bytes>, resume: Option<seq<Obs>>)
    requires base.selfMessages == [] && d.s.journal == EmptyJournal
    ensures var (end, d') := Step(Under(c, base), guest, svc, gas, d, items, resume);
            Step(c, guest, svc, gas, OnTop(base, d), items, resume) == (end, if end.PrivateRecord? then d' else OnTop(base, d'))
  {
    ConcatEmpty(base);
    SliceShift(c, base, guest, svc, gas, d.s, items, resume);
    var (end, s, left) := RunSlice(Under(c, base), guest, svc, gas, d.s, items, resume);
    SettleShift(base, d, end, s, left);
  }

  /** A failed slice settles to what there was before it, without a reply. */
  lemma StepFails(c: Context, guest: Guest, svc: nat, gas: nat, d: Dispatch, items: seq<Bytes>, resume: Option<seq<Obs>>)
    requires d.s.journal == EmptyJournal
    ensures var (end, d') := Step(c, guest, svc, gas, d, items, resume);
            && (d'.s.rejected <==> end.PrivateRecord?)
            && (if end.Yield? then Mail(d') == [] else d'.requeued == d.requeued)
            && (!Accepted(end) ==> d'.s.journal == EmptyJournal && d'.reply.None? && !d'.forbidden)
  {
    var (end, s, left) := RunSlice(c, guest, svc, gas, d.s, items, resume);
    ConcatEmpty(s.journal);
    RollbackUndoes(EmptyJournal, s.journal);
  }

  /** A step on top of a journal is the step on the storage it drains to, put on top. */
  ghost predicate Shifts(step: Stepper) {
    forall c, base: Journal, d: Dispatch, items, resume :: base.selfMessages == [] && d.s.journal == EmptyJournal ==>
      var (end, d') := step(Under(c, base), d, items, resume);
      step(c, OnTop(base, d), items, resume) == (end, if end.PrivateRecord? then d' else OnTop(base, d'))
  }

  /** A failed step leaves nothing, and no reply. */
  ghost predicate Discards(step: Stepper) {
    forall c, d: Dispatch, items, resume :: d.s.journal == EmptyJournal ==>
      var (end, d') := step(c, d, items, resume);
      && (d'.s.rejected <==> end.PrivateRecord?)
      && (if end.Yield? then Mail(d') == [] else d'.requeued == d.requeued)
      && (!Accepted(end) ==> d'.s.journal == EmptyJournal && d'.reply.None? && !d'.forbidden)
  }

  lemma SliceSteps(guest: Guest, svc: nat, gas: nat)
    ensures Shifts(SliceStep(guest, svc, gas)) && Discards(SliceStep(guest, svc, gas))
  {
    var step := SliceStep(guest, svc, gas);
    forall c, base: Journal, d: Dispatch, items, resume | base.selfMessages == [] && d.s.journal == EmptyJournal
      ensures var (end, d') := step(Under(c, base), d, items, resume);
              step(c, OnTop(base, d), items, resume) == (end, if end.PrivateRecord? then d' else OnTop(base, d'))
    {
      StepShift(c, base, guest, svc, gas, d, items, resume);
    }
    forall c, d: Dispatch, items, resume | d.s.journal == EmptyJournal
      ensures var (end, d') := step(c, d, items, resume);
              && (d'.s.rejected <==> end.PrivateRecord?)
              && (if end.Yield? then Mail(d') == [] else d'.requeued == d.requeued)
              && (!Accepted(end) ==> d'.s.journal == EmptyJournal && d'.reply.None? && !d'.forbidden)
    {
      StepFails(c, guest, svc, gas, d, items, resume);
    }
  }

  /** Where a tick stops: with nothing left to mail, or with its mail spilled. */
  lemma LastSlice(base: Journal, end: End, d: Dispatch)
    requires base.selfMessages == []
    ensures var slice := Slice(end, TakeMail(d).s.journal);
            && (Mail(d) == [] && !end.PrivateRecord? ==> OnTop(base, d) == Outcome(base, [slice], Clear(d)))
            && (d.s.journal == EmptyJournal && end.PrivateRecord? ==> d == Outcome(base, [slice], Clear(d)))
            && (end.Idle? ==> TakeMail(OnTop(base, d)).(requeued := Mail(d)) == Outcome(base, [slice], Clear(d).(requeued := Mail(d))))
  {
    MailTaken(base, d);
    OneSlice(Slice(end, TakeMail(d).s.journal));
    ConcatEmpty(Concat(base, TakeMail(d).s.journal));
  }

  lemma {:induction false} ChainSerial(step: Stepper, c: Context, base: Journal, k: nat, d: Dispatch, items: seq<Bytes>, resume: Option<seq<Obs>>)
    requires Shifts(step) && Discards(step) && k > 0 && base.selfMessages == [] && d.s.journal == EmptyJournal
    ensures var (slices, e) := Serial(step, Under(c, base), k, d, items, resume);
            slices != [] && Chain(step, c, k, OnTop(base, d), items, resume) == Outcome(base, slices, e)
    decreases k
  {
    var u := Under(c, base);
    assert Clear(d) == d;
    var (end, d') := step(u, d, items, resume);
    var slice := Slice(end, TakeMail(d').s.journal);
    MailTaken(base, d');
    if end.Idle? && Mail(d') != [] && k > 1 {
      UnderTwice(c, base, slice.delta);
      ChainSerial(step, c, Concat(base, slice.delta), k - 1, Clear(d'), Mail(d'), None);
      var (rest, f) := Serial(step, Under(u, slice.delta), k - 1, Clear(d'), Mail(d'), None);
      ConsOutcome(base, slice, rest, f);
      assert Serial(step, u, k, d, items, resume) == ([slice] + rest, f);
    } else {
      LastSlice(base, end, d');
    }
  }

  // ---- What a tick commits ----

  lemma {:induction false} CommitEachIsDrain(st: Storage, slices: seq<Slice>)
    ensures Drain(st, Contributions(slices).writes) == CommitEach(st, slices)
    decreases |slices|
  {
    if slices != [] {
      DrainAppend(st, slices[0].delta.writes, Contributions(slices[1..]).writes);
      CommitEachIsDrain(Drain(st, slices[0].delta.writes), slices[1..]);
    }
  }

  /** The slices of a tick: all but the last ended idle, and a failed one contributes nothing and leaves no reply. */
  lemma {:induction false} SerialShape(step: Stepper, c: Context, k: nat, d: Dispatch, items: seq<Bytes>, resume: Option<seq<Obs>>)
    requires Discards(step) && k > 0
    ensures var (slices, e) := Serial(step, c, k, d, items, resume);
            && 0 < |slices| <= k && e.s.journal == EmptyJournal
            && (forall i :: 0 <= i < |slices| - 1 ==> slices[i].end.Idle?)
            && (e.s.rejected <==> slices[|slices| - 1].end.PrivateRecord?)
            && (!Accepted(slices[|slices| - 1].end) ==>
                  slices[|slices| - 1].delta == EmptyJournal && e.reply.None? && !e.forbidden && e.requeued == d.requeued)
    decreases k
  {
    var (end, d') := step(c, Clear(d), items, resume);
    var slice := Slice(end, TakeMail(d').s.journal);
    if end.Idle? && Mail(d') != [] && k > 1 {
      var u := Under(c, slice.delta);
      SerialShape(step, u, k - 1, Clear(d'), Mail(d'), None);
      var (rest, f) := Serial(step, u, k - 1, Clear(d'), Mail(d'), None);
      var slices := [slice] + rest;
      assert slices[|slices| - 1] == rest[|rest| - 1];
      assert forall i :: 0 < i < |slices| ==> slices[i] == rest[i - 1];
    }
  }

  /** What a tick hands to its host: rows, mail, preimages and services to create, from the journal it ends with. */
  datatype Result = Result(storage: Storage, transfers: seq<(nat, Bytes)>, preimages: seq<(Bytes, Bytes)>, created: seq<(Bytes, nat)>, dispatch: Dispatch)

  function AddressedTo(svc: nat, msgs: seq<Bytes>): seq<(nat, Bytes)> {
    if msgs == [] then [] else AddressedTo(svc, msgs[..|msgs| - 1]) + [(svc, msgs[|msgs| - 1])]
  }

  function Commit(st: Storage, svc: nat, d: Dispatch): Result {
    Result(Drain(st, d.s.journal.writes), AddressedTo(svc, d.requeued) + d.s.journal.transfers, d.s.journal.preimages, d.s.journal.newServices,
           d.(s := d.s.(journal := EmptyJournal)))
  }

  function Begin(mode: Mode, calls: nat, before: Dispatch): Dispatch {
    before.(s := State(EmptyJournal, mode, false, calls), reply := None, requeued := [])
  }

  function Tick(step: Stepper, c: Context, svc: nat, mode: Mode, calls: nat, before: Dispatch, items: seq<Bytes>): Result {
    Commit(c.storage, svc, Chain(step, c, MaxRefineIterations, Begin(mode, calls, before), items, before.stored))
  }

  /** The result a list of slices would have if each accepted one were committed as it ended. */
  function Settled(st: Storage, svc: nat, slices: seq<Slice>, e: Dispatch): Result {
    Result(CommitEach(st, slices), AddressedTo(svc, e.requeued) + Contributions(slices).transfers, Contributions(slices).preimages,
           Contributions(slices).newServices, e)
  }

  /**
   For every guest, what a tick commits is exactly the contributions of its accepted
   slices in order, each as it would be with the ones before it already committed; and
   nothing at all if a private record was refused at any depth.
   */
  lemma TickCommitsAccepted(c: Context, guest: Guest, svc: nat, gas: nat, mode: Mode, calls: nat, before: Dispatch, items: seq<Bytes>)
    ensures var step := SliceStep(guest, svc, gas);
            var (slices, e) := Serial(step, c, MaxRefineIterations, Begin(mode, calls, before), items, before.stored);
            Tick(step, c, svc, mode, calls, before, items) ==
            if e.s.rejected then Result(c.storage, [], [], [], e) else Settled(c.storage, svc, slices, e)
    ensures var (slices, e) := Serial(SliceStep(guest, svc, gas), c, MaxRefineIterations, Begin(mode, calls, before), items, before.stored);
            && 0 < |slices| <= MaxRefineIterations
            && (forall i :: 0 <= i < |slices| - 1 ==> Accepted(slices[i].end))
            && (!Accepted(slices[|slices| - 1].end) ==> slices[|slices| - 1].delta == EmptyJournal && e.reply.None? && !e.forbidden)
  {
    SliceSteps(guest, svc, gas);
    TickSettles(SliceStep(guest, svc, gas), c, svc, mode, calls, before, items);
    SerialShape(SliceStep(guest, svc, gas), c, MaxRefineIterations, Begin(mode, calls, before), items, before.stored);
  }

  lemma FromEmpty(step: Stepper, c: Context, k: nat, d: Dispatch, items: seq<Bytes>, resume: Option<seq<Obs>>)
    requires Shifts(step) && Discards(step) && k > 0 && d.s.journal == EmptyJournal
    ensures var (slices, e) := Serial(step, c, k, d, items, resume);
            slices != [] && Chain(step, c, k, d, items, resume) == Outcome(EmptyJournal, slices, e)
  {
    assert Under(c, EmptyJournal) == c;
    ConcatEmpty(EmptyJournal);
    assert OnTop(EmptyJournal, d) == d;
    ChainSerial(step, c, EmptyJournal, k, d, items, resume);
  }

  lemma TickSettles(step: Stepper, c: Context, svc: nat, mode: Mode, calls: nat, before: Dispatch, items: seq<Bytes>)
    requires Shifts(step) && Discards(step)
    ensures var (slices, e) := Serial(step, c, MaxRefineIterations, Begin(mode, calls, before), items, before.stored);
            Tick(step, c, svc, mode, calls, before, items) ==
            if e.s.rejected then Result(c.storage, [], [], [], e) else Settled(c.storage, svc, slices, e)
  {
    var d := Begin(mode, calls, before);
    FromEmpty(step, c, MaxRefineIterations, d, items, before.stored);
    SerialShape(step, c, MaxRefineIterations, d, items, before.stored);
    var (slices, e) := Serial(step, c, MaxRefineIterations, d, items, before.stored);
    ConcatEmpty(Contributions(slices));
    CommitEachIsDrain(c.storage, slices);
  }
}
