/**
 What a tick answers: the verdict on each slice, the reply and the forbidden mark its
 slices leave, and the mail it hands back.
 */
module TickReplies {
  import opened Options
  import opened Orders
  import opened Ids
  import opened WorkResults
  import opened Journals
  import opened Refine
  import opened RefineShift
  import opened Ticks
  import opened TickAnchors

  // ---- The verdict on a slice ----

  /** The run halted with a work-result that names the rows as it left them. */
  ghost predicate Names(c: Context, svc: nat, exit: Exit, s: State, p: Payload) {
    && !s.rejected && exit.Halted? && Decode(exit.output) == Some(p)
    && (p.anchorKind, p.anchor) == RootAnchor(c.hash, Drain(c.storage, s.journal.writes), svc)
  }

  /** The run halted with bytes that are not, and do not look like, a work-result. */
  ghost predicate Opaque(exit: Exit, s: State) {
    !s.rejected && exit.Halted? && Decode(exit.output).None? && !(exit.output != [] && 2 <= exit.output[0] <= 4)
  }

  ghost predicate SaysYielded(out: Bytes) { out != [] && out[0] == 1 }

  /** A work-result that names its rows makes the slice yield if it says so at a suspension, and idle if it does not, without one. */
  lemma Verdict(c: Context, svc: nat, exit: Exit, s: State, p: Payload, h: seq<Obs>)
    ensures var end := Judge(c, svc, exit, s).0;
            && (end == Idle(Some(p)) <==> Names(c, svc, exit, s, p) && !p.continueNext && exit.continuation.None?)
            && (end == Yield(Some(p), h) <==> Names(c, svc, exit, s, p) && p.continueNext && exit.continuation == Some(h))
  {
    NamedJudged(c, svc, exit, s, p);
  }

  lemma NamedJudged(c: Context, svc: nat, exit: Exit, s: State, p: Payload)
    ensures Names(c, svc, exit, s, p) ==> Judge(c, svc, exit, s).0 == Boundary(Some(p), p.continueNext, exit.continuation)
    ensures var end := Judge(c, svc, exit, s).0; (end.Idle? || end.Yield?) && end.payload == Some(p) ==> Names(c, svc, exit, s, p)
  {
    ExpectedIsRoot(c, s.journal, svc);
  }

  /** So does an opaque output, by its first byte. */
  lemma OpaqueVerdict(c: Context, svc: nat, exit: Exit, s: State, h: seq<Obs>)
    ensures var end := Judge(c, svc, exit, s).0;
            && (end == Idle(None) <==> Opaque(exit, s) && !SaysYielded(exit.output) && exit.continuation.None?)
            && (end == Yield(None, h) <==> Opaque(exit, s) && SaysYielded(exit.output) && exit.continuation == Some(h))
  {
  }

  /** It traps exactly if its run did not halt, and a private record at any depth comes before everything else. */
  lemma NoVerdict(c: Context, svc: nat, exit: Exit, s: State)
    ensures var end := Judge(c, svc, exit, s).0;
            (end.PrivateRecord? <==> s.rejected) && (end.Trapped? <==> !s.rejected && !exit.Halted?)
  {
  }

  // ---- The reply of a tick ----

  /** What a slice leaves of the reply and the forbidden mark before it. */
  function Replied(reply: Option<Bytes>, forbidden: bool, end: End): (Option<Bytes>, bool) {
    if !(end.Idle? || end.Yield?) then (None, false)
    else if end.payload.None? then (reply, forbidden)
    else (Some(end.payload.value.reply), forbidden || end.payload.value.forbidden)
  }

  ghost predicate Replies(step: Stepper) {
    forall c, d: Dispatch, items, resume ::
      var (end, d') := step(c, d, items, resume);
      (d'.reply, d'.forbidden) == Replied(d.reply, d.forbidden, end)
  }

  lemma SliceReplies(guest: Guest, svc: nat, gas: nat)
    ensures Replies(SliceStep(guest, svc, gas))
  {
    var step := SliceStep(guest, svc, gas);
    forall c, d: Dispatch, items, resume
      ensures var (end, d') := step(c, d, items, resume);
              (d'.reply, d'.forbidden) == Replied(d.reply, d.forbidden, end)
    {
      StepReplies(c, guest, svc, gas, d, items, resume);
    }
  }

  lemma StepReplies(c: Context, guest: Guest, svc: nat, gas: nat, d: Dispatch, items: seq<Bytes>, resume: Option<seq<Obs>>)
    ensures var (end, d') := Step(c, guest, svc, gas, d, items, resume);
            (d'.reply, d'.forbidden) == Replied(d.reply, d.forbidden, end)
  {
  }

  /** The reply of the last slice that absorbed a work-result. */
  function LastReply(slices: seq<Slice>): Option<Bytes> {
    if slices == [] then None
    else
      match Absorbed(slices[|slices| - 1].end)
      case Some(p) => Some(p.reply)
      case None => LastReply(slices[..|slices| - 1])
  }

  predicate SomeForbidden(slices: seq<Slice>) {
    exists i :: 0 <= i < |slices| && Absorbed(slices[i].end).Some? && Absorbed(slices[i].end).value.forbidden
  }

  lemma {:induction false} LastReplyCons(slice: Slice, rest: seq<Slice>)
    ensures LastReply([slice] + rest) ==
            if LastReply(rest).Some? then LastReply(rest)
            else if Absorbed(slice.end).Some? then Some(Absorbed(slice.end).value.reply) else None
  {
    if rest == [] {
      assert [slice] + rest == [slice] && [slice][..0] == [];
    } else {
      var n := |rest| - 1;
      assert ([slice] + rest)[..n + 1] == [slice] + rest[..n] && ([slice] + rest)[n + 1] == rest[n];
      LastReplyCons(slice, rest[..n]);
    }
  }

  lemma ForbiddenCons(slice: Slice, rest: seq<Slice>)
    ensures SomeForbidden([slice] + rest) <==> (Absorbed(slice.end).Some? && Absorbed(slice.end).value.forbidden) || SomeForbidden(rest)
  {
    var all := [slice] + rest;
    assert all[0] == slice && forall i :: 0 <= i < |rest| ==> all[i + 1] == rest[i];
    if i :| 0 <= i < |rest| && Absorbed(rest[i].end).Some? && Absorbed(rest[i].end).value.forbidden {
      assert Absorbed(all[i + 1].end).Some? && Absorbed(all[i + 1].end).value.forbidden;
    }
  }

  /** What the slices of a tick leave of the reply and the mark before them: nothing at all if the last one failed. */
  ghost predicate Leaves(slices: seq<Slice>, d: Dispatch, e: Dispatch) {
    slices != [] &&
    if Accepted(slices[|slices| - 1].end) then
      && e.reply == (if LastReply(slices).Some? then LastReply(slices) else d.reply)
      && (e.forbidden <==> d.forbidden || SomeForbidden(slices))
    else e.reply.None? && !e.forbidden
  }

  lemma LeavesOne(slice: Slice, d: Dispatch, e: Dispatch)
    requires (e.reply, e.forbidden) == Replied(d.reply, d.forbidden, slice.end)
    ensures Leaves([slice], d, e)
  {
    LastReplyCons(slice, []);
    ForbiddenCons(slice, []);
    assert [slice] + [] == [slice];
  }

  lemma LeavesCons(slice: Slice, rest: seq<Slice>, d: Dispatch, d': Dispatch, e: Dispatch)
    requires Accepted(slice.end) && (d'.reply, d'.forbidden) == Replied(d.reply, d.forbidden, slice.end)
    ensures Leaves(rest, d', e) ==> Leaves([slice] + rest, d, e)
  {
    LastReplyCons(slice, rest);
    ForbiddenCons(slice, rest);
  }

  lemma {:induction false} SerialLeaves(step: Stepper, c: Context, k: nat, d: Dispatch, items: seq<Bytes>, resume: Option<seq<Obs>>)
    requires Replies(step) && k > 0
    ensures var (slices, e) := Serial(step, c, k, d, items, resume); Leaves(slices, d, e)
    decreases k
  {
    var (end, d') := step(c, Clear(d), items, resume);
    var slice := Slice(end, TakeMail(d').s.journal);
    assert (d'.reply, d'.forbidden) == Replied(d.reply, d.forbidden, end);
    if end.Idle? && Mail(d') != [] && k > 1 {
      SerialLeaves(step, Under(c, slice.delta), k - 1, Clear(d'), Mail(d'), None);
      var (rest, e) := Serial(step, Under(c, slice.delta), k - 1, Clear(d'), Mail(d'), None);
      LeavesCons(slice, rest, d, Clear(d'), e);
    } else {
      LeavesOne(slice, d, d');
      LeavesOne(slice, d, Serial(step, c, k, d, items, resume).1);
    }
  }

  /**
   The reply of a tick is the reply of its last slice with a work-result, and it is marked
   forbidden exactly if it was before or one of its work-results is; a failed last slice
   leaves neither.
   */
  lemma TickReply(c: Context, guest: Guest, svc: nat, gas: nat, mode: Mode, calls: nat, before: Dispatch, items: seq<Bytes>)
    ensures var (slices, e) := Serial(SliceStep(guest, svc, gas), c, MaxRefineIterations, Begin(mode, calls, before), items, before.stored);
            && slices != []
            && (Accepted(slices[|slices| - 1].end) ==>
                  e.reply == LastReply(slices) && (e.forbidden <==> before.forbidden || SomeForbidden(slices)))
            && (!Accepted(slices[|slices| - 1].end) ==> e.reply.None? && !e.forbidden)
  {
    SliceReplies(guest, svc, gas);
    SerialLeaves(SliceStep(guest, svc, gas), c, MaxRefineIterations, Begin(mode, calls, before), items, before.stored);
  }

  /** A guest that halts at once with a work-result of one slice: its reply is the answer. */
  lemma HaltReplies(c: Context, svc: nat, gas: nat, d: Dispatch, p: Payload)
    requires gas > 0 && d.s.journal == EmptyJournal && !d.s.rejected
    requires WellFormed(p) && p.version == V4 && |Encode(p)| <= MaxOutput
    requires !p.continueNext && (p.anchorKind, p.anchor) == RootAnchor(c.hash, c.storage, svc)
    ensures var guest: Guest := _ => Halt(Encode(p));
            var (end, d') := Step(c, guest, svc, gas, d, [], None);
            && end == Idle(Some(p)) && d'.reply == Some(p.reply) && (d'.forbidden <==> d.forbidden || p.forbidden)
            && d'.s.journal == AbsorbAll(EmptyJournal, p.effects, svc)
  {
    RoundTrip(p);
    HaltAtOnce(c, svc, gas, d.s, Encode(p));
    Verdict(c, svc, Halted(Encode(p), None), d.s, p, []);
    assert Names(c, svc, Halted(Encode(p), None), d.s, p);
    StepReplies(c, _ => Halt(Encode(p)), svc, gas, d, [], None);
  }

  // ---- The mail of a tick ----

  /** A slice that yields queues again what it had not fetched, then what it sent itself. */
  lemma YieldRequeues(c: Context, guest: Guest, svc: nat, gas: nat, d: Dispatch, items: seq<Bytes>, resume: Option<seq<Obs>>)
    ensures var (end, s, left) := RunSlice(c, guest, svc, gas, d.s, items, resume);
            var d' := Step(c, guest, svc, gas, d, items, resume).1;
            end.Yield? ==> d'.requeued == left + s.journal.selfMessages && Mail(d') == [] && d'.stored == Some(end.next)
  {
  }

  lemma {:induction false} AddressedInOrder(svc: nat, msgs: seq<Bytes>)
    ensures |AddressedTo(svc, msgs)| == |msgs|
    ensures forall i :: 0 <= i < |msgs| ==> AddressedTo(svc, msgs)[i] == (svc, msgs[i])
  {
    if msgs != [] { AddressedInOrder(svc, msgs[..|msgs| - 1]); }
  }

  /** Empty items are not delivered; the others are, in order. */
  lemma {:induction false} MailDelivered(items: seq<Bytes>)
    ensures NonEmpty(items) == Filter(items, Elems(items) - {[]})
  {
    if items != [] {
      var n := |items| - 1;
      var init, keep := items[..n], Elems(items) - {[]};
      assert items == init + [items[n]];
      MailDelivered(init);
      FilterAppend(init, [items[n]], keep);
      FilterSame(init, Elems(init) - {[]}, keep);
    }
  }

  // ---- Mail without end ----

  /** A guest that in every slice sends itself `m` and stops. */
  ghost predicate KeepsWriting(guest: Guest, svc: nat, m: Bytes) {
    guest([]) == Send(svc, m) && guest([Acknowledged]) == Halt([])
  }

  lemma WritingRun(c: Context, guest: Guest, svc: nat, gas: nat, m: Bytes, s: State, items: seq<Bytes>)
    requires KeepsWriting(guest, svc, m) && gas >= 2
    ensures Run(c, guest, svc, 0, gas, s, items, [], None) ==
            (Halted([], None), s.(journal := s.journal.(selfMessages := s.journal.selfMessages + [m])), items)
  {
    assert [] + [Acknowledged] == [Acknowledged];
  }

  lemma WritingStep(c: Context, guest: Guest, svc: nat, gas: nat, m: Bytes, d: Dispatch, items: seq<Bytes>)
    requires KeepsWriting(guest, svc, m) && gas >= 2 && !d.s.rejected && Mail(d) == []
    ensures Step(c, guest, svc, gas, d, items, None) ==
            (Idle(None), d.(s := d.s.(journal := d.s.journal.(selfMessages := [m])), stored := None))
  {
    WritingRun(c, guest, svc, gas, m, d.s, NonEmpty(items));
    assert [] + [m] == [m];
  }

  ghost predicate Writes(step: Stepper, m: Bytes) {
    forall c, d: Dispatch, items :: !d.s.rejected && Mail(d) == [] ==>
      step(c, d, items, None) == (Idle(None), d.(s := d.s.(journal := d.s.journal.(selfMessages := [m])), stored := None))
  }

  lemma {:induction false} MailSpills(step: Stepper, c: Context, k: nat, m: Bytes, d: Dispatch, items: seq<Bytes>)
    requires Writes(step, m) && k > 0 && !d.s.rejected && Mail(d) == []
    ensures |Serial(step, c, k, d, items, None).0| == k
    ensures Chain(step, c, k, d, items, None) == d.(stored := None, requeued := [m])
    decreases k
  {
    var d' := d.(s := d.s.(journal := d.s.journal.(selfMessages := [m])), stored := None);
    assert Mail(Clear(d)) == [] && !Clear(d).s.rejected;
    assert step(c, d, items, None) == (Idle(None), d');
    assert TakeMail(d') == d.(stored := None);
    if k > 1 {
      MailSpills(step, c, k - 1, m, TakeMail(d'), [m]);
      var e := step(c, Clear(d), items, None).1;
      MailSpills(step, Under(c, TakeMail(e).s.journal), k - 1, m, Clear(e), [m]);
    }
  }

  /** A service that never stops writing to itself is cut after 64 slices, and its last message waits for the next tick. */
  lemma EndlessMail(c: Context, guest: Guest, svc: nat, gas: nat, m: Bytes, mode: Mode, calls: nat, before: Dispatch, items: seq<Bytes>)
    requires KeepsWriting(guest, svc, m) && gas >= 2 && before.stored.None?
    ensures var step := SliceStep(guest, svc, gas);
            && |Serial(step, c, 64, Begin(mode, calls, before), items, None).0| == 64
            && Tick(step, c, svc, mode, calls, before, items).transfers == [(svc, m)]
            && Tick(step, c, svc, mode, calls, before, items).storage == c.storage
  {
    var step := SliceStep(guest, svc, gas);
    forall c', d: Dispatch, items' | !d.s.rejected && Mail(d) == []
      ensures step(c', d, items', None) == (Idle(None), d.(s := d.s.(journal := d.s.journal.(selfMessages := [m])), stored := None))
    {
      WritingStep(c', guest, svc, gas, m, d, items');
    }
    MailSpills(step, c, 64, m, Begin(mode, calls, before), items);
    AddressedInOrder(svc, [m]);
  }
}
