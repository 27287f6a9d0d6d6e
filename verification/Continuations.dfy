/**
 What becomes of a suspended guest over a dispatch: which of its slices decides whether a
 continuation is kept, consumed or replaced, and exactly when a dispatch leaves it alone.
 */
module Continuations {
  import opened Options
  import opened Ids
  import opened Payloads
  import opened WorkResults
  import opened Journals
  import opened Refine
  import opened Ticks
  import opened Dispatches

  // ---- The slices of a dispatch ----

  /** How the slices of a tick end, in order. */
  function ChainEnds(step: Stepper, c: Context, k: nat, d: Dispatch, items: seq<Bytes>, resume: Option<seq<Obs>>): seq<End>
    requires k > 0
    decreases k
  {
    var (end, d') := step(c, d, items, resume);
    if !end.Idle? || Mail(d') == [] || k == 1 then [end]
    else [end] + ChainEnds(step, c, k - 1, TakeMail(d'), Mail(d'), None)
  }

  function TickEnds(step: Stepper, c: Context, t: Dispatch, items: seq<Bytes>): seq<End> {
    ChainEnds(step, c, MaxRefineIterations, Begin(t.s.mode, t.s.calls, t), items, t.stored)
  }

  /** And those of a dispatch of at most `k` ticks. */
  function DispatchEnds(step: Stepper, c: Context, svc: nat, k: nat, t: Dispatch, items: seq<Bytes>): seq<End>
    decreases k
  {
    if items == [] || k == 0 then []
    else
      var r := TickOf(step, c, svc, t, items);
      TickEnds(step, c, t, items) + DispatchEnds(step, c.(storage := r.storage), svc, k - 1, r.dispatch, Incoming(svc, r.transfers))
  }

  // ---- What each of them does to the continuation ----

  /** A slice that trapped or was refused a private record does not touch it. */
  predicate Settles(end: End) { !end.Trapped? && !end.PrivateRecord? }

  function StoredBy(stored: Option<seq<Obs>>, end: End): Option<seq<Obs>> {
    if !Settles(end) then stored else if end.Yield? then Some(end.next) else None
  }

  /** The last slice that did touch it. */
  function LastSettled(ends: seq<End>): Option<End> {
    if ends == [] then None
    else if Settles(ends[|ends| - 1]) then Some(ends[|ends| - 1]) else LastSettled(ends[..|ends| - 1])
  }

  function StoredAfter(stored: Option<seq<Obs>>, ends: seq<End>): Option<seq<Obs>> {
    match LastSettled(ends)
    case None => stored
    case Some(end) => StoredBy(stored, end)
  }

  lemma {:induction false} StoredAfterBoth(stored: Option<seq<Obs>>, a: seq<End>, b: seq<End>)
    ensures StoredAfter(stored, a + b) == StoredAfter(StoredAfter(stored, a), b)
    ensures LastSettled(a + b) == if LastSettled(b).Some? then LastSettled(b) else LastSettled(a)
    decreases |b|
  {
    if b == [] {
      assert a + b == a;
    } else {
      assert (a + b)[..|a + b| - 1] == a + b[..|b| - 1];
      StoredAfterBoth(stored, a, b[..|b| - 1]);
    }
  }

  lemma StoredAfterOne(stored: Option<seq<Obs>>, end: End)
    ensures StoredAfter(stored, [end]) == StoredBy(stored, end)
  {
    assert [end][..0] == [];
    assert LastSettled([]).None?;
  }

  ghost predicate Stores(step: Stepper) {
    forall c, d: Dispatch, items, resume :: step(c, d, items, resume).1.stored == StoredBy(d.stored, step(c, d, items, resume).0)
  }

  lemma SliceStores(guest: Guest, svc: nat, gas: nat)
    ensures Stores(SliceStep(guest, svc, gas))
  {
    var step := SliceStep(guest, svc, gas);
    forall c, d: Dispatch, items, resume
      ensures step(c, d, items, resume).1.stored == StoredBy(d.stored, step(c, d, items, resume).0)
    {
      var (end, s, left) := RunSlice(c, guest, svc, gas, d.s, items, resume);
    }
  }

  lemma {:induction false} ChainStores(step: Stepper, c: Context, k: nat, d: Dispatch, items: seq<Bytes>, resume: Option<seq<Obs>>)
    requires Stores(step) && k > 0
    ensures ChainEnds(step, c, k, d, items, resume) != []
    ensures ChainEnds(step, c, k, d, items, resume)[0] == step(c, d, items, resume).0
    ensures Chain(step, c, k, d, items, resume).stored == StoredAfter(d.stored, ChainEnds(step, c, k, d, items, resume))
    decreases k
  {
    var (end, d') := step(c, d, items, resume);
    StoredAfterOne(d.stored, end);
    if end.Idle? && Mail(d') != [] && k > 1 {
      var rest := ChainEnds(step, c, k - 1, TakeMail(d'), Mail(d'), None);
      ChainStores(step, c, k - 1, TakeMail(d'), Mail(d'), None);
      StoredAfterBoth(d.stored, [end], rest);
      assert ChainEnds(step, c, k, d, items, resume) == [end] + rest;
    }
  }

  /** The continuation after a dispatch is what its last settled slice left, or the one before. */
  lemma {:induction false} DriveStores(step: Stepper, c: Context, svc: nat, k: nat, t: Dispatch, items: seq<Bytes>)
    requires Stores(step)
    ensures Drive(step, c, svc, k, t, items).1.stored == StoredAfter(t.stored, DispatchEnds(step, c, svc, k, t, items))
    decreases k
  {
    if items != [] && k > 0 {
      var r := TickOf(step, c, svc, t, items);
      ChainStores(step, c, MaxRefineIterations, Begin(t.s.mode, t.s.calls, t), items, t.stored);
      DriveStores(step, c.(storage := r.storage), svc, k - 1, r.dispatch, Incoming(svc, r.transfers));
      StoredAfterBoth(t.stored, TickEnds(step, c, t, items),
                      DispatchEnds(step, c.(storage := r.storage), svc, k - 1, r.dispatch, Incoming(svc, r.transfers)));
    }
  }

  /** A dispatch whose first slice does not settle is over with it. */
  lemma UnsettledIsAlone(step: Stepper, c: Context, svc: nat, k: nat, t: Dispatch, items: seq<Bytes>)
    requires Stores(step) && Discards(step) && items != [] && k > 0
    ensures var ends := DispatchEnds(step, c, svc, k, t, items);
            ends != [] && (!Settles(ends[0]) ==> ends == [ends[0]])
  {
    var d := Begin(t.s.mode, t.s.calls, t);
    ChainStores(step, c, MaxRefineIterations, d, items, t.stored);
    var (end, d') := step(c, d, items, t.stored);
    if !Settles(end) {
      assert !Accepted(end) && d'.s.journal == EmptyJournal && d'.requeued == [];
      assert Incoming(svc, TickOf(step, c, svc, t, items).transfers) == [];
    }
  }

  lemma {:induction false} FirstSettles(ends: seq<End>)
    requires ends != [] && Settles(ends[0])
    ensures LastSettled(ends).Some?
  {
    if |ends| > 1 { FirstSettles(ends[..|ends| - 1]); }
  }

  /**
   Slices that leave a continuation as it was: the first one trapped or was refused a private
   record; or there was none, and the last settled one did not yield; or there was one, and
   the last settled one yielded at that very point again.
   */
  predicate Spares(stored: Option<seq<Obs>>, ends: seq<End>)
    requires ends != []
  {
    if !Settles(ends[0]) then true
    else
      match LastSettled(ends)
      case None => false
      case Some(end) => if end.Yield? then stored == Some(end.next) else stored.None?
  }

  lemma SparesExact(stored: Option<seq<Obs>>, ends: seq<End>)
    requires ends != [] && (!Settles(ends[0]) ==> ends == [ends[0]])
    ensures LastSettled(ends).None? <==> !Settles(ends[0])
    ensures StoredAfter(stored, ends) == stored <==> Spares(stored, ends)
  {
    if Settles(ends[0]) { FirstSettles(ends); } else { StoredAfterOne(stored, ends[0]); assert ends[..|ends| - 1] == []; }
  }

  lemma DriveSpares(step: Stepper, c: Context, svc: nat, k: nat, t: Dispatch, items: seq<Bytes>)
    requires Stores(step) && Discards(step) && items != [] && k > 0
    ensures var ends := DispatchEnds(step, c, svc, k, t, items);
            ends != [] && (Drive(step, c, svc, k, t, items).1.stored == t.stored <==> Spares(t.stored, ends))
  {
    DriveStores(step, c, svc, k, t, items);
    UnsettledIsAlone(step, c, svc, k, t, items);
    SparesExact(t.stored, DispatchEnds(step, c, svc, k, t, items));
  }

  /** Exactly when a dispatch leaves the continuation as it was. */
  lemma ContinuationKept(c: Context, guest: Guest, svc: nat, gas: nat, k: nat, t: Dispatch, items: seq<Bytes>)
    requires items != [] && k > 0
    ensures var step := SliceStep(guest, svc, gas);
            var ends := DispatchEnds(step, c, svc, k, t, items);
            ends != [] && (Drive(step, c, svc, k, t, items).1.stored == t.stored <==> Spares(t.stored, ends))
  {
    SliceStores(guest, svc, gas);
    SliceSteps(guest, svc, gas);
    DriveSpares(SliceStep(guest, svc, gas), c, svc, k, t, items);
  }

  // ---- A slice that resumes ----

  lemma {:induction false} SavedLater(c: Context, guest: Guest, svc: nat, gas: nat, s: State, items: seq<Bytes>, hist: seq<Obs>, saved: Option<seq<Obs>>, n: nat)
    requires |hist| >= n && (saved.Some? ==> |saved.value| >= n)
    ensures var e := Run(c, guest, svc, 0, gas, s, items, hist, saved).0;
            e.Halted? && e.continuation.Some? ==> |e.continuation.value| >= n
    decreases gas
  {
    if gas > 0 {
      var a := guest(hist);
      if a.Suspend? {
        if saved.None? { SavedLater(c, guest, svc, gas - 1, s, items, hist + [Woken(false)], Some(hist), n); }
      } else if a.Invoke? {
        var (out, s') := RunInvoke(c, svc, 1, a, s);
        SavedLater(c, guest, svc, gas - 1, s', items, hist + [Reply(out)], saved, n);
      } else if !a.Halt? && !a.Trap? {
        var (obs, s', items') := HostCall(c, svc, a, s, items);
        SavedLater(c, guest, svc, gas - 1, s', items', hist + [obs], saved, n);
      }
    }
  }

  /** A resumed slice never yields at the point it resumed from. */
  lemma YieldsLater(c: Context, guest: Guest, svc: nat, gas: nat, d: Dispatch, items: seq<Bytes>, h: seq<Obs>)
    ensures var end := Step(c, guest, svc, gas, d, items, Some(h)).0; end.Yield? ==> |end.next| > |h|
  {
    SavedLater(c, guest, svc, gas, d.s, NonEmpty(items), h + [Woken(true)], None, |h| + 1);
  }

  /** A dispatch of one slice leaves the continuation alone exactly if that slice did not settle, or there was none and it did not yield. */
  lemma OneSliceKeeps(c: Context, guest: Guest, svc: nat, gas: nat, k: nat, t: Dispatch, items: seq<Bytes>)
    requires items != [] && k > 0 && |DispatchEnds(SliceStep(guest, svc, gas), c, svc, k, t, items)| == 1
    ensures var step := SliceStep(guest, svc, gas);
            var end := DispatchEnds(step, c, svc, k, t, items)[0];
            Drive(step, c, svc, k, t, items).1.stored == t.stored <==> !Settles(end) || (t.stored.None? && !end.Yield?)
  {
    var step, d := SliceStep(guest, svc, gas), Begin(t.s.mode, t.s.calls, t);
    var ends := DispatchEnds(step, c, svc, k, t, items);
    ContinuationKept(c, guest, svc, gas, k, t, items);
    SliceStores(guest, svc, gas);
    ChainStores(step, c, MaxRefineIterations, d, items, t.stored);
    assert ends[0] == step(c, d, items, t.stored).0;
    if t.stored.Some? { YieldsLater(c, guest, svc, gas, d, items, t.stored.value); }
    StoredAfterOne(t.stored, ends[0]);
    assert ends == [ends[0]];
  }

  // ---- A trap in a later tick ----

  /** A guest that writes to itself, waits, and traps when it is woken. */
  ghost predicate TrapsWhenWoken(guest: Guest, svc: nat, m: Bytes) {
    && guest([]) == Send(svc, m) && guest([Acknowledged]) == Suspend
    && guest([Acknowledged, Woken(false)]) == Halt([StatusYielded]) && guest([Acknowledged, Woken(true)]) == Trap
  }

  lemma WaitingSlice(c: Context, guest: Guest, svc: nat, gas: nat, m: Bytes, t: Dispatch)
    requires TrapsWhenWoken(guest, svc, m) && gas > 2 && t.s.journal == EmptyJournal && !t.s.rejected
    ensures Step(c, guest, svc, gas, t, [[]], None) == (Yield(None, [Acknowledged]), t.(stored := Some([Acknowledged]), requeued := [m]))
  {
    var out, s := [StatusYielded], t.s.(journal := EmptyJournal.(selfMessages := [m]));
    var wake: seq<Bytes> := [[]];
    assert wake[..0] == [] && NonEmpty(wake) == [];
    assert [] + [Acknowledged] == [Acknowledged] && [Acknowledged] + [Woken(false)] == [Acknowledged, Woken(false)];
    assert Absorb(EmptyJournal, Transfer(svc, m), svc) == s.journal by { assert [] + [m] == [m]; }
    assert HostCall(c, svc, Send(svc, m), t.s, []) == (Acknowledged, s, []);
    assert Run(c, guest, svc, 0, gas - 2, s, [], [Acknowledged, Woken(false)], Some([Acknowledged])) == (Halted(out, Some([Acknowledged])), s, []);
    assert Run(c, guest, svc, 0, gas - 1, s, [], [Acknowledged], None) == (Halted(out, Some([Acknowledged])), s, []);
    assert Run(c, guest, svc, 0, gas, t.s, [], [], None) == (Halted(out, Some([Acknowledged])), s, []);
    assert Decode(out).None?;
    assert [] + [m] == [m];
  }

  lemma TrappedSlice(c: Context, guest: Guest, svc: nat, gas: nat, m: Bytes, t: Dispatch)
    requires TrapsWhenWoken(guest, svc, m) && gas > 2 && t.s.journal == EmptyJournal && !t.s.rejected && t.reply.None? && !t.forbidden
    ensures Step(c, guest, svc, gas, t, [m], Some([Acknowledged])) == (Trapped, t)
  {
    assert [Acknowledged] + [Woken(true)] == [Acknowledged, Woken(true)];
    assert Run(c, guest, svc, 0, gas, t.s, NonEmpty([m]), [Acknowledged, Woken(true)], None) == (Panicked, t.s, NonEmpty([m]));
  }

  /** One tick of one slice. */
  lemma OneSliceTick(step: Stepper, c: Context, svc: nat, t: Dispatch, items: seq<Bytes>, end: End, t': Dispatch)
    requires t.s.journal == EmptyJournal && !t.s.rejected && t.reply.None? && t.requeued == []
    requires step(c, t, items, t.stored) == (end, t') && t'.s.journal == EmptyJournal
    ensures TickOf(step, c, svc, t, items) == Result(c.storage, AddressedTo(svc, t'.requeued), [], [], t')
    ensures TickEnds(step, c, t, items) == [end]
  {
    assert Begin(t.s.mode, t.s.calls, t) == t;
    assert Chain(step, c, MaxRefineIterations, t, items, t.stored) == t';
    assert AddressedTo(svc, t'.requeued) + [] == AddressedTo(svc, t'.requeued);
  }

  lemma TickThen(step: Stepper, c: Context, svc: nat, k: nat, t: Dispatch, items: seq<Bytes>, end: End, t': Dispatch, mail: seq<Bytes>)
    requires items != [] && k > 0 && TickEnds(step, c, t, items) == [end]
    requires var r := TickOf(step, c, svc, t, items); r.storage == c.storage && r.dispatch == t' && Incoming(svc, r.transfers) == mail
    ensures Drive(step, c, svc, k, t, items) == Drive(step, c, svc, k - 1, t', mail)
    ensures DispatchEnds(step, c, svc, k, t, items) == [end] + DispatchEnds(step, c, svc, k - 1, t', mail)
  {
    assert c.(storage := c.storage) == c;
  }

  lemma MailOne(svc: nat, m: Bytes)
    ensures Incoming(svc, AddressedTo(svc, [m])) == [m] && Incoming(svc, AddressedTo(svc, [])) == []
  {
    assert [m][..0] == [] && AddressedTo(svc, []) == [] && AddressedTo(svc, [m]) == [(svc, m)];
    assert [(svc, m)][..0] == [] && Incoming(svc, []) == [];
  }

  lemma FirstTick(c: Context, guest: Guest, svc: nat, gas: nat, k: nat, m: Bytes, t: Dispatch)
    requires TrapsWhenWoken(guest, svc, m) && gas > 2 && k > 0
    requires t.s.journal == EmptyJournal && !t.s.rejected && t.reply.None? && t.requeued == [] && t.stored.None?
    ensures var step, t' := SliceStep(guest, svc, gas), t.(stored := Some([Acknowledged]), requeued := [m]);
            && Drive(step, c, svc, k, t, [[]]) == Drive(step, c, svc, k - 1, t', [m])
            && DispatchEnds(step, c, svc, k, t, [[]]) == [Yield(None, [Acknowledged])] + DispatchEnds(step, c, svc, k - 1, t', [m])
  {
    var step, t' := SliceStep(guest, svc, gas), t.(stored := Some([Acknowledged]), requeued := [m]);
    WaitingSlice(c, guest, svc, gas, m, t);
    OneSliceTick(step, c, svc, t, [[]], Yield(None, [Acknowledged]), t');
    MailOne(svc, m);
    TickThen(step, c, svc, k, t, [[]], Yield(None, [Acknowledged]), t', [m]);
  }

  lemma SecondTick(c: Context, guest: Guest, svc: nat, gas: nat, k: nat, m: Bytes, t: Dispatch)
    requires TrapsWhenWoken(guest, svc, m) && gas > 2 && k > 0
    requires t.s.journal == EmptyJournal && !t.s.rejected && t.reply.None? && !t.forbidden && t.stored == Some([Acknowledged])
    ensures var step := SliceStep(guest, svc, gas);
            && DispatchEnds(step, c, svc, k, t, [m]) == [Trapped]
            && Drive(step, c, svc, k, t, [m]) == (c.storage, t.(requeued := []), [])
  {
    var step, u := SliceStep(guest, svc, gas), t.(requeued := []);
    assert Begin(t.s.mode, t.s.calls, t) == Begin(u.s.mode, u.s.calls, u);
    TrappedSlice(c, guest, svc, gas, m, u);
    OneSliceTick(step, c, svc, u, [m], Trapped, u);
    assert TickOf(step, c, svc, t, [m]) == TickOf(step, c, svc, u, [m]) && TickEnds(step, c, t, [m]) == TickEnds(step, c, u, [m]);
    MailOne(svc, m);
    TickThen(step, c, svc, k, t, [m], Trapped, u, []);
  }

  /**
   So it is the last settled slice that counts, not the last one: a dispatch that began
   without a continuation and whose last slice trapped can still leave the guest waiting.
   */
  lemma TrapLeavesWaiting(c: Context, guest: Guest, svc: nat, gas: nat, k: nat, m: Bytes, t: Dispatch)
    requires TrapsWhenWoken(guest, svc, m) && gas > 2 && k > 1
    requires t.s.journal == EmptyJournal && !t.s.rejected && t.reply.None? && !t.forbidden && t.requeued == [] && t.stored.None?
    ensures var step := SliceStep(guest, svc, gas);
            && DispatchEnds(step, c, svc, k, t, [[]]) == [Yield(None, [Acknowledged]), Trapped]
            && Drive(step, c, svc, k, t, [[]]).1.stored == Some([Acknowledged]) && Drive(step, c, svc, k, t, [[]]).2 == []
  {
    FirstTick(c, guest, svc, gas, k, m, t);
    SecondTick(c, guest, svc, gas, k - 1, m, t.(stored := Some([Acknowledged]), requeued := [m]));
  }
}
