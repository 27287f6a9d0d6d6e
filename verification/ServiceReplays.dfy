/**
 Which service children replay reproduces.  A log carries an invoke's reply and the effects
 filed under it, so what a child journals otherwise, beginning with the state delivered to
 it, is missing on replay; and what it filed before it failed is there although it was undone.
 */
module ServiceReplays {
  import opened Options
  import opened Ids
  import opened RowKeys
  import opened Payloads
  import opened WorkResults
  import opened Logs
  import opened Journals
  import opened Refine
  import opened RefineShift
  import opened Rejections
  import opened Filings
  import opened Ticks
  import opened Replays
  import opened Dispatches

  // ---- A child given a state ----

  /** No entry of a journal sets a state row. */
  ghost predicate NoStateSet(j: Journal) { forall i :: 0 <= i < |j.writes| ==> j.writes[i].key == StateKey ==> j.writes[i].value.None? }

  lemma {:induction false} AbsorbSetsNoState(j: Journal, es: seq<Effect>, svc: nat)
    requires NoStateSet(j) && forall e :: e in es ==> !IsStateWrite(e)
    ensures NoStateSet(AbsorbAll(j, es, svc))
  {
    if es != [] {
      AbsorbSetsNoState(j, es[..|es| - 1], svc);
      assert es[|es| - 1] in es;
    }
  }

  lemma {:induction false} RecordsSetNoState(j: Journal, recs: seq<InvokeEffects>, idx: nat)
    requires NoStateSet(j) && AllProper(recs, idx)
    ensures Reabsorb(j, recs).Some? && NoStateSet(Reabsorb(j, recs).value)
  {
    if recs != [] {
      var last := recs[|recs| - 1];
      assert Proper(last, idx);
      RecordsSetNoState(j, recs[..|recs| - 1], idx);
      AbsorbSetsNoState(Reabsorb(j, recs[..|recs| - 1]).value, DecodeEffects(last.effects).value, last.svc);
    }
  }

  /** A child that was given a state and whose result is kept is never reproduced. */
  lemma DeliveryNotReplayed(c: Context, svc: nat, a: Action, s: State)
    requires a.Invoke? && s.mode.Recording? && RunsService(c, a.code) && !RunInvoke(c, svc, 1, a, s).1.rejected
    requires ChildInput(a.input).0 != [] && Stands(c, a, s)
    ensures !Balanced(c, svc, a, s)
  {
    var guest, t, state := Resolve(c, a.code).value, TargetOf(a.code), ChildInput(a.input).0;
    ServiceExact(c, svc, a, s);
    ChildFiles(c, guest, a, s);
    var s1 := ChildRun(c, 1, guest, a, s).1;
    var more := ChildGrows(c, guest, a, s);
    var recs, n := FiledBy(s, s1), |s.journal.writes|;
    assert s1.journal.writes[n] == Entry(t, StateKey, Some(state));
    RecordsSetNoState(EmptyJournal, recs, |s.mode.log.replies|);
    ConcatEmpty(s.journal);
    ReabsorbShift(s.journal, EmptyJournal, recs);
    var k := Reabsorb(EmptyJournal, recs).value;
    if k.writes != [] { assert Concat(s.journal, k).writes[n] == k.writes[0]; }
  }

  // ---- A child that fails ----

  function Size(j: Journal): nat {
    |j.writes| + |j.transfers| + |j.preimages| + |j.selfMessages| + |j.newServices|
  }

  lemma {:induction false} AbsorbGrows(j: Journal, es: seq<Effect>, svc: nat)
    ensures Size(AbsorbAll(j, es, svc)) == Size(j) + |es|
  {
    if es != [] { AbsorbGrows(j, es[..|es| - 1], svc); }
  }

  lemma {:induction false} RecordsGrow(j: Journal, recs: seq<InvokeEffects>, idx: nat)
    requires AllProper(recs, idx)
    ensures Reabsorb(j, recs).Some? && Size(Reabsorb(j, recs).value) >= Size(j) + |recs|
  {
    if recs != [] {
      var last := recs[|recs| - 1];
      assert Proper(last, idx);
      RecordsGrow(j, recs[..|recs| - 1], idx);
      AbsorbGrows(Reabsorb(j, recs[..|recs| - 1]).value, DecodeEffects(last.effects).value, last.svc);
    }
  }

  /** A child that fails is reproduced exactly if nothing it invoked had filed effects. */
  lemma FailedChildExact(c: Context, svc: nat, a: Action, s: State)
    requires a.Invoke? && s.mode.Recording? && RunsService(c, a.code) && !RunInvoke(c, svc, 1, a, s).1.rejected
    requires !Stands(c, a, s)
    ensures Balanced(c, svc, a, s) <==> FiledBy(s, ChildRun(c, 1, Resolve(c, a.code).value, a, s).1) == []
  {
    ServiceExact(c, svc, a, s);
    ChildFiles(c, Resolve(c, a.code).value, a, s);
    RecordsGrow(s.journal, FiledBy(s, ChildRun(c, 1, Resolve(c, a.code).value, a, s).1), |s.mode.log.replies|);
  }

  /** The input a Task is packed with when the child invokes it first. */
  function FirstPacked(c: Context, a: Action, b: Action, s: State): Bytes
    requires a.Invoke? && b.Invoke?
  {
    var t, inp := TargetOf(a.code), c.split(b.input);
    c.pack(inp.state, inp.msg, RowsFor(c, Delivered(s.journal, t, ChildInput(a.input).0), t, inp.rowKeys))
  }

  /** A child that first runs a Task, with effects `es`, and then traps. */
  ghost predicate TrapsAfterTask(c: Context, a: Action, b: Action, s: State, es: seq<Effect>)
    requires a.Invoke? && Resolve(c, a.code).Some?
  {
    var guest, packed := Resolve(c, a.code).value, if b.Invoke? then FirstPacked(c, a, b, s) else [];
    && guest([]) == b && (forall out :: guest([Reply(out)]) == Trap) && Gas(a.gasLimit) > 1
    && b.Invoke? && b.code in c.tasks && !c.split(b.input).recordRequested && |packed| <= c.tasks[b.code].capacity
    && TaskResult(c, b, packed, c.tasks[b.code].run(packed, Gas(b.gasLimit), false)).0 == es
  }

  lemma TrapRun(c: Context, a: Action, b: Action, s: State, es: seq<Effect>)
    requires a.Invoke? && s.mode.Recording? && Resolve(c, a.code).Some? && TrapsAfterTask(c, a, b, s, es)
    ensures var (exit, s1) := ChildRun(c, 1, Resolve(c, a.code).value, a, s);
            exit == Panicked && s1.mode == RecordEffects(s.mode, TargetOf(a.code), es)
  {
    var guest, t := Resolve(c, a.code).value, TargetOf(a.code);
    var s0 := s.(journal := Delivered(s.journal, t, ChildInput(a.input).0));
    var (out, s1) := RunInvoke(c, t, 2, b, s0);
    assert s1.mode == RecordEffects(s.mode, t, es);
    var items := ChildInput(a.input).1;
    assert [] + [Reply(out)] == [Reply(out)] && guest([Reply(out)]) == Trap;
    assert Run(c, guest, t, 1, Gas(a.gasLimit) - 1, s1, items, [Reply(out)], None) == (Panicked, s1, items);
    assert Run(c, guest, t, 1, Gas(a.gasLimit), s0, items, [], None) == (Panicked, s1, items);
  }

  /** For instance: a child that runs a Task with effects and then traps leaves them to the replay alone. */
  lemma TrapAfterTask(c: Context, svc: nat, a: Action, b: Action, s: State, es: seq<Effect>)
    requires a.Invoke? && s.mode.Recording? && RunsService(c, a.code) && !RunInvoke(c, svc, 1, a, s).1.rejected
    requires TrapsAfterTask(c, a, b, s, es) && es != []
    ensures var s' := RunInvoke(c, svc, 1, a, s).1;
            && s'.journal == s.journal
            && Reabsorb(s.journal, FiledBy(s, s')) == Some(AbsorbAll(s.journal, es, TargetOf(a.code))) && !Balanced(c, svc, a, s)
  {
    var guest, t, idx := Resolve(c, a.code).value, TargetOf(a.code), |s.mode.log.replies|;
    var s1 := ChildRun(c, 1, guest, a, s).1;
    var packed := FirstPacked(c, a, b, s);
    TrapRun(c, a, b, s, es);
    TaskEffectsFit(c, b, packed, c.tasks[b.code].run(packed, Gas(b.gasLimit), false));
    EffectsFiled(s, s1, t, es);
    FiledIs(s, s1, FiledRecords(idx, t, es));
    FailedChildExact(c, svc, a, s);
    ChildParts(c, 1, guest, a, s);
    var more := ChildGrows(c, guest, a, s);
    DeliveredRollsBack(s.journal, t, ChildInput(a.input).0, more);
    FiledIs(s, RunInvoke(c, svc, 1, a, s).1, FiledRecords(idx, t, es));
    ReabsorbFiled(s.journal, idx, t, es);
  }

  // ---- A child that writes ----

  /** A child that is kept and filed nothing is reproduced exactly if it was given no state and journaled nothing. */
  lemma KeptChildExact(c: Context, svc: nat, a: Action, s: State)
    requires a.Invoke? && s.mode.Recording? && RunsService(c, a.code) && !RunInvoke(c, svc, 1, a, s).1.rejected
    requires Stands(c, a, s) && FiledBy(s, ChildRun(c, 1, Resolve(c, a.code).value, a, s).1) == []
    ensures Balanced(c, svc, a, s) <==> ChildRun(c, 1, Resolve(c, a.code).value, a, s).1.journal == s.journal
    ensures Balanced(c, svc, a, s) ==> ChildInput(a.input).0 == []
  {
    ServiceExact(c, svc, a, s);
    if ChildInput(a.input).0 != [] { DeliveryNotReplayed(c, svc, a, s); }
  }

  /** For instance: the row a child stores before it halts is missing on replay. */
  lemma StoreNotReplayed(c: Context, svc: nat, a: Action, s: State, key: Bytes, value: Bytes)
    requires a.Invoke? && s.mode.Recording? && RunsService(c, a.code) && !RunInvoke(c, svc, 1, a, s).1.rejected
    requires Gas(a.gasLimit) > 1 && ChildInput(a.input).0 == []
    requires var guest := Resolve(c, a.code).value; guest([]) == Store(key, value) && guest([Acknowledged]) == Halt([StatusDone])
    ensures var s' := RunInvoke(c, svc, 1, a, s).1;
            && s'.journal.writes == s.journal.writes + [Entry(TargetOf(a.code), key, Some(value))]
            && Reabsorb(s.journal, FiledBy(s, s')) == Some(s.journal) && !Balanced(c, svc, a, s)
  {
    var guest, t := Resolve(c, a.code).value, TargetOf(a.code);
    var s1 := s.(journal := Absorb(s.journal, Write(key, value), t));
    assert [] + [Acknowledged] == [Acknowledged];
    assert ChildRun(c, 1, guest, a, s) == (Halted([StatusDone], None), s1);
    assert Decode([StatusDone]).None?;
    assert Stands(c, a, s);
    ChildParts(c, 1, guest, a, s);
    FiledIs(s, s1, []);
    FiledIs(s, RunInvoke(c, svc, 1, a, s).1, []);
    KeptChildExact(c, svc, a, s);
  }

  // ---- Children that only look ----

  /** A child that only fetches its mail, reads, suspends, halts or traps. */
  ghost predicate OnlyLooks(guest: Guest) {
    forall h :: guest(h).Fetch? || guest(h).Read? || guest(h).Suspend? || guest(h).Halt? || guest(h).Trap?
  }

  lemma {:induction false} LookingChangesNothing(c: Context, guest: Guest, svc: nat, depth: nat, gas: nat, s: State, items: seq<Bytes>, hist: seq<Obs>)
    requires OnlyLooks(guest) && 0 < depth < MaxInvokeDepth
    ensures Run(c, guest, svc, depth, gas, s, items, hist, None).1 == s
    decreases gas
  {
    if gas > 0 {
      var a := guest(hist);
      if a.Suspend? {
        LookingChangesNothing(c, guest, svc, depth, gas - 1, s, items, hist + [Acknowledged]);
      } else if !a.Halt? && !a.Trap? {
        assert a.Fetch? || a.Read?;
        var (obs, s', items') := HostCall(c, svc, a, s, items);
        LookingChangesNothing(c, guest, svc, depth, gas - 1, s, items', hist + [obs]);
      }
    }
  }

  /** Such a child is reproduced exactly if it was given no state or its result is not kept. */
  lemma LookingChildExact(c: Context, svc: nat, a: Action, s: State)
    requires a.Invoke? && s.mode.Recording? && RunsService(c, a.code) && OnlyLooks(Resolve(c, a.code).value)
    requires !RunInvoke(c, svc, 1, a, s).1.rejected
    ensures Balanced(c, svc, a, s) <==> Accounted(c, a, s)
    ensures Balanced(c, svc, a, s) <==> ChildInput(a.input).0 == [] || !Stands(c, a, s)
  {
    var guest, t := Resolve(c, a.code).value, TargetOf(a.code);
    var (state, items) := ChildInput(a.input);
    var s0 := s.(journal := Delivered(s.journal, t, state));
    LookingChangesNothing(c, guest, t, 1, Gas(a.gasLimit), s0, items, []);
    FiledIs(s, s0, []);
    ServiceExact(c, svc, a, s);
    if Stands(c, a, s) { KeptChildExact(c, svc, a, s); } else { FailedChildExact(c, svc, a, s); }
  }

  // ---- Guests whose runs are accounted for ----

  /** The services the guest invokes only look, and it gives them no state. */
  ghost predicate Plain(c: Context, guest: Guest) {
    forall h :: guest(h).Invoke? && RunsService(c, guest(h).code) ==>
      OnlyLooks(Resolve(c, guest(h).code).value) && ChildInput(guest(h).input).0 == []
  }

  lemma {:induction false} PlainAccounted(c: Context, guest: Guest, svc: nat, gas: nat, s: State, items: seq<Bytes>, hist: seq<Obs>, saved: Option<seq<Obs>>)
    requires Plain(c, guest) && s.mode.Recording? && !Run(c, guest, svc, 0, gas, s, items, hist, saved).1.rejected
    ensures RunAccounted(c, guest, svc, gas, s, items, hist, saved)
    decreases gas
  {
    if gas > 0 {
      var a := guest(hist);
      if a.Suspend? {
        if saved.None? { PlainAccounted(c, guest, svc, gas - 1, s, items, hist + [Woken(false)], Some(hist)); }
      } else if a.Invoke? {
        var (out, s') := RunInvoke(c, svc, 1, a, s);
        RunRejects(c, guest, svc, 0, gas - 1, s', items, hist + [Reply(out)], saved);
        InvokeFiles(c, svc, a, s);
        if RunsService(c, a.code) { LookingChildExact(c, svc, a, s); }
        PlainAccounted(c, guest, svc, gas - 1, s', items, hist + [Reply(out)], saved);
      } else if !a.Halt? && !a.Trap? {
        var (obs, s', items') := HostCall(c, svc, a, s, items);
        PlainAccounted(c, guest, svc, gas - 1, s', items', hist + [obs], saved);
      }
    }
  }

  /** A check that every step passes unless it ends rejected. */
  ghost predicate Passes(step: Stepper, ok: Check, c: Context) {
    forall t: Dispatch, items, resume :: Filed(t.s) && !step(c, t, items, resume).1.s.rejected ==> ok(c, t, items, resume)
  }

  lemma PlainPasses(c: Context, guest: Guest, svc: nat, gas: nat)
    requires Plain(c, guest)
    ensures Passes(SliceStep(guest, svc, gas), SliceCheck(guest, svc, gas), c)
  {
    var step, ok := SliceStep(guest, svc, gas), SliceCheck(guest, svc, gas);
    forall t: Dispatch, items, resume | Filed(t.s) && !step(c, t, items, resume).1.s.rejected ensures ok(c, t, items, resume) {
      var hist := if resume.Some? then resume.value + [Woken(true)] else [];
      PlainAccounted(c, guest, svc, gas, t.s, NonEmpty(items), hist, None);
    }
  }

  /** A rejected step is one that met a private record. */
  ghost predicate Rejects(step: Stepper) {
    forall c, t: Dispatch, items, resume :: step(c, t, items, resume).0.PrivateRecord? <==> step(c, t, items, resume).1.s.rejected
  }

  lemma {:induction false} ChainPasses(step: Stepper, ok: Check, c: Context, d: Context, k: nat, t: Dispatch, items: seq<Bytes>, resume: Option<seq<Obs>>, n: nat)
    requires Repeats(step, ok, c, d, n) && Passes(step, ok, c) && Rejects(step)
    requires k > 0 && Filed(t.s) && !Chain(step, c, k, t, items, resume).s.rejected
    ensures ChainChecked(step, ok, c, k, t, items, resume)
    decreases k
  {
    var (end, t1) := step(c, t, items, resume);
    if end.Idle? && Mail(t1) != [] && k > 1 {
      ChainPasses(step, ok, c, d, k - 1, TakeMail(t1), Mail(t1), None, n);
    }
  }

  /** The check is passed whatever the rows are. */
  ghost predicate PassesAlways(step: Stepper, ok: Check, c: Context) {
    forall st: Storage :: Passes(step, ok, c.(storage := st))
  }

  lemma PassesMoved(step: Stepper, ok: Check, c: Context, st: Storage)
    requires PassesAlways(step, ok, c)
    ensures Passes(step, ok, c) && PassesAlways(step, ok, c.(storage := st))
  {
    assert c.(storage := c.storage) == c;
    forall st': Storage ensures Passes(step, ok, c.(storage := st).(storage := st')) {
      assert c.(storage := st).(storage := st') == c.(storage := st');
    }
  }

  lemma TickPasses(step: Stepper, ok: Check, c: Context, svc: nat, t: Dispatch, items: seq<Bytes>, n: nat)
    requires Repeats(step, ok, c, c, n) && Passes(step, ok, c) && Rejects(step) && Filed(t.s)
    requires !TickOf(step, c, svc, t, items).dispatch.s.rejected
    ensures TickChecked(step, ok, c, t, items) && Filed(TickOf(step, c, svc, t, items).dispatch.s)
  {
    ChainPasses(step, ok, c, c, MaxRefineIterations, Begin(t.s.mode, t.s.calls, t), items, t.stored, n);
    TickReplay(step, ok, c, c, svc, t, items, t.s.mode.log, n);
  }

  /** A dispatch that ends well has no rejected tick. */
  lemma FirstTickStands(step: Stepper, c: Context, svc: nat, k: nat, t: Dispatch, items: seq<Bytes>)
    requires Shifts(step) && Discards(step) && items != [] && k > 0 && !Drive(step, c, svc, k, t, items).1.s.rejected
    ensures !TickOf(step, c, svc, t, items).dispatch.s.rejected
  {
    if TickOf(step, c, svc, t, items).dispatch.s.rejected { RejectedIsLast(step, c, svc, t, items); }
  }

  /** All that is asked of a step here. */
  ghost predicate Passing(step: Stepper, ok: Check, c: Context, n: nat) {
    RepeatsAlways(step, ok, n) && PassesAlways(step, ok, c) && Rejects(step) && Shifts(step) && Discards(step)
  }

  lemma TickPassing(step: Stepper, ok: Check, c: Context, svc: nat, k: nat, t: Dispatch, items: seq<Bytes>, n: nat)
    requires Passing(step, ok, c, n) && items != [] && k > 0 && Filed(t.s) && !Drive(step, c, svc, k, t, items).1.s.rejected
    ensures var r := TickOf(step, c, svc, t, items);
            TickChecked(step, ok, c, t, items) && Filed(r.dispatch.s) && Passing(step, ok, c.(storage := r.storage), n)
  {
    var r := TickOf(step, c, svc, t, items);
    FirstTickStands(step, c, svc, k, t, items);
    PassesMoved(step, ok, c, r.storage);
    assert SameHost(c, c);
    TickPasses(step, ok, c, svc, t, items, n);
  }

  lemma {:induction false} DrivePasses(step: Stepper, ok: Check, c: Context, svc: nat, k: nat, t: Dispatch, items: seq<Bytes>, n: nat)
    requires Passing(step, ok, c, n) && Filed(t.s) && !Drive(step, c, svc, k, t, items).1.s.rejected
    ensures DriveChecked(step, ok, c, svc, k, t, items)
    decreases k
  {
    if items != [] && k > 0 {
      var r := TickOf(step, c, svc, t, items);
      TickPassing(step, ok, c, svc, k, t, items, n);
      DrivePasses(step, ok, c.(storage := r.storage), svc, k - 1, r.dispatch, Incoming(svc, r.transfers), n);
    }
  }

  /** So every recorded dispatch of a plain guest that is not rejected can be replayed. */
  lemma PlainDispatch(c: Context, guest: Guest, svc: nat, gas: nat, k: nat, msg: Bytes, cap: nat, calls: nat, before: Dispatch, items: seq<Bytes>)
    requires Plain(c, guest) && !Recorded(SliceStep(guest, svc, gas), c, svc, k, msg, cap, calls, before, items).1.s.rejected
    ensures DispatchAccounted(c, guest, svc, gas, k, msg, cap, calls, before, items)
  {
    var step, ok := SliceStep(guest, svc, gas), SliceCheck(guest, svc, gas);
    SliceRepeatsAlways(guest, svc, gas, 0);
    SliceSteps(guest, svc, gas);
    forall st: Storage ensures Passes(step, ok, c.(storage := st)) { PlainPasses(c.(storage := st), guest, svc, gas); }
    forall e, t: Dispatch, its, r ensures step(e, t, its, r).0.PrivateRecord? <==> step(e, t, its, r).1.s.rejected {
      StepRejected(e, guest, svc, gas, t, its, r);
    }
    DrivePasses(step, ok, c, svc, k, Opened(before, Recording(ForMsg(msg), cap), calls), items, 0);
  }
}
