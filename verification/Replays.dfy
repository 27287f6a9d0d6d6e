/**
 Recording and replaying: a dispatch replayed from its stored log goes exactly as it
 went live, without running any child again.
 */
module Replays {
  import opened Options
  import opened Ids
  import opened RowKeys
  import opened Payloads
  import opened Logs
  import opened Journals
  import opened Refine
  import opened RefineShift
  import opened Rejections
  import opened Filings
  import opened Ticks

  // ---- Logs that continue one another ----

  /** `full` goes on where `log` ends: every later effects record belongs to a later reply. */
  ghost predicate Continues(log: EffectLog, full: EffectLog) {
    && full.msg == log.msg && log.replies <= full.replies && log.invokeEffects <= full.invokeEffects
    && (forall i :: 0 <= i < |log.invokeEffects| ==> log.invokeEffects[i].replyIdx < |log.replies|)
    && (forall i :: |log.invokeEffects| <= i < |full.invokeEffects| ==> full.invokeEffects[i].replyIdx >= |log.replies|)
  }

  lemma ContinuesTrans(a: EffectLog, b: EffectLog, c: EffectLog)
    requires Continues(a, b) && Continues(b, c)
    ensures Continues(a, c)
  {
    forall i | |a.invokeEffects| <= i < |c.invokeEffects| ensures c.invokeEffects[i].replyIdx >= |a.replies| {
      if i < |b.invokeEffects| { assert c.invokeEffects[i] == b.invokeEffects[i]; }
    }
  }

  /** The records of one reply are those filed while it was produced. */
  lemma {:induction false} EffectsForPart(recs: seq<InvokeEffects>, lo: nat, hi: nat, idx: nat)
    requires lo <= hi <= |recs|
    requires forall i :: 0 <= i < |recs| ==> (recs[i].replyIdx == idx <==> lo <= i < hi)
    ensures EffectsFor(recs, idx) == recs[lo..hi]
  {
    if recs != [] {
      var n := |recs| - 1;
      EffectsForPart(recs[..n], if lo < n then lo else n, if hi < n then hi else n, idx);
      if hi <= n {
        assert recs[..n][lo..hi] == recs[lo..hi];
      } else if lo <= n {
        assert recs[..n][lo..n] == recs[lo..n];
        assert recs[lo..hi] == recs[lo..n] + [recs[n]];
      }
    }
  }

  // ---- One invoke ----

  /** The replaying counterpart of a recording state; `n` external calls may have been made for other reasons. */
  function Replayed(s: State, full: EffectLog, n: nat): State
    requires s.mode.Recording?
  {
    s.(mode := Replaying(full, |s.mode.log.replies|, false), calls := n)
  }

  lemma FilesContinues(s: State, s': State, out: Bytes, recs: seq<InvokeEffects>)
    requires Files(s, s', out, recs) && Continues(s.mode.log, s.mode.log)
    ensures Continues(s.mode.log, s'.mode.log) && Continues(s'.mode.log, s'.mode.log)
  {
  }

  lemma FiledEffects(a: seq<InvokeEffects>, full: seq<InvokeEffects>, idx: nat, recs: seq<InvokeEffects>)
    requires a + recs <= full && AllProper(recs, idx)
    requires forall i :: 0 <= i < |a| ==> a[i].replyIdx < idx
    requires forall i :: |a + recs| <= i < |full| ==> full[i].replyIdx > idx
    ensures EffectsFor(full, idx) == recs
  {
    var b := a + recs;
    assert forall i :: 0 <= i < |b| ==> full[i] == b[i];
    EffectsForPart(full, |a|, |b|, idx);
    assert full[|a|..|b|] == b[|a|..|b|] == recs;
  }

  lemma {:induction false} ProperReabsorbs(j: Journal, recs: seq<InvokeEffects>, idx: nat)
    requires AllProper(recs, idx)
    ensures Reabsorb(j, recs).Some?
  {
    if recs != [] {
      ProperReabsorbs(j, recs[..|recs| - 1], idx);
      assert Proper(recs[|recs| - 1], idx);
    }
  }

  /** A filed invoke replays with the bytes it had, and with a journal made of what it filed. */
  lemma FilesReplay(s: State, s': State, out: Bytes, recs: seq<InvokeEffects>, full: EffectLog, n: nat)
    requires Files(s, s', out, recs) && Continues(s.mode.log, s.mode.log) && Continues(s'.mode.log, full)
    ensures Reabsorb(s.journal, recs).Some?
    ensures ReplayNext(Replayed(s, full, n)) == (out, Replayed(s', full, n).(journal := Reabsorb(s.journal, recs).value))
  {
    var idx := |s.mode.log.replies|;
    FiledEffects(s.mode.log.invokeEffects, full.invokeEffects, idx, recs);
    ProperReabsorbs(s.journal, recs, idx);
    assert full.replies[idx] == s'.mode.log.replies[idx] == out;
  }

  lemma ReabsorbFiled(j: Journal, idx: nat, svc: nat, es: seq<Effect>)
    requires FitsEffects(es)
    ensures Reabsorb(j, FiledRecords(idx, svc, es)) == Some(AbsorbAll(j, es, svc))
  {
    DecodeEffectsExact(EncodeEffects(es), es);
    if es != [] {
      var recs := FiledRecords(idx, svc, es);
      assert recs[..|recs| - 1] == [];
    }
  }

  /** The invoke would run a service of this runtime. */
  predicate RunsService(c: Context, code: Bytes) { code !in c.tasks && Resolve(c, code).Some? }

  /** What the invoke filed amounts to what it journaled. */
  ghost predicate Balanced(c: Context, svc: nat, a: Action, s: State)
    requires a.Invoke?
  {
    var s' := RunInvoke(c, svc, 1, a, s).1;
    Reabsorb(s.journal, FiledBy(s, s')) == Some(s'.journal)
  }

  lemma InvokeFiles(c: Context, svc: nat, a: Action, s: State)
    requires a.Invoke? && s.mode.Recording? && !RunInvoke(c, svc, 1, a, s).1.rejected
    ensures var (out, s') := RunInvoke(c, svc, 1, a, s); Files(s, s', out, FiledBy(s, s'))
    ensures !RunsService(c, a.code) ==> Balanced(c, svc, a, s)
  {
    var (out, s') := RunInvoke(c, svc, 1, a, s);
    if a.code in c.tasks {
      var es := TaskFiles(c, svc, a, s);
      FiledIs(s, s', FiledRecords(|s.mode.log.replies|, svc, es));
      ReabsorbFiled(s.journal, |s.mode.log.replies|, svc, es);
    } else if Resolve(c, a.code).Some? {
      ChildFiles(c, Resolve(c, a.code).value, a, s);
    } else {
      FiledIs(s, s', []);
    }
  }

  // ---- Service children ----

  lemma {:induction false} ReabsorbMore(j: Journal, a: seq<InvokeEffects>, b: seq<InvokeEffects>)
    requires Reabsorb(j, a).Some?
    ensures Reabsorb(j, a + b) == Reabsorb(Reabsorb(j, a).value, b)
    decreases |b|
  {
    if b == [] {
      assert a + b == a;
    } else {
      assert (a + b)[..|a + b| - 1] == a + b[..|b| - 1];
      ReabsorbMore(j, a, b[..|b| - 1]);
    }
  }

  lemma ConcatCancels(a: Journal, b: Journal, x: Journal)
    ensures Concat(a, x) == Concat(b, x) <==> a == b
  {
    if Concat(a, x) == Concat(b, x) {
      assert a.writes == Concat(a, x).writes[..|a.writes|] && b.writes == Concat(b, x).writes[..|b.writes|];
      assert a.transfers == Concat(a, x).transfers[..|a.transfers|] && b.transfers == Concat(b, x).transfers[..|b.transfers|];
      assert a.preimages == Concat(a, x).preimages[..|a.preimages|] && b.preimages == Concat(b, x).preimages[..|b.preimages|];
      assert a.selfMessages == Concat(a, x).selfMessages[..|a.selfMessages|] && b.selfMessages == Concat(b, x).selfMessages[..|b.selfMessages|];
      assert a.newServices == Concat(a, x).newServices[..|a.newServices|] && b.newServices == Concat(b, x).newServices[..|b.newServices|];
    }
  }

  lemma AbsorbCancels(a: Journal, b: Journal, es: seq<Effect>, svc: nat)
    ensures AbsorbAll(a, es, svc) == AbsorbAll(b, es, svc) <==> a == b
  {
    ConcatEmpty(a);
    ConcatEmpty(b);
    AbsorbAllAppends(a, EmptyJournal, es, svc);
    AbsorbAllAppends(b, EmptyJournal, es, svc);
    ConcatCancels(a, b, AbsorbAll(EmptyJournal, es, svc));
  }

  /** The child's run ends in a result that is kept. */
  predicate Stands(c: Context, a: Action, s: State)
    requires a.Invoke? && Resolve(c, a.code).Some?
  {
    var (exit, s1) := ChildRun(c, 1, Resolve(c, a.code).value, a, s);
    exit.Halted? && ChildResult(c, s1.journal, TargetOf(a.code), PriorOf(c, a, s), exit.output).0
  }

  /**
   If the child's run is kept, all it journaled, the delivered state included, is what its own
   invokes filed; if it is thrown away, they filed nothing.
   */
  ghost predicate Accounted(c: Context, a: Action, s: State)
    requires a.Invoke? && Resolve(c, a.code).Some?
  {
    var s1 := ChildRun(c, 1, Resolve(c, a.code).value, a, s).1;
    Reabsorb(s.journal, FiledBy(s, s1)) == Some(if Stands(c, a, s) then s1.journal else s.journal)
  }

  lemma ChildGrows(c: Context, guest: Guest, a: Action, s: State) returns (more: Journal)
    requires a.Invoke?
    ensures ChildRun(c, 1, guest, a, s).1.journal == Concat(Delivered(s.journal, TargetOf(a.code), ChildInput(a.input).0), more)
  {
    var svc := TargetOf(a.code);
    var (state, items) := ChildInput(a.input);
    var j := Delivered(s.journal, svc, state);
    var e := s.(journal := EmptyJournal);
    ConcatEmpty(j);
    RunShift(c, j, guest, svc, 1, Gas(a.gasLimit), e, items, [], None);
    more := Run(Under(c, j), guest, svc, 1, Gas(a.gasLimit), e, items, [], None).1.journal;
  }

  lemma DeliveredRollsBack(j: Journal, svc: nat, state: Bytes, more: Journal)
    ensures RollbackTo(Concat(Delivered(j, svc, state), more), MarkOf(j)) == j
  {
    if state == [] {
      RollbackUndoes(j, more);
    } else {
      var one := EmptyJournal.(writes := [Entry(svc, StateKey, Some(state))]);
      ConcatAssoc(j, one, more);
      assert Delivered(j, svc, state) == Concat(j, one);
      RollbackUndoes(j, Concat(one, more));
    }
  }

  /** A service child is reproduced by replay exactly if its run is accounted for in this sense. */
  lemma ServiceExact(c: Context, svc: nat, a: Action, s: State)
    requires a.Invoke? && s.mode.Recording? && RunsService(c, a.code) && !RunInvoke(c, svc, 1, a, s).1.rejected
    ensures Balanced(c, svc, a, s) <==> Accounted(c, a, s)
  {
    var guest, t := Resolve(c, a.code).value, TargetOf(a.code);
    var (exit, s1) := ChildRun(c, 1, guest, a, s);
    ChildFiles(c, guest, a, s);
    ChildParts(c, 1, guest, a, s);
    ProperReabsorbs(s.journal, FiledBy(s, s1), |s.mode.log.replies|);
    var s' := RunInvoke(c, svc, 1, a, s).1;
    if Stands(c, a, s) {
      var es := ChildResult(c, s1.journal, t, PriorOf(c, a, s), exit.output).1;
      StandingFiles(c, a, s, s1, exit, es);
      AbsorbCancels(Reabsorb(s.journal, FiledBy(s, s1)).value, s1.journal, es, t);
    } else {
      var more := ChildGrows(c, guest, a, s);
      DeliveredRollsBack(s.journal, t, ChildInput(a.input).0, more);
      assert FiledBy(s, s') == FiledBy(s, s1);
    }
  }

  lemma StandingFiles(c: Context, a: Action, s: State, s1: State, exit: Exit, es: seq<Effect>)
    requires a.Invoke? && s.mode.Recording? && Resolve(c, a.code).Some? && exit.Halted?
    requires (exit, s1) == ChildRun(c, 1, Resolve(c, a.code).value, a, s) && FiledMore(s, s1, FiledBy(s, s1))
    requires var r := ChildResult(c, s1.journal, TargetOf(a.code), PriorOf(c, a, s), exit.output); r.0 && r.1 == es
    requires Reabsorb(s.journal, FiledBy(s, s1)).Some?
    ensures var s', t := RunChild(c, 1, Resolve(c, a.code).value, a, s).1, TargetOf(a.code);
            && s'.journal == AbsorbAll(s1.journal, es, t)
            && Reabsorb(s.journal, FiledBy(s, s')) == Some(AbsorbAll(Reabsorb(s.journal, FiledBy(s, s1)).value, es, t))
  {
    var guest, t, idx := Resolve(c, a.code).value, TargetOf(a.code), |s.mode.log.replies|;
    ChildParts(c, 1, guest, a, s);
    ChildEffectsFit(c, s1.journal, t, PriorOf(c, a, s), exit.output);
    var recs := FiledRecords(idx, t, es);
    var s2 := ChildDone(c, t, MarkOf(s.journal), PriorOf(c, a, s), exit, s1).1;
    EffectsFiled(s1, s2, t, es);
    FiledTrans(s, s1, s2, FiledBy(s, s1), recs);
    FiledIs(s, RunChild(c, 1, guest, a, s).1, FiledBy(s, s1) + recs);
    ReabsorbMore(s.journal, FiledBy(s, s1), recs);
    ReabsorbFiled(Reabsorb(s.journal, FiledBy(s, s1)).value, idx, t, es);
  }

  // ---- One run ----

  /** The replaying host may hold other code and reach other targets; rows, hash and input layout are the same. */
  ghost predicate SameHost(c: Context, d: Context) { d.storage == c.storage && d.hash == c.hash && d.split == c.split }

  ghost predicate Filed(s: State) { s.mode.Recording? && Continues(s.mode.log, s.mode.log) }

  /** A recording state goes on to another one. */
  ghost predicate GoesOn(s: State, s': State) { Filed(s) && Filed(s') && Continues(s.mode.log, s'.mode.log) }

  lemma GoesOnTrans(a: State, b: State, c: State)
    requires GoesOn(a, b) && GoesOn(b, c)
    ensures GoesOn(a, c)
  {
    ContinuesTrans(a.mode.log, b.mode.log, c.mode.log);
  }

  /** Every recorded invoke replays with the same bytes, and with the same journal exactly if it is balanced. */
  lemma InvokeReplay(c: Context, d: Context, svc: nat, a: Action, s: State, n: nat)
    requires a.Invoke? && Filed(s) && SameHost(c, d) && !RunInvoke(c, svc, 1, a, s).1.rejected
    ensures var (out, s') := RunInvoke(c, svc, 1, a, s);
            && GoesOn(s, s') && Reabsorb(s.journal, FiledBy(s, s')).Some?
            && forall full :: Continues(s'.mode.log, full) ==>
                 RunInvoke(d, svc, 1, a, Replayed(s, full, n)) ==
                 (out, Replayed(s', full, n).(journal := Reabsorb(s.journal, FiledBy(s, s')).value))
    ensures var (out, s') := RunInvoke(c, svc, 1, a, s);
            forall full :: Continues(s'.mode.log, full) ==>
              (RunInvoke(d, svc, 1, a, Replayed(s, full, n)) == (out, Replayed(s', full, n)) <==> Balanced(c, svc, a, s))
  {
    var (out, s') := RunInvoke(c, svc, 1, a, s);
    InvokeFiles(c, svc, a, s);
    FilesContinues(s, s', out, FiledBy(s, s'));
    ProperReabsorbs(s.journal, FiledBy(s, s'), |s.mode.log.replies|);
    forall full | Continues(s'.mode.log, full)
      ensures RunInvoke(d, svc, 1, a, Replayed(s, full, n)) ==
              (out, Replayed(s', full, n).(journal := Reabsorb(s.journal, FiledBy(s, s')).value))
    {
      FilesReplay(s, s', out, FiledBy(s, s'), full, n);
    }
  }

  lemma HostCallReplay(c: Context, d: Context, svc: nat, a: Action, s: State, items: seq<Bytes>, full: EffectLog, n: nat)
    requires Filed(s) && SameHost(c, d) && !HostCall(c, svc, a, s, items).1.rejected
    ensures var (obs, s', items') := HostCall(c, svc, a, s, items);
            && s'.mode == s.mode
            && HostCall(d, svc, a, Replayed(s, full, n), items) == (obs, Replayed(s', full, n), items')
  {
  }

  /** Every service child this run invokes, from here on, is accounted for. */
  ghost predicate RunAccounted(c: Context, guest: Guest, svc: nat, gas: nat, s: State, items: seq<Bytes>, hist: seq<Obs>, saved: Option<seq<Obs>>)
    decreases gas
  {
    if gas == 0 then true
    else
      var a := guest(hist);
      match a
      case Halt(_) => true
      case Trap => true
      case Suspend => saved.None? ==> RunAccounted(c, guest, svc, gas - 1, s, items, hist + [Woken(false)], Some(hist))
      case Invoke(_, _, _, _) =>
        && (RunsService(c, a.code) ==> Accounted(c, a, s))
        && var (out, s') := RunInvoke(c, svc, 1, a, s);
           RunAccounted(c, guest, svc, gas - 1, s', items, hist + [Reply(out)], saved)
      case _ =>
        var (obs, s', items') := HostCall(c, svc, a, s, items);
        RunAccounted(c, guest, svc, gas - 1, s', items', hist + [obs], saved)
  }

  /** Replayed against a log that goes on from the recorded one, the run repeats itself. */
  ghost predicate RunRepeats(c: Context, d: Context, guest: Guest, svc: nat, gas: nat, s: State, items: seq<Bytes>, hist: seq<Obs>, saved: Option<seq<Obs>>, full: EffectLog, n: nat)
    requires s.mode.Recording?
  {
    var (e, s', left) := Run(c, guest, svc, 0, gas, s, items, hist, saved);
    !s'.rejected ==>
      && GoesOn(s, s')
      && (Continues(s'.mode.log, full) ==>
            Run(d, guest, svc, 0, gas, Replayed(s, full, n), items, hist, saved) == (e, Replayed(s', full, n), left))
  }

  lemma {:induction false} InvokeThen(c: Context, d: Context, guest: Guest, svc: nat, gas: nat, s: State, items: seq<Bytes>, hist: seq<Obs>, saved: Option<seq<Obs>>, full: EffectLog, n: nat)
    requires RunAccounted(c, guest, svc, gas, s, items, hist, saved) && SameHost(c, d) && Filed(s) && gas > 0 && guest(hist).Invoke?
    ensures RunRepeats(c, d, guest, svc, gas, s, items, hist, saved, full, n)
    decreases gas, 0
  {
    var a := guest(hist);
    var (out, s1) := RunInvoke(c, svc, 1, a, s);
    RunRejects(c, guest, svc, 0, gas - 1, s1, items, hist + [Reply(out)], saved);
    if !s1.rejected {
      InvokeFiles(c, svc, a, s);
      if RunsService(c, a.code) { ServiceExact(c, svc, a, s); }
      InvokeReplay(c, d, svc, a, s, n);
      RunReplay(c, d, guest, svc, gas - 1, s1, items, hist + [Reply(out)], saved, full, n);
      GoesOnFurther(s, s1, Run(c, guest, svc, 0, gas - 1, s1, items, hist + [Reply(out)], saved).1, full);
    }
  }

  lemma {:induction false} HostCallThen(c: Context, d: Context, guest: Guest, svc: nat, gas: nat, s: State, items: seq<Bytes>, hist: seq<Obs>, saved: Option<seq<Obs>>, full: EffectLog, n: nat)
    requires RunAccounted(c, guest, svc, gas, s, items, hist, saved) && SameHost(c, d) && Filed(s) && gas > 0
    requires var a := guest(hist); !a.Invoke? && !a.Suspend? && !a.Halt? && !a.Trap?
    ensures RunRepeats(c, d, guest, svc, gas, s, items, hist, saved, full, n)
    decreases gas, 0
  {
    var a := guest(hist);
    var (obs, s1, items1) := HostCall(c, svc, a, s, items);
    RunRejects(c, guest, svc, 0, gas - 1, s1, items1, hist + [obs], saved);
    if !s1.rejected {
      HostCallReplay(c, d, svc, a, s, items, full, n);
      RunReplay(c, d, guest, svc, gas - 1, s1, items1, hist + [obs], saved, full, n);
    }
  }

  lemma {:induction false} RunReplay(c: Context, d: Context, guest: Guest, svc: nat, gas: nat, s: State, items: seq<Bytes>, hist: seq<Obs>, saved: Option<seq<Obs>>, full: EffectLog, n: nat)
    requires RunAccounted(c, guest, svc, gas, s, items, hist, saved) && SameHost(c, d) && Filed(s)
    ensures RunRepeats(c, d, guest, svc, gas, s, items, hist, saved, full, n)
    decreases gas, 1
  {
    if gas > 0 {
      var a := guest(hist);
      if a.Suspend? {
        if saved.None? { RunReplay(c, d, guest, svc, gas - 1, s, items, hist + [Woken(false)], Some(hist), full, n); }
      } else if a.Invoke? {
        InvokeThen(c, d, guest, svc, gas, s, items, hist, saved, full, n);
      } else if !a.Halt? && !a.Trap? {
        HostCallThen(c, d, guest, svc, gas, s, items, hist, saved, full, n);
      }
    }
  }

  lemma GoesOnFurther(s: State, s1: State, s': State, full: EffectLog)
    requires GoesOn(s, s1) && (!s'.rejected ==> GoesOn(s1, s'))
    ensures !s'.rejected ==> GoesOn(s, s') && (Continues(s'.mode.log, full) ==> Continues(s1.mode.log, full))
  {
    if !s'.rejected {
      GoesOnTrans(s, s1, s');
      if Continues(s'.mode.log, full) { ContinuesTrans(s1.mode.log, s'.mode.log, full); }
    }
  }

  // ---- One tick ----

  ghost predicate SliceAccounted(c: Context, guest: Guest, svc: nat, gas: nat, s: State, items: seq<Bytes>, resume: Option<seq<Obs>>) {
    RunAccounted(c, guest, svc, gas, s, NonEmpty(items), if resume.Some? then resume.value + [Woken(true)] else [], None)
  }

  lemma SliceReplay(c: Context, d: Context, guest: Guest, svc: nat, gas: nat, s: State, items: seq<Bytes>, resume: Option<seq<Obs>>, full: EffectLog, n: nat)
    requires SliceAccounted(c, guest, svc, gas, s, items, resume) && SameHost(c, d) && Filed(s)
    requires !RunSlice(c, guest, svc, gas, s, items, resume).1.rejected
    ensures var (end, s', left) := RunSlice(c, guest, svc, gas, s, items, resume);
            && GoesOn(s, s')
            && (Continues(s'.mode.log, full) ==>
                  RunSlice(d, guest, svc, gas, Replayed(s, full, n), items, resume) == (end, Replayed(s', full, n), left))
  {
    var hist := if resume.Some? then resume.value + [Woken(true)] else [];
    RunReplay(c, d, guest, svc, gas, s, NonEmpty(items), hist, None, full, n);
  }

  function ReplayedTick(t: Dispatch, full: EffectLog, n: nat): Dispatch
    requires t.s.mode.Recording?
  {
    t.(s := Replayed(t.s, full, n))
  }

  lemma SettleReplay(t: Dispatch, m: Mark, end: End, s: State, left: seq<Bytes>, full: EffectLog, n: nat)
    requires t.s.mode.Recording? && s.mode.Recording?
    ensures var t' := Settle(t, m, end, s, left);
            && t'.s.mode == s.mode && t'.s.rejected == s.rejected
            && Settle(ReplayedTick(t, full, n), m, end, Replayed(s, full, n), left) == ReplayedTick(t', full, n)
  {
  }

  lemma StepReplay(c: Context, d: Context, guest: Guest, svc: nat, gas: nat, t: Dispatch, items: seq<Bytes>, resume: Option<seq<Obs>>, full: EffectLog, n: nat)
    requires SliceAccounted(c, guest, svc, gas, t.s, items, resume) && SameHost(c, d) && Filed(t.s)
    requires !Step(c, guest, svc, gas, t, items, resume).1.s.rejected
    ensures var (end, t') := Step(c, guest, svc, gas, t, items, resume);
            && GoesOn(t.s, t'.s)
            && (Continues(t'.s.mode.log, full) ==>
                  Step(d, guest, svc, gas, ReplayedTick(t, full, n), items, resume) == (end, ReplayedTick(t', full, n)))
  {
    var (end, s, left) := RunSlice(c, guest, svc, gas, t.s, items, resume);
    SliceReplay(c, d, guest, svc, gas, t.s, items, resume, full, n);
    SettleReplay(t, MarkOf(t.s.journal), end, s, left, full, n);
  }

  /** What is asked of a slice for it to be replayed. */
  type Check = (Context, Dispatch, seq<Bytes>, Option<seq<Obs>>) -> bool

  ghost function SliceCheck(guest: Guest, svc: nat, gas: nat): Check {
    (c, t: Dispatch, items, resume) => SliceAccounted(c, guest, svc, gas, t.s, items, resume)
  }

  /** The check holds of every slice of a tick. */
  ghost predicate ChainChecked(step: Stepper, ok: Check, c: Context, k: nat, t: Dispatch, items: seq<Bytes>, resume: Option<seq<Obs>>)
    requires k > 0
    decreases k
  {
    && ok(c, t, items, resume)
    && var (end, t') := step(c, t, items, resume);
       (end.Idle? && Mail(t') != [] && k > 1 ==> ChainChecked(step, ok, c, k - 1, TakeMail(t'), Mail(t'), None))
  }

  /** A step that, where it passes the check, repeats itself when replayed against any log going on from the recorded one. */
  ghost predicate Repeats(step: Stepper, ok: Check, c: Context, d: Context, n: nat) {
    forall t: Dispatch, items, resume :: Filed(t.s) && ok(c, t, items, resume) ==>
      var (end, t') := step(c, t, items, resume);
      && (end.PrivateRecord? <==> t'.s.rejected)
      && (!t'.s.rejected ==>
            && GoesOn(t.s, t'.s)
            && forall full :: Continues(t'.s.mode.log, full) ==>
                 step(d, ReplayedTick(t, full, n), items, resume) == (end, ReplayedTick(t', full, n)))
  }

  lemma SliceRepeats(c: Context, d: Context, guest: Guest, svc: nat, gas: nat, n: nat)
    requires SameHost(c, d)
    ensures Repeats(SliceStep(guest, svc, gas), SliceCheck(guest, svc, gas), c, d, n)
  {
    var step, ok := SliceStep(guest, svc, gas), SliceCheck(guest, svc, gas);
    forall t: Dispatch, items, resume | Filed(t.s) && ok(c, t, items, resume)
      ensures var (end, t') := step(c, t, items, resume);
              && (end.PrivateRecord? <==> t'.s.rejected)
              && (!t'.s.rejected ==>
                    && GoesOn(t.s, t'.s)
                    && forall full :: Continues(t'.s.mode.log, full) ==>
                         step(d, ReplayedTick(t, full, n), items, resume) == (end, ReplayedTick(t', full, n)))
    {
      StepRejected(c, guest, svc, gas, t, items, resume);
      StepRepeats(c, d, guest, svc, gas, t, items, resume, n);
    }
  }

  lemma StepRepeats(c: Context, d: Context, guest: Guest, svc: nat, gas: nat, t: Dispatch, items: seq<Bytes>, resume: Option<seq<Obs>>, n: nat)
    requires SliceAccounted(c, guest, svc, gas, t.s, items, resume) && SameHost(c, d) && Filed(t.s)
    ensures var (end, t') := Step(c, guest, svc, gas, t, items, resume);
            !t'.s.rejected ==>
              && GoesOn(t.s, t'.s)
              && forall full :: Continues(t'.s.mode.log, full) ==>
                   Step(d, guest, svc, gas, ReplayedTick(t, full, n), items, resume) == (end, ReplayedTick(t', full, n))
  {
    var (end, t') := Step(c, guest, svc, gas, t, items, resume);
    if !t'.s.rejected {
      StepReplay(c, d, guest, svc, gas, t, items, resume, t.s.mode.log, n);
      forall full | Continues(t'.s.mode.log, full)
        ensures Step(d, guest, svc, gas, ReplayedTick(t, full, n), items, resume) == (end, ReplayedTick(t', full, n))
      {
        StepReplay(c, d, guest, svc, gas, t, items, resume, full, n);
      }
    }
  }

  /** A rejected slice is the last one. */
  lemma StepRejected(c: Context, guest: Guest, svc: nat, gas: nat, t: Dispatch, items: seq<Bytes>, resume: Option<seq<Obs>>)
    ensures var (end, t') := Step(c, guest, svc, gas, t, items, resume); end.PrivateRecord? <==> t'.s.rejected
  {
  }

  lemma {:induction false} ChainReplay(step: Stepper, ok: Check, c: Context, d: Context, k: nat, t: Dispatch, items: seq<Bytes>, resume: Option<seq<Obs>>, full: EffectLog, n: nat)
    requires Repeats(step, ok, c, d, n) && k > 0 && Filed(t.s) && ChainChecked(step, ok, c, k, t, items, resume) && !Chain(step, c, k, t, items, resume).s.rejected
    ensures var t' := Chain(step, c, k, t, items, resume);
            && GoesOn(t.s, t'.s)
            && (Continues(t'.s.mode.log, full) ==>
                  Chain(step, d, k, ReplayedTick(t, full, n), items, resume) == ReplayedTick(t', full, n))
    decreases k
  {
    var (end, t1) := step(c, t, items, resume);
    if end.Idle? && Mail(t1) != [] && k > 1 {
      var t2 := TakeMail(t1);
      ChainReplay(step, ok, c, d, k - 1, t2, Mail(t1), None, full, n);
      var t' := Chain(step, c, k - 1, t2, Mail(t1), None);
      GoesOnTrans(t.s, t2.s, t'.s);
      if Continues(t'.s.mode.log, full) { ContinuesTrans(t2.s.mode.log, t'.s.mode.log, full); }
    }
  }
}
