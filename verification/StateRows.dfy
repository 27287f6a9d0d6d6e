/**
 No refine can delete a state row, so what a tick hands to the durable commit keeps the
 database and the runtime's storage in step.
 */
module StateRows {
  import opened Options
  import opened Ids
  import opened RowKeys
  import opened Payloads
  import opened WorkResults
  import opened Logs
  import opened Journals
  import opened Refine
  import opened Ticks
  import opened JournalObjects
  import opened Commits
  import opened CommitChain

  ghost predicate Kept(j: Journal) {
    forall i :: 0 <= i < |j.writes| && j.writes[i].key == StateKey ==> j.writes[i].value.Some?
  }

  predicate Sparing(e: Effect) { e.Delete? ==> e.key != StateKey }

  lemma AbsorbKeeps(j: Journal, e: Effect, self: nat)
    requires Kept(j) && Sparing(e)
    ensures Kept(Absorb(j, e, self))
  {
  }

  lemma {:induction false} AbsorbAllKeeps(j: Journal, es: seq<Effect>, self: nat)
    requires Kept(j) && forall e :: e in es ==> Sparing(e)
    ensures Kept(AbsorbAll(j, es, self))
  {
    if es != [] {
      AbsorbAllKeeps(j, es[..|es| - 1], self);
      assert es[|es| - 1] in es;
      AbsorbKeeps(AbsorbAll(j, es[..|es| - 1], self), es[|es| - 1], self);
    }
  }

  lemma RollbackKeeps(j: Journal, m: Mark)
    requires Kept(j)
    ensures Kept(RollbackTo(j, m))
  {
  }

  lemma {:induction false} WithoutStateSparing(es: seq<Effect>)
    requires forall e :: e in es ==> Sparing(e)
    ensures forall e :: e in WithoutState(es) ==> Sparing(e)
  {
    if es != [] {
      WithoutStateSparing(es[..|es| - 1]);
      assert es[|es| - 1] in es;
    }
  }

  lemma DecodedSparing(b: Bytes)
    requires Decode(b).Some?
    ensures forall e :: e in Decode(b).value.effects ==> Sparing(e)
    ensures forall e :: e in WithoutState(Decode(b).value.effects) ==> Sparing(e)
  {
    DecodeSound(b);
    WithoutStateSparing(Decode(b).value.effects);
  }

  lemma TaskResultSparing(c: Context, a: Action, packed: Bytes, exit: TaskExit)
    requires a.Invoke?
    ensures forall e :: e in TaskResult(c, a, packed, exit).0 ==> Sparing(e)
  {
    if exit.TaskHalt? && Decode(Clip(exit.output)).Some? { DecodedSparing(Clip(exit.output)); }
  }

  lemma TaskKeeps(c: Context, parent: nat, depth: nat, task: Task, a: Action, s: State)
    requires a.Invoke? && Kept(s.journal)
    ensures Kept(RunTask(c, parent, depth, task, a, s).1.journal)
  {
    var inp := c.split(a.input);
    var packed := c.pack(inp.state, inp.msg, RowsFor(c, s.journal, parent, inp.rowKeys));
    var exit := task.run(packed, Gas(a.gasLimit), TagOf(inp).Some?);
    TaskResultSparing(c, a, packed, exit);
    AbsorbAllKeeps(s.journal, TaskResult(c, a, packed, exit).0, parent);
  }

  lemma {:induction false} ReabsorbKeeps(j: Journal, recs: seq<InvokeEffects>)
    requires Kept(j) && Reabsorb(j, recs).Some?
    ensures Kept(Reabsorb(j, recs).value)
  {
    if recs != [] {
      ReabsorbKeeps(j, recs[..|recs| - 1]);
      var b := recs[|recs| - 1].effects;
      DecodeEffectsExact(b, DecodeEffects(b).value);
      AbsorbAllKeeps(Reabsorb(j, recs[..|recs| - 1]).value, DecodeEffects(b).value, recs[|recs| - 1].svc);
    }
  }

  lemma ReplayKeeps(s: State)
    requires s.mode.Replaying? && Kept(s.journal)
    ensures Kept(ReplayNext(s).1.journal)
  {
    if s.mode.pos < |s.mode.log.replies| {
      var recs := EffectsFor(s.mode.log.invokeEffects, s.mode.pos);
      if Reabsorb(s.journal, recs).Some? { ReabsorbKeeps(s.journal, recs); }
    }
  }

  lemma ChildDoneKeeps(c: Context, svc: nat, mark: Mark, prior: Bytes, exit: Exit, s: State)
    requires Kept(s.journal)
    ensures Kept(ChildDone(c, svc, mark, prior, exit, s).1.journal)
  {
    RollbackKeeps(s.journal, mark);
    if exit.Halted? {
      if Decode(exit.output).Some? { DecodedSparing(exit.output); }
      AbsorbAllKeeps(s.journal, ChildResult(c, s.journal, svc, prior, exit.output).1, svc);
    }
  }

  lemma {:induction false} ChildKeeps(c: Context, depth: nat, guest: Guest, a: Action, s: State)
    requires a.Invoke? && 0 < depth < MaxInvokeDepth && Kept(s.journal)
    ensures Kept(RunChild(c, depth, guest, a, s).1.journal)
    decreases MaxInvokeDepth - depth, DefaultGas + 1, 0
  {
    var svc, mark := TargetOf(a.code), MarkOf(s.journal);
    var (state, items) := ChildInput(a.input);
    var j := Delivered(s.journal, svc, state);
    var found := Effective(j, c.storage, svc, StateKey);
    RunKeeps(c, guest, svc, depth, Gas(a.gasLimit), s.(journal := j), items, [], None);
    var (exit, s', _) := Run(c, guest, svc, depth, Gas(a.gasLimit), s.(journal := j), items, [], None);
    ChildDoneKeeps(c, svc, mark, if found.Some? then found.value else [], exit, s');
  }

  lemma {:induction false} InvokeKeeps(c: Context, parent: nat, depth: nat, a: Action, s: State)
    requires a.Invoke? && depth > 0 && Kept(s.journal)
    ensures Kept(RunInvoke(c, parent, depth, a, s).1.journal)
    decreases MaxInvokeDepth - depth, DefaultGas + 1, 1
  {
    if s.mode.Replaying? { ReplayKeeps(s); }
    if a.code in c.tasks { TaskKeeps(c, parent, depth, c.tasks[a.code], a, s); }
    if depth < MaxInvokeDepth && Resolve(c, a.code).Some? { ChildKeeps(c, depth, Resolve(c, a.code).value, a, s); }
  }

  lemma {:induction false} RunKeeps(c: Context, guest: Guest, svc: nat, depth: nat, gas: nat, s: State, items: seq<Bytes>, hist: seq<Obs>, saved: Option<seq<Obs>>)
    requires depth < MaxInvokeDepth && Kept(s.journal)
    ensures Kept(Run(c, guest, svc, depth, gas, s, items, hist, saved).1.journal)
    decreases MaxInvokeDepth - depth, gas, 0
  {
    if gas > 0 {
      var a := guest(hist);
      if a.Suspend? {
        if depth > 0 {
          RunKeeps(c, guest, svc, depth, gas - 1, s, items, hist + [Acknowledged], saved);
        } else if saved.None? {
          RunKeeps(c, guest, svc, depth, gas - 1, s, items, hist + [Woken(false)], Some(hist));
        }
      } else if a.Invoke? {
        InvokeKeeps(c, svc, depth + 1, a, s);
        var (out, s') := RunInvoke(c, svc, depth + 1, a, s);
        RunKeeps(c, guest, svc, depth, gas - 1, s', items, hist + [Reply(out)], saved);
      } else if !a.Halt? && !a.Trap? {
        var (obs, s', items') := HostCall(c, svc, a, s, items);
        assert Kept(s'.journal);
        RunKeeps(c, guest, svc, depth, gas - 1, s', items', hist + [obs], saved);
      }
    }
  }

  lemma StepKeeps(c: Context, guest: Guest, svc: nat, gas: nat, d: Dispatch, items: seq<Bytes>, resume: Option<seq<Obs>>)
    requires Kept(d.s.journal)
    ensures Kept(Step(c, guest, svc, gas, d, items, resume).1.s.journal)
  {
    var hist := if resume.Some? then resume.value + [Woken(true)] else [];
    RunKeeps(c, guest, svc, 0, gas, d.s, NonEmpty(items), hist, None);
    var (exit, s, left) := Run(c, guest, svc, 0, gas, d.s, NonEmpty(items), hist, None);
    if exit.Halted? && Decode(exit.output).Some? {
      DecodedSparing(exit.output);
      AbsorbAllKeeps(s.journal, Decode(exit.output).value.effects, svc);
    }
    SettleKeeps(d, MarkOf(d.s.journal), Judge(c, svc, exit, s).0, s.(journal := Judge(c, svc, exit, s).1), left);
  }

  lemma SettleKeeps(d: Dispatch, m: Mark, end: End, s: State, left: seq<Bytes>)
    requires Kept(s.journal)
    ensures Kept(Settle(d, m, end, s, left).s.journal)
  {
    RollbackKeeps(s.journal, m);
    RollbackKeeps(s.journal, MarkOf(EmptyJournal));
  }

  ghost predicate StepsKeep(step: Stepper) {
    forall c, d: Dispatch, items, resume :: Kept(d.s.journal) ==> Kept(step(c, d, items, resume).1.s.journal)
  }

  lemma SlicesKeep(guest: Guest, svc: nat, gas: nat)
    ensures StepsKeep(SliceStep(guest, svc, gas))
  {
    forall c, d: Dispatch, items, resume | Kept(d.s.journal)
      ensures Kept(SliceStep(guest, svc, gas)(c, d, items, resume).1.s.journal)
    {
      StepKeeps(c, guest, svc, gas, d, items, resume);
    }
  }

  lemma {:induction false} ChainKeeps(step: Stepper, c: Context, k: nat, d: Dispatch, items: seq<Bytes>, resume: Option<seq<Obs>>)
    requires StepsKeep(step) && k > 0 && Kept(d.s.journal)
    ensures Kept(Chain(step, c, k, d, items, resume).s.journal)
    decreases k
  {
    var (end, d') := step(c, d, items, resume);
    if end.Idle? && Mail(d') != [] && k > 1 {
      ChainKeeps(step, c, k - 1, TakeMail(d'), Mail(d'), None);
    }
  }

  // ---- Splitting off the state write ----

  /** What is taken off a child's effects is the state they would have left in its row. */
  lemma {:induction false} StateWrittenIsLast(j: Journal, es: seq<Effect>, svc: nat, st: Storage)
    requires forall e :: e in es ==> Sparing(e)
    ensures Effective(AbsorbAll(j, es, svc), st, svc, StateKey) ==
            if StateWritten(es).Some? then StateWritten(es) else Effective(j, st, svc, StateKey)
  {
    if es != [] {
      var n := |es| - 1;
      assert es[n] in es;
      StateWrittenIsLast(j, es[..n], svc, st);
      AbsorbedRow(AbsorbAll(j, es[..n], svc), es[n], svc, StateKey);
    }
  }

  /** And every other row is as if it had stayed. */
  lemma {:induction false} OthersUntouched(j: Journal, es: seq<Effect>, svc: nat, key: Bytes)
    requires key != StateKey
    ensures Journaled(AbsorbAll(j, es, svc).writes, svc, key) == Journaled(AbsorbAll(j, WithoutState(es), svc).writes, svc, key)
  {
    if es != [] {
      var n := |es| - 1;
      OthersUntouched(j, es[..n], svc, key);
      AbsorbedRow(AbsorbAll(j, es[..n], svc), es[n], svc, key);
      var rest := WithoutState(es[..n]);
      if IsStateWrite(es[n]) {
        assert WithoutState(es) == rest;
      } else {
        assert WithoutState(es) == rest + [es[n]] && (rest + [es[n]])[..|rest|] == rest;
        AbsorbedRow(AbsorbAll(j, rest, svc), es[n], svc, key);
      }
    }
  }

  lemma AbsorbedRow(j: Journal, e: Effect, svc: nat, key: Bytes)
    ensures Journaled(Absorb(j, e, svc).writes, svc, key) ==
            if e.Write? && e.key == key then Some(Some(e.value))
            else if e.Delete? && e.key == key then Some(None)
            else Journaled(j.writes, svc, key)
  {
    if e.Write? || e.Delete? {
      var ws := Absorb(j, e, svc).writes;
      assert ws[..|ws| - 1] == j.writes;
    }
  }

  // ---- In step with the database ----

  /** The rows a database holds for a service: its state row, when not empty, beside the others. */
  ghost predicate Mirrors(slate: Slate, rows: Rows) {
    && slate.kv == rows - {StateKey}
    && slate.state == (if StateKey in rows then rows[StateKey] else [])
  }

  ghost predicate KeptWrites(ws: seq<Write>) {
    forall i :: 0 <= i < |ws| && ws[i].0 == StateKey ==> ws[i].1.Some?
  }

  /** The captured writes of a service do to its rows what draining the whole journal does. */
  lemma {:induction false} OwnWritesCarry(st: Storage, writes: seq<Entry>, svc: nat)
    ensures RowsOf(Drain(st, writes), svc) == ApplyWrites(RowsOf(st, svc), OwnWrites(writes, svc))
  {
    if writes != [] {
      var n := |writes| - 1;
      OwnWritesCarry(st, writes[..n], svc);
      var own := OwnWrites(writes[..n], svc);
      if writes[n].svc == svc {
        assert (own + [(writes[n].key, writes[n].value)])[..|own|] == own;
      } else {
        assert own + [] == own;
      }
    }
  }

  lemma {:induction false} DeltaMirrors(slate: Slate, rows: Rows, ws: seq<Write>)
    requires Mirrors(slate, rows) && KeptWrites(ws)
    ensures Mirrors(ApplyDelta(slate, ws), ApplyWrites(rows, ws))
  {
    if ws != [] {
      var n := |ws| - 1;
      DeltaMirrors(slate, rows, ws[..n]);
      var t, r := ApplyDelta(slate, ws[..n]), ApplyWrites(rows, ws[..n]);
      assert ApplyWrite(r, ws[n]) - {StateKey} == if ws[n].0 == StateKey then r - {StateKey} else ApplyWrite(r - {StateKey}, ws[n]);
    }
  }

  lemma {:induction false} OwnWritesKept(writes: seq<Entry>, svc: nat)
    requires forall i :: 0 <= i < |writes| && writes[i].key == StateKey ==> writes[i].value.Some?
    ensures KeptWrites(OwnWrites(writes, svc))
  {
    if writes != [] { OwnWritesKept(writes[..|writes| - 1], svc); }
  }

  /**
   End to end: if a service's database rows mirror its keyspace, then after any tick the
   database with the tick's captured writes applied mirrors the keyspace again.
   */
  lemma TickMirrors(c: Context, guest: Guest, svc: nat, gas: nat, mode: Mode, calls: nat, before: Dispatch, items: seq<Bytes>, slate: Slate)
    requires Mirrors(slate, RowsOf(c.storage, svc))
    ensures var t := Chain(SliceStep(guest, svc, gas), c, MaxRefineIterations, Begin(mode, calls, before), items, before.stored);
            Mirrors(ApplyDelta(slate, OwnWrites(t.s.journal.writes, svc)), RowsOf(Ticks.Commit(c.storage, svc, t).storage, svc))
  {
    SlicesKeep(guest, svc, gas);
    ChainKeeps(SliceStep(guest, svc, gas), c, MaxRefineIterations, Begin(mode, calls, before), items, before.stored);
    var t := Chain(SliceStep(guest, svc, gas), c, MaxRefineIterations, Begin(mode, calls, before), items, before.stored);
    var writes := t.s.journal.writes;
    OwnWritesKept(writes, svc);
    OwnWritesCarry(c.storage, writes, svc);
    DeltaMirrors(slate, RowsOf(c.storage, svc), OwnWrites(writes, svc));
  }
}
