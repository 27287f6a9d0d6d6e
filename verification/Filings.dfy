/**
 What a recording run files in its log: each top-level invoke one reply, and under that
 reply the effects of everything the invoke ran, at any depth.
 */
module Filings {
  import opened Options
  import opened Ids
  import opened RowKeys
  import opened Payloads
  import opened WorkResults
  import opened Logs
  import opened Journals
  import opened Refine
  import opened Rejections

  /** A record filed under reply `idx`, which reads back as some effects, no state write among them. */
  ghost predicate Proper(r: InvokeEffects, idx: nat) {
    && r.replyIdx == idx && DecodeEffects(r.effects).Some? && DecodeEffects(r.effects).value != []
    && forall e :: e in DecodeEffects(r.effects).value ==> !IsStateWrite(e)
  }

  ghost predicate AllProper(recs: seq<InvokeEffects>, idx: nat) { forall i :: 0 <= i < |recs| ==> Proper(recs[i], idx) }

  /** From `s` to `s'` only records for the coming reply were filed. */
  ghost predicate FiledMore(s: State, s': State, recs: seq<InvokeEffects>) {
    && s.mode.Recording?
    && s'.mode == Recording(s.mode.log.(invokeEffects := s.mode.log.invokeEffects + recs), s.mode.cap)
    && AllProper(recs, |s.mode.log.replies|)
  }

  lemma FiledNothing(s: State, s': State)
    requires s.mode.Recording? && s'.mode == s.mode
    ensures FiledMore(s, s', [])
  {
    assert s.mode.log.invokeEffects + [] == s.mode.log.invokeEffects;
  }

  lemma FiledTrans(a: State, b: State, c: State, x: seq<InvokeEffects>, y: seq<InvokeEffects>)
    requires FiledMore(a, b, x) && FiledMore(b, c, y)
    ensures FiledMore(a, c, x + y)
  {
    assert a.mode.log.invokeEffects + x + y == a.mode.log.invokeEffects + (x + y);
  }

  // ---- Effects that can be written and read back ----

  /** Effects that fit the log and write no state. */
  ghost predicate Fileable(es: seq<Effect>) { FitsEffects(es) && forall e :: e in es ==> !IsStateWrite(e) }

  lemma {:induction false} WithoutStateKeeps(es: seq<Effect>)
    requires forall e :: e in es ==> FitsEffect(e)
    ensures |WithoutState(es)| <= |es| && forall e :: e in WithoutState(es) ==> FitsEffect(e) && !IsStateWrite(e)
  {
    if es != [] {
      WithoutStateKeeps(es[..|es| - 1]);
      assert es[|es| - 1] in es;
    }
  }

  /** What a Task folds into its parent can be written to the log and read back. */
  lemma TaskEffectsFit(c: Context, a: Action, packed: Bytes, exit: TaskExit)
    requires a.Invoke? && !c.split(a.input).recordRequested
    ensures Fileable(TaskResult(c, a, packed, exit).0)
  {
    if exit.TaskHalt? && Decode(Clip(exit.output)).Some? {
      var p := Decode(Clip(exit.output)).value;
      DecodeSound(Clip(exit.output));
      WithoutStateKeeps(p.effects);
    }
  }

  lemma ChildEffectsFit(c: Context, j: Journal, svc: nat, prior: Bytes, raw: Bytes)
    ensures Fileable(ChildResult(c, j, svc, prior, raw).1)
  {
    if Decode(raw).Some? {
      DecodeSound(raw);
      WithoutStateKeeps(Decode(raw).value.effects);
    }
  }

  function FiledRecords(idx: nat, svc: nat, es: seq<Effect>): seq<InvokeEffects> {
    if es == [] then [] else [InvokeEffects(idx, svc, EncodeEffects(es))]
  }

  lemma EffectsFiled(s: State, s': State, svc: nat, es: seq<Effect>)
    requires s.mode.Recording? && Fileable(es) && s'.mode == RecordEffects(s.mode, svc, es)
    ensures FiledMore(s, s', FiledRecords(|s.mode.log.replies|, svc, es))
  {
    if es == [] {
      FiledNothing(s, s');
    } else {
      DecodeEffectsExact(EncodeEffects(es), es);
    }
  }

  // ---- Below the top level ----

  lemma TaskFilesMore(c: Context, parent: nat, depth: nat, a: Action, s: State) returns (recs: seq<InvokeEffects>)
    requires a.Invoke? && s.mode.Recording? && a.code in c.tasks && !c.split(a.input).recordRequested && depth > 1
    ensures FiledMore(s, RunTask(c, parent, depth, c.tasks[a.code], a, s).1, recs)
  {
    var task, inp := c.tasks[a.code], c.split(a.input);
    var packed := c.pack(inp.state, inp.msg, RowsFor(c, s.journal, parent, inp.rowKeys));
    recs := [];
    if |packed| > task.capacity {
      FiledNothing(s, s);
    } else {
      var exit := task.run(packed, Gas(a.gasLimit), TagOf(inp).Some?);
      TaskEffectsFit(c, a, packed, exit);
      var es := TaskResult(c, a, packed, exit).0;
      var t := s.(journal := AbsorbAll(s.journal, es, parent), mode := RecordEffects(s.mode, parent, es));
      recs := FiledRecords(|s.mode.log.replies|, parent, es);
      EffectsFiled(s, t, parent, es);
    }
  }

  /** A child's work-result adds at most one record of its own. */
  lemma DoneFilesMore(c: Context, svc: nat, mark: Mark, prior: Bytes, exit: Exit, s: State) returns (recs: seq<InvokeEffects>)
    requires s.mode.Recording?
    ensures FiledMore(s, ChildDone(c, svc, mark, prior, exit, s).1, recs)
  {
    recs := [];
    if exit.Halted? && ChildResult(c, s.journal, svc, prior, exit.output).0 {
      var es := ChildResult(c, s.journal, svc, prior, exit.output).1;
      ChildEffectsFit(c, s.journal, svc, prior, exit.output);
      recs := FiledRecords(|s.mode.log.replies|, svc, es);
      EffectsFiled(s, ChildDone(c, svc, mark, prior, exit, s).1, svc, es);
    } else {
      FiledNothing(s, s);
    }
  }

  /** The run of a service child, from the state it is delivered. */
  function ChildRun(c: Context, depth: nat, guest: Guest, a: Action, s: State): (Exit, State)
    requires a.Invoke? && 0 < depth < MaxInvokeDepth
  {
    var svc, (state, items) := TargetOf(a.code), ChildInput(a.input);
    var (exit, s', _) := Run(c, guest, svc, depth, Gas(a.gasLimit), s.(journal := Delivered(s.journal, svc, state)), items, [], None);
    (exit, s')
  }

  /** The state a service child is judged against. */
  function PriorOf(c: Context, a: Action, s: State): Bytes
    requires a.Invoke?
  {
    var svc := TargetOf(a.code);
    var found := Effective(Delivered(s.journal, svc, ChildInput(a.input).0), c.storage, svc, StateKey);
    if found.Some? then found.value else []
  }

  lemma ChildParts(c: Context, depth: nat, guest: Guest, a: Action, s: State)
    requires a.Invoke? && 0 < depth < MaxInvokeDepth
    ensures var (exit, s1) := ChildRun(c, depth, guest, a, s);
            var (out, s2) := ChildDone(c, TargetOf(a.code), MarkOf(s.journal), PriorOf(c, a, s), exit, s1);
            RunChild(c, depth, guest, a, s) == Deliver(s2, depth, a.buffer, out)
  {
  }

  lemma {:induction false} ChildFilesMore(c: Context, depth: nat, guest: Guest, a: Action, s: State) returns (recs: seq<InvokeEffects>)
    requires a.Invoke? && 1 < depth < MaxInvokeDepth && s.mode.Recording? && !RunChild(c, depth, guest, a, s).1.rejected
    ensures FiledMore(s, RunChild(c, depth, guest, a, s).1, recs)
    decreases MaxInvokeDepth - depth, DefaultGas + 1, 0
  {
    var svc := TargetOf(a.code);
    var (state, items) := ChildInput(a.input);
    ChildParts(c, depth, guest, a, s);
    var (exit, s1) := ChildRun(c, depth, guest, a, s);
    var x := RunFilesMore(c, guest, svc, depth, Gas(a.gasLimit), s.(journal := Delivered(s.journal, svc, state)), items, [], None);
    var y := DoneFilesMore(c, svc, MarkOf(s.journal), PriorOf(c, a, s), exit, s1);
    recs := x + y;
    FiledTrans(s, s1, ChildDone(c, svc, MarkOf(s.journal), PriorOf(c, a, s), exit, s1).1, x, y);
  }

  lemma {:induction false} InvokeFilesMore(c: Context, parent: nat, depth: nat, a: Action, s: State) returns (recs: seq<InvokeEffects>)
    requires a.Invoke? && depth > 1 && s.mode.Recording? && !RunInvoke(c, parent, depth, a, s).1.rejected
    ensures FiledMore(s, RunInvoke(c, parent, depth, a, s).1, recs)
    decreases MaxInvokeDepth - depth, DefaultGas + 1, 1
  {
    if depth < MaxInvokeDepth && a.code in c.tasks {
      recs := TaskFilesMore(c, parent, depth, a, s);
    } else if depth < MaxInvokeDepth && Resolve(c, a.code).Some? {
      recs := ChildFilesMore(c, depth, Resolve(c, a.code).value, a, s);
    } else {
      recs := [];
      FiledNothing(s, RunInvoke(c, parent, depth, a, s).1);
    }
  }

  lemma {:induction false} RunFilesMore(c: Context, guest: Guest, svc: nat, depth: nat, gas: nat, s: State, items: seq<Bytes>, hist: seq<Obs>, saved: Option<seq<Obs>>)
    returns (recs: seq<InvokeEffects>)
    requires 0 < depth < MaxInvokeDepth && s.mode.Recording? && !Run(c, guest, svc, depth, gas, s, items, hist, saved).1.rejected
    ensures FiledMore(s, Run(c, guest, svc, depth, gas, s, items, hist, saved).1, recs)
    decreases MaxInvokeDepth - depth, gas, 0
  {
    recs := [];
    FiledNothing(s, s);
    if gas > 0 {
      var a := guest(hist);
      if a.Suspend? {
        recs := RunFilesMore(c, guest, svc, depth, gas - 1, s, items, hist + [Acknowledged], saved);
      } else if a.Invoke? {
        var (out, s1) := RunInvoke(c, svc, depth + 1, a, s);
        RunRejects(c, guest, svc, depth, gas - 1, s1, items, hist + [Reply(out)], saved);
        var x := InvokeFilesMore(c, svc, depth + 1, a, s);
        var y := RunFilesMore(c, guest, svc, depth, gas - 1, s1, items, hist + [Reply(out)], saved);
        recs := x + y;
        FiledTrans(s, s1, Run(c, guest, svc, depth, gas - 1, s1, items, hist + [Reply(out)], saved).1, x, y);
      } else if !a.Halt? && !a.Trap? {
        var (obs, s1, items1) := HostCall(c, svc, a, s, items);
        recs := RunFilesMore(c, guest, svc, depth, gas - 1, s1, items1, hist + [obs], saved);
        FiledNothing(s, s1);
        FiledTrans(s, s1, Run(c, guest, svc, depth, gas - 1, s1, items1, hist + [obs], saved).1, [], recs);
        assert [] + recs == recs;
      }
    }
  }

  // ---- One top-level invoke ----

  /** What an invoke files: records under the coming reply, then the reply as delivered. */
  ghost predicate Files(s: State, s': State, out: Bytes, recs: seq<InvokeEffects>) {
    && s.mode.Recording? && s'.rejected == s.rejected && AllProper(recs, |s.mode.log.replies|)
    && s'.mode == Recording(s.mode.log.(replies := s.mode.log.replies + [out], invokeEffects := s.mode.log.invokeEffects + recs), s.mode.cap)
  }

  /** The records filed between two states. */
  function FiledBy(s: State, s': State): seq<InvokeEffects> {
    if s.mode.Recording? && s'.mode.Recording? && |s.mode.log.invokeEffects| <= |s'.mode.log.invokeEffects|
    then s'.mode.log.invokeEffects[|s.mode.log.invokeEffects|..] else []
  }

  lemma FiledIs(s: State, s': State, recs: seq<InvokeEffects>)
    requires s.mode.Recording? && s'.mode.Recording? && s'.mode.log.invokeEffects == s.mode.log.invokeEffects + recs
    ensures FiledBy(s, s') == recs
  {
  }

  lemma DeliverFiles(s: State, t: State, buffer: nat, output: Bytes, recs: seq<InvokeEffects>)
    requires FiledMore(s, t, recs) && t.rejected == s.rejected
    ensures var (out, s') := Deliver(t, 1, buffer, output);
            Files(s, s', out, recs) && FiledBy(s, s') == recs && s'.journal == t.journal
  {
  }

  lemma TaskFiles(c: Context, svc: nat, a: Action, s: State) returns (es: seq<Effect>)
    requires a.Invoke? && s.mode.Recording? && a.code in c.tasks && !c.split(a.input).recordRequested
    ensures var (out, s') := RunTask(c, svc, 1, c.tasks[a.code], a, s);
            && Files(s, s', out, FiledRecords(|s.mode.log.replies|, svc, es)) && Fileable(es)
            && s'.journal == AbsorbAll(s.journal, es, svc)
  {
    var task, inp := c.tasks[a.code], c.split(a.input);
    var packed := c.pack(inp.state, inp.msg, RowsFor(c, s.journal, svc, inp.rowKeys));
    es := [];
    if |packed| > task.capacity {
      FiledNothing(s, s);
      DeliverFiles(s, s, a.buffer, [StatusTooBig], []);
    } else {
      var exit := task.run(packed, Gas(a.gasLimit), TagOf(inp).Some?);
      TaskEffectsFit(c, a, packed, exit);
      var (fx, out) := TaskResult(c, a, packed, exit);
      es := fx;
      var t := s.(journal := AbsorbAll(s.journal, es, svc), mode := RecordEffects(s.mode, svc, es));
      EffectsFiled(s, t, svc, es);
      DeliverFiles(s, t, a.buffer, out, FiledRecords(|s.mode.log.replies|, svc, es));
    }
  }

  lemma ChildFiles(c: Context, guest: Guest, a: Action, s: State)
    requires a.Invoke? && s.mode.Recording? && !RunChild(c, 1, guest, a, s).1.rejected
    ensures var (out, s') := RunChild(c, 1, guest, a, s);
            Files(s, s', out, FiledBy(s, s'))
    ensures var (exit, s1) := ChildRun(c, 1, guest, a, s);
            s1.mode.Recording? && s1.rejected == s.rejected && FiledMore(s, s1, FiledBy(s, s1))
  {
    var svc := TargetOf(a.code);
    var (state, items) := ChildInput(a.input);
    var s0 := s.(journal := Delivered(s.journal, svc, state));
    ChildParts(c, 1, guest, a, s);
    var (exit, s1) := ChildRun(c, 1, guest, a, s);
    var x := RunFilesMore(c, guest, svc, 1, Gas(a.gasLimit), s0, items, [], None);
    RunRejects(c, guest, svc, 1, Gas(a.gasLimit), s0, items, [], None);
    FiledIs(s, s1, x);
    var y := DoneFilesMore(c, svc, MarkOf(s.journal), PriorOf(c, a, s), exit, s1);
    var (out, s2) := ChildDone(c, svc, MarkOf(s.journal), PriorOf(c, a, s), exit, s1);
    FiledTrans(s, s1, s2, x, y);
    DeliverFiles(s, s2, a.buffer, out, x + y);
  }
}
