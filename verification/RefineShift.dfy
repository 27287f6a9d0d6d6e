/**
 A refine cannot tell a journal from its commit: running on top of journaled entries is
 running on the storage with those entries drained, and it only ever appends to them.
 */
module RefineShift {
  import opened Options
  import opened Ids
  import opened RowKeys
  import opened Payloads
  import opened Logs
  import opened Journals
  import opened Refine

  /** The context with a journal's mutations already committed. */
  function Under(c: Context, base: Journal): Context { c.(storage := Drain(c.storage, base.writes)) }

  /** The state with a journal put below its own. */
  function Over(base: Journal, s: State): State { s.(journal := Concat(base, s.journal)) }

  lemma EffectiveShift(c: Context, base: Journal, j: Journal, svc: nat, key: Bytes)
    ensures Effective(Concat(base, j), c.storage, svc, key) == Effective(j, Under(c, base).storage, svc, key)
  {
    OverlayRefinesCommit(Concat(base, j), c.storage, svc, key);
    OverlayRefinesCommit(j, Under(c, base).storage, svc, key);
    DrainAppend(c.storage, base.writes, j.writes);
  }

  lemma AnchorShift(c: Context, base: Journal, j: Journal, svc: nat, state: Option<Bytes>)
    ensures ExpectedAnchor(c, Concat(base, j), svc, state) == ExpectedAnchor(Under(c, base), j, svc, state)
  {
    EffectiveShift(c, base, j, svc, CommittedRootKey);
  }

  lemma DeliverShift(base: Journal, s: State, depth: nat, buffer: nat, output: Bytes)
    ensures var (out, s') := Deliver(s, depth, buffer, output);
            Deliver(Over(base, s), depth, buffer, output) == (out, Over(base, s'))
  {
  }

  lemma RowsShift(c: Context, base: Journal, j: Journal, svc: nat, keys: seq<Bytes>)
    ensures RowsFor(c, Concat(base, j), svc, keys) == RowsFor(Under(c, base), j, svc, keys)
  {
    forall i | 0 <= i < |keys|
      ensures RowsFor(c, Concat(base, j), svc, keys)[i] == RowsFor(Under(c, base), j, svc, keys)[i]
    {
      EffectiveShift(c, base, j, svc, keys[i]);
    }
  }

  lemma TaskShift(c: Context, base: Journal, parent: nat, depth: nat, task: Task, a: Action, s: State)
    requires a.Invoke?
    ensures var (out, s') := RunTask(Under(c, base), parent, depth, task, a, s);
            RunTask(c, parent, depth, task, a, Over(base, s)) == (out, Over(base, s'))
  {
    var inp := c.split(a.input);
    RowsShift(c, base, s.journal, parent, inp.rowKeys);
    var packed := c.pack(inp.state, inp.msg, RowsFor(c, Concat(base, s.journal), parent, inp.rowKeys));
    if |packed| > task.capacity {
      DeliverShift(base, s, depth, a.buffer, [StatusTooBig]);
    } else {
      var (es, out) := TaskResult(c, a, packed, task.run(packed, Gas(a.gasLimit), TagOf(inp).Some?));
      AbsorbAllAppends(base, s.journal, es, parent);
      DeliverShift(base, s.(journal := AbsorbAll(s.journal, es, parent), mode := RecordEffects(s.mode, parent, es)), depth, a.buffer, out);
    }
  }

  lemma {:induction false} ReabsorbShift(base: Journal, j: Journal, recs: seq<InvokeEffects>)
    ensures Reabsorb(Concat(base, j), recs) ==
            match Reabsorb(j, recs) { case None => None case Some(k) => Some(Concat(base, k)) }
  {
    if recs != [] {
      ReabsorbShift(base, j, recs[..|recs| - 1]);
      var k, es := Reabsorb(j, recs[..|recs| - 1]), DecodeEffects(recs[|recs| - 1].effects);
      if k.Some? && es.Some? { AbsorbAllAppends(base, k.value, es.value, recs[|recs| - 1].svc); }
    }
  }

  lemma ReplayShift(base: Journal, s: State)
    requires s.mode.Replaying?
    ensures var (out, s') := ReplayNext(s); ReplayNext(Over(base, s)) == (out, Over(base, s'))
  {
    if s.mode.pos < |s.mode.log.replies| {
      ReabsorbShift(base, s.journal, EffectsFor(s.mode.log.invokeEffects, s.mode.pos));
    }
  }

  lemma ChildDoneShift(c: Context, base: Journal, svc: nat, j: Journal, prior: Bytes, exit: Exit, s: State)
    ensures var (out, s') := ChildDone(Under(c, base), svc, MarkOf(j), prior, exit, s);
            ChildDone(c, svc, MarkOf(Concat(base, j)), prior, exit, Over(base, s)) == (out, Over(base, s'))
  {
    assert MarkOf(Concat(base, j)) == MarkShift(MarkOf(j), base);
    RollbackShift(base, s.journal, MarkOf(j));
    if exit.Halted? {
      AnchorShift(c, base, s.journal, svc, Some(prior));
      var (stands, es, out) := ChildResult(Under(c, base), s.journal, svc, prior, exit.output);
      assert ChildResult(c, Concat(base, s.journal), svc, prior, exit.output) == (stands, es, out);
      AbsorbAllAppends(base, s.journal, es, svc);
    }
  }

  lemma DeliveredShift(base: Journal, j: Journal, svc: nat, state: Bytes)
    ensures Delivered(Concat(base, j), svc, state) == Concat(base, Delivered(j, svc, state))
  {
    if state != [] { AbsorbAppends(base, j, Write(StateKey, state), svc); }
  }

  lemma {:induction false} ChildShift(c: Context, base: Journal, depth: nat, guest: Guest, a: Action, s: State)
    requires a.Invoke? && 0 < depth < MaxInvokeDepth
    ensures var (out, s') := RunChild(Under(c, base), depth, guest, a, s);
            RunChild(c, depth, guest, a, Over(base, s)) == (out, Over(base, s'))
    decreases MaxInvokeDepth - depth, DefaultGas + 1, 0
  {
    var d, svc := Under(c, base), TargetOf(a.code);
    var (state, items) := ChildInput(a.input);
    var j := Delivered(s.journal, svc, state);
    DeliveredShift(base, s.journal, svc, state);
    EffectiveShift(c, base, j, svc, StateKey);
    var found := Effective(j, d.storage, svc, StateKey);
    var prior := if found.Some? then found.value else [];
    RunShift(c, base, guest, svc, depth, Gas(a.gasLimit), s.(journal := j), items, [], None);
    var (exit, s1, _) := Run(d, guest, svc, depth, Gas(a.gasLimit), s.(journal := j), items, [], None);
    ChildDoneShift(c, base, svc, s.journal, prior, exit, s1);
    var (out, s2) := ChildDone(d, svc, MarkOf(s.journal), prior, exit, s1);
    DeliverShift(base, s2, depth, a.buffer, out);
  }

  lemma {:induction false} InvokeShift(c: Context, base: Journal, parent: nat, depth: nat, a: Action, s: State)
    requires a.Invoke? && depth > 0
    ensures var (out, s') := RunInvoke(Under(c, base), parent, depth, a, s);
            RunInvoke(c, parent, depth, a, Over(base, s)) == (out, Over(base, s'))
    decreases MaxInvokeDepth - depth, DefaultGas + 1, 1
  {
    var inp := c.split(a.input);
    if inp.recordRequested && !s.mode.Inactive? {
      DeliverShift(base, s.(rejected := true), depth, a.buffer, [StatusPanicked]);
    } else if depth == 1 && s.mode.Replaying? {
      ReplayShift(base, s);
    } else if depth >= MaxInvokeDepth {
      DeliverShift(base, s, depth, a.buffer, [StatusOutOfGas]);
    } else if a.code in c.tasks {
      TaskShift(c, base, parent, depth, c.tasks[a.code], a, s);
    } else if inp.recordRequested {
      DeliverShift(base, s, depth, a.buffer, [StatusPanicked]);
    } else if Resolve(c, a.code).Some? {
      ChildShift(c, base, depth, Resolve(c, a.code).value, a, s);
    } else if IsServiceCode(a.code) {
      ExternalShift(c, base, depth, a, s);
    } else {
      DeliverShift(base, s, depth, a.buffer, [StatusNotFound]);
    }
  }

  lemma ExternalShift(c: Context, base: Journal, depth: nat, a: Action, s: State)
    requires a.Invoke?
    ensures var (out, s') := CallExternal(Under(c, base), depth, a, s);
            CallExternal(c, depth, a, Over(base, s)) == (out, Over(base, s'))
  {
  }

  /** Running over a base journal is running over the storage it drains to, with the result put on top. */
  lemma {:induction false} RunShift(c: Context, base: Journal, guest: Guest, svc: nat, depth: nat, gas: nat, s: State, items: seq<Bytes>, hist: seq<Obs>, saved: Option<seq<Obs>>)
    requires depth < MaxInvokeDepth
    ensures var (e, s', rest) := Run(Under(c, base), guest, svc, depth, gas, s, items, hist, saved);
            Run(c, guest, svc, depth, gas, Over(base, s), items, hist, saved) == (e, Over(base, s'), rest)
    decreases MaxInvokeDepth - depth, gas, 0
  {
    if gas > 0 {
      var a, d := guest(hist), Under(c, base);
      if a.Suspend? {
        if depth > 0 {
          RunShift(c, base, guest, svc, depth, gas - 1, s, items, hist + [Acknowledged], saved);
        } else if saved.None? {
          RunShift(c, base, guest, svc, depth, gas - 1, s, items, hist + [Woken(false)], Some(hist));
        }
      } else if a.Invoke? {
        InvokeShift(c, base, svc, depth + 1, a, s);
        var (out, s') := RunInvoke(d, svc, depth + 1, a, s);
        RunShift(c, base, guest, svc, depth, gas - 1, s', items, hist + [Reply(out)], saved);
      } else if !a.Halt? && !a.Trap? {
        HostCallShift(c, base, svc, a, s, items);
        var (obs, s', items') := HostCall(d, svc, a, s, items);
        RunShift(c, base, guest, svc, depth, gas - 1, s', items', hist + [obs], saved);
      }
    }
  }

  lemma HostCallShift(c: Context, base: Journal, svc: nat, a: Action, s: State, items: seq<Bytes>)
    ensures var (obs, s', items') := HostCall(Under(c, base), svc, a, s, items);
            HostCall(c, svc, a, Over(base, s), items) == (obs, Over(base, s'), items')
  {
    match a
    case Read(key) => EffectiveShift(c, base, s.journal, svc, key);
    case Store(key, value) => AbsorbAppends(base, s.journal, Write(key, value), svc);
    case Send(target, memo) => AbsorbAppends(base, s.journal, Transfer(target, memo), svc);
    case Offer(hash, data) => AbsorbAppends(base, s.journal, Provide(hash, data), svc);
    case _ =>
  }
}
