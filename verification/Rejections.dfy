/** Private proof records under replication: asking for one, at any invoke depth, is what rejects a dispatch. */
module Rejections {
  import opened Options
  import opened Ids
  import opened Refine

  /** This invoke, or something the child it runs does, asks to record privately in a replicated dispatch. */
  predicate InvokeAsks(c: Context, depth: nat, a: Action, s: State)
    requires a.Invoke? && depth > 0
    decreases MaxInvokeDepth - depth, DefaultGas + 1, 1
  {
    if c.split(a.input).recordRequested then !s.mode.Inactive?
    else
      && depth < MaxInvokeDepth && !(depth == 1 && s.mode.Replaying?)
      && a.code !in c.tasks && Resolve(c, a.code).Some?
      && var svc, (state, items) := TargetOf(a.code), ChildInput(a.input);
         RunAsks(c, Resolve(c, a.code).value, svc, depth, Gas(a.gasLimit),
                 s.(journal := Delivered(s.journal, svc, state)), items, [], None)
  }

  predicate RunAsks(c: Context, guest: Guest, svc: nat, depth: nat, gas: nat, s: State, items: seq<Bytes>, hist: seq<Obs>, saved: Option<seq<Obs>>)
    requires depth < MaxInvokeDepth
    decreases MaxInvokeDepth - depth, gas, 0
  {
    if gas == 0 then false
    else
      var a := guest(hist);
      match a
      case Halt(_) => false
      case Trap => false
      case Suspend =>
        if depth > 0 then RunAsks(c, guest, svc, depth, gas - 1, s, items, hist + [Acknowledged], saved)
        else saved.None? && RunAsks(c, guest, svc, depth, gas - 1, s, items, hist + [Woken(false)], Some(hist))
      case Invoke(_, _, _, _) =>
        || InvokeAsks(c, depth + 1, a, s)
        || var (out, s') := RunInvoke(c, svc, depth + 1, a, s);
           RunAsks(c, guest, svc, depth, gas - 1, s', items, hist + [Reply(out)], saved)
      case _ =>
        || (a.RecordIntent? && !s.mode.Inactive?)
        || var (obs, s', items') := HostCall(c, svc, a, s, items);
           RunAsks(c, guest, svc, depth, gas - 1, s', items', hist + [obs], saved)
  }

  lemma {:induction false} InvokeRejects(c: Context, parent: nat, depth: nat, a: Action, s: State)
    requires a.Invoke? && depth > 0
    ensures RunInvoke(c, parent, depth, a, s).1.rejected <==> s.rejected || InvokeAsks(c, depth, a, s)
    decreases MaxInvokeDepth - depth, DefaultGas + 1, 1
  {
    if !c.split(a.input).recordRequested && depth < MaxInvokeDepth && Resolve(c, a.code).Some? {
      var svc := TargetOf(a.code);
      var (state, items) := ChildInput(a.input);
      RunRejects(c, Resolve(c, a.code).value, svc, depth, Gas(a.gasLimit),
                 s.(journal := Delivered(s.journal, svc, state)), items, [], None);
    }
  }

  /** A run ends rejected exactly when it was, or something in it asked; no rollback of a child undoes that. */
  lemma {:induction false} RunRejects(c: Context, guest: Guest, svc: nat, depth: nat, gas: nat, s: State, items: seq<Bytes>, hist: seq<Obs>, saved: Option<seq<Obs>>)
    requires depth < MaxInvokeDepth
    ensures Run(c, guest, svc, depth, gas, s, items, hist, saved).1.rejected <==>
            s.rejected || RunAsks(c, guest, svc, depth, gas, s, items, hist, saved)
    decreases MaxInvokeDepth - depth, gas, 0
  {
    if gas > 0 {
      var a := guest(hist);
      if a.Suspend? {
        if depth > 0 {
          RunRejects(c, guest, svc, depth, gas - 1, s, items, hist + [Acknowledged], saved);
        } else if saved.None? {
          RunRejects(c, guest, svc, depth, gas - 1, s, items, hist + [Woken(false)], Some(hist));
        }
      } else if a.Invoke? {
        InvokeRejects(c, svc, depth + 1, a, s);
        var (out, s') := RunInvoke(c, svc, depth + 1, a, s);
        RunRejects(c, guest, svc, depth, gas - 1, s', items, hist + [Reply(out)], saved);
      } else if !a.Halt? && !a.Trap? {
        var (obs, s', items') := HostCall(c, svc, a, s, items);
        RunRejects(c, guest, svc, depth, gas - 1, s', items', hist + [obs], saved);
      }
    }
  }
}
