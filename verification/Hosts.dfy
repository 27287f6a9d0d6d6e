/** The host side of a refine: hostcalls, invokes and the guest loop, updating journal and session in place. */
module Hosts {
  import opened Options
  import opened Ids
  import opened RowKeys
  import opened Payloads
  import opened WorkResults
  import opened PayloadLoops
  import opened Logs
  import opened Journals
  import opened Refine
  import opened JournalObjects

  class Host {
    const journal: RefineJournal
    var mode: Mode
    var rejected: bool
    var calls: nat

    ghost function View(): State
      reads this, journal
    {
      State(journal.View(), mode, rejected, calls)
    }

    constructor (mode: Mode, calls: nat)
      ensures View() == State(EmptyJournal, mode, false, calls) && fresh(journal)
    {
      journal := new RefineJournal();
      this.mode, rejected, this.calls := mode, false, calls;
    }

    // ---- The session ----

    method RecordReply(depth: nat, reply: Bytes)
      modifies this
      ensures View() == old(View()).(mode := Record(old(mode), depth, reply))
    {
      if depth == 1 && mode.Recording? {
        mode := Recording(mode.log.(replies := mode.log.replies + [reply]), mode.cap);
      }
    }

    method RecordInvokeEffects(svc: nat, es: seq<Effect>)
      modifies this
      ensures View() == old(View()).(mode := RecordEffects(old(mode), svc, es))
    {
      if es != [] && mode.Recording? {
        var bytes := EncodeEffectList(es);
        var rec := InvokeEffects(|mode.log.replies|, svc, bytes);
        mode := Recording(mode.log.(invokeEffects := mode.log.invokeEffects + [rec]), mode.cap);
      }
    }

    method RecordAndWrite(depth: nat, buffer: nat, output: Bytes) returns (out: Bytes)
      modifies this
      ensures (out, View()) == Deliver(old(View()), depth, buffer, output)
      ensures buffer > 0 && |output| > buffer ==> out == [6]
      ensures !(buffer > 0 && |output| > buffer) ==>
                out == if depth == 1 && old(mode).Recording? && |output| > old(mode).cap then [2] else output
      ensures journal.View() == old(journal.View()) && rejected == old(rejected) && calls == old(calls)
      ensures depth == 1 && old(mode).Recording? ==>
                mode == Recording(old(mode).log.(replies := old(mode).log.replies + [out]), old(mode).cap)
      ensures !(depth == 1 && old(mode).Recording?) ==> mode == old(mode)
    {
      if buffer > 0 && |output| > buffer {
        RecordReply(depth, [StatusTooBig]);
        return [StatusTooBig];
      }
      if depth == 1 && mode.Recording? && |output| > mode.cap {
        RecordReply(depth, [StatusPanicked]);
        return [StatusPanicked];
      }
      RecordReply(depth, output);
      out := output;
    }

    /** The next recorded reply; asking for more than was recorded is remembered. */
    method NextReply() returns (r: Option<Bytes>)
      requires mode.Replaying?
      modifies this
      ensures var m := old(mode);
              if m.pos < |m.log.replies| then
                r == Some(m.log.replies[m.pos]) && View() == old(View()).(mode := m.(pos := m.pos + 1))
              else r.None? && View() == old(View()).(mode := m.(exhausted := true))
    {
      if mode.pos >= |mode.log.replies| {
        mode := mode.(exhausted := true);
        return None;
      }
      r := Some(mode.log.replies[mode.pos]);
      mode := mode.(pos := mode.pos + 1);
    }

    /** Replaying an invoke: the recorded reply, with its recorded effects folded in all together or not at all. */
    method ReplayInvoke() returns (out: Bytes)
      requires mode.Replaying?
      modifies this, journal
      ensures (out, View()) == ReplayNext(old(View()))
    {
      var pos, recs := mode.pos, mode.log.invokeEffects;
      var reply := NextReply();
      if reply.None? { return [StatusPanicked]; }
      var mine := SelectEffects(recs, pos);
      var decoded := DecodeRecords(mine);
      ReabsorbDecoded(journal.View(), mine);
      if decoded.None? { return [StatusPanicked]; }
      AbsorbRecords(decoded.value);
      out := reply.value;
    }

    method AbsorbRecords(lists: seq<(nat, seq<Effect>)>)
      modifies journal
      ensures View() == old(View()).(journal := AbsorbLists(old(journal.View()), lists))
    {
      for i := 0 to |lists|
        invariant View() == old(View()).(journal := AbsorbLists(old(journal.View()), lists[..i]))
      {
        journal.AbsorbEffects(lists[i].1, lists[i].0);
        assert lists[..i + 1][..i] == lists[..i];
      }
      assert lists[..|lists|] == lists;
    }

    // ---- Invokes ----

    method AnchorNow(c: Context, svc: nat, state: Option<Bytes>) returns (r: (byte, Bytes))
      ensures r == ExpectedAnchor(c, journal.View(), svc, state)
    {
      var root := journal.EffectiveRead(c.storage, svc, CommittedRootKey);
      if root.Some? && |root.value| == 32 { return (AnchorSmtRoot, root.value); }
      r := AnchorFor(c.hash, state);
    }

    method ResolveRows(c: Context, svc: nat, keys: seq<Bytes>) returns (rows: seq<(Bytes, Option<Bytes>)>)
      ensures rows == RowsFor(c, journal.View(), svc, keys)
    {
      rows := [];
      for i := 0 to |keys|
        invariant rows == RowsFor(c, journal.View(), svc, keys)[..i]
      {
        var value := journal.EffectiveRead(c.storage, svc, keys[i]);
        rows := rows + [(keys[i], value)];
      }
    }

    method TaskInvoke(c: Context, parent: nat, depth: nat, task: Task, a: Action) returns (out: Bytes)
      requires a.Invoke?
      modifies this, journal
      ensures (out, View()) == RunTask(c, parent, depth, task, a, old(View()))
    {
      var inp := c.split(a.input);
      var rows := ResolveRows(c, parent, inp.rowKeys);
      var packed := c.pack(inp.state, inp.msg, rows);
      if |packed| > task.capacity {
        out := RecordAndWrite(depth, a.buffer, [StatusTooBig]);
        return;
      }
      var es, raw := TaskOutput(c, a, packed, task.run(packed, Gas(a.gasLimit), TagOf(inp).Some?));
      RecordInvokeEffects(parent, es);
      journal.AbsorbEffects(es, parent);
      out := RecordAndWrite(depth, a.buffer, raw);
    }

    method ExternalInvoke(c: Context, depth: nat, a: Action) returns (out: Bytes)
      requires a.Invoke?
      modifies this
      ensures (out, View()) == CallExternal(c, depth, a, old(View()))
    {
      var (_, mail) := ChildInput(a.input);
      var reply := c.external(calls, TargetOf(a.code), if mail == [] then [] else mail[0]);
      calls := calls + 1;
      if reply.None? {
        out := RecordAndWrite(depth, a.buffer, [StatusNotFound]);
      } else {
        out := RecordAndWrite(depth, a.buffer, Envelope(reply.value.yielded, reply.value.state, reply.value.reply));
      }
    }

    /** After a service child's run: its work-result is checked and folded in, or all it journaled is dropped. */
    method FinishChild(c: Context, svc: nat, mark: Mark, prior: Bytes, exit: Exit) returns (out: Bytes)
      modifies this, journal
      ensures (out, View()) == ChildDone(c, svc, mark, prior, exit, old(View()))
    {
      if !exit.Halted? {
        journal.Rollback(mark);
        return [if exit.OutOfGas? then StatusOutOfGas else StatusPanicked];
      }
      var payload := DecodePayload(exit.output);
      if payload.None? {
        if ClaimsPayload(exit.output) {
          journal.Rollback(mark);
          return [StatusPanicked];
        }
        return exit.output;
      }
      var p := payload.value;
      var expected := AnchorNow(c, svc, Some(prior));
      if (p.anchorKind, p.anchor) != expected {
        journal.Rollback(mark);
        return [StatusPanicked];
      }
      var written, es := TakeStateWrite(p.effects);
      RecordInvokeEffects(svc, es);
      journal.AbsorbEffects(es, svc);
      out := Envelope(p.continueNext, if written.Some? then written.value else prior, p.reply);
    }

    method ServiceInvoke(c: Context, depth: nat, guest: Guest, a: Action) returns (out: Bytes)
      requires a.Invoke? && 0 < depth < MaxInvokeDepth
      modifies this, journal
      ensures (out, View()) == RunChild(c, depth, guest, a, old(View()))
      decreases MaxInvokeDepth - depth, DefaultGas + 1, 0
    {
      var svc := TargetOf(a.code);
      var mark := journal.CurrentMark();
      var (state, items) := ChildInput(a.input);
      if state != [] { journal.AbsorbEffect(Write(StateKey, state), svc); }
      var found := journal.EffectiveRead(c.storage, svc, StateKey);
      var prior := if found.Some? then found.value else [];
      var exit, left := RunRefine(c, guest, svc, depth, Gas(a.gasLimit), items, []);
      var raw := FinishChild(c, svc, mark, prior, exit);
      out := RecordAndWrite(depth, a.buffer, raw);
    }

    method HandleInvoke(c: Context, parent: nat, depth: nat, a: Action) returns (out: Bytes)
      requires a.Invoke? && depth > 0
      modifies this, journal
      ensures (out, View()) == RunInvoke(c, parent, depth, a, old(View()))
      decreases MaxInvokeDepth - depth, DefaultGas + 1, 1
    {
      var requested := c.split(a.input).recordRequested;
      if requested && !mode.Inactive? {
        rejected := true;
        out := RecordAndWrite(depth, a.buffer, [StatusPanicked]);
      } else if depth == 1 && mode.Replaying? {
        out := ReplayInvoke();
      } else if depth >= MaxInvokeDepth {
        out := RecordAndWrite(depth, a.buffer, [StatusOutOfGas]);
      } else if a.code in c.tasks {
        out := TaskInvoke(c, parent, depth, c.tasks[a.code], a);
      } else if requested {
        out := RecordAndWrite(depth, a.buffer, [StatusPanicked]);
      } else {
        var guest := Resolve(c, a.code);
        if guest.Some? {
          out := ServiceInvoke(c, depth, guest.value, a);
        } else if IsServiceCode(a.code) {
          out := ExternalInvoke(c, depth, a);
        } else {
          out := RecordAndWrite(depth, a.buffer, [StatusNotFound]);
        }
      }
    }

    // ---- The refine loop ----

    method HandleCall(c: Context, svc: nat, a: Action, items: seq<Bytes>) returns (obs: Obs, left: seq<Bytes>)
      modifies this, journal
      ensures (obs, View(), left) == HostCall(c, svc, a, old(View()), items)
      ensures a.Fetch? ==> obs == Item(if items == [] then [] else items[0]) && left == if items == [] then [] else items[1..]
      ensures !a.Fetch? ==> left == items
      ensures a.Read? ==> obs == Row(RowAt(Drain(c.storage, old(journal.writes)), svc, a.key))
      ensures a.Fetch? || a.Read? ==> View() == old(View())
      ensures a.Store? ==> obs.Acknowledged? && journal.writes == old(journal.writes) + [Entry(svc, a.key, Some(a.value))]
      ensures a.RecordIntent? && !old(mode).Inactive? ==> obs.Refused? && rejected
    {
      obs, left := Acknowledged, items;
      match a
      case Fetch =>
        if items == [] { obs := Item([]); } else { obs, left := Item(items[0]), items[1..]; }
      case Read(key) =>
        OverlayRefinesCommit(journal.View(), c.storage, svc, key);
        var value := journal.EffectiveRead(c.storage, svc, key);
        obs := Row(value);
      case Store(key, value) => journal.AbsorbEffect(Write(key, value), svc);
      case Send(target, memo) => journal.AbsorbEffect(Transfer(target, memo), svc);
      case Offer(hash, data) => journal.AbsorbEffect(Provide(hash, data), svc);
      case RecordIntent =>
        if !mode.Inactive? {
          rejected := true;
          obs := Refused;
        }
      case _ =>
    }

    /** Driving a guest from a given history to its halt. */
    method RunRefine(c: Context, guest: Guest, svc: nat, depth: nat, gas: nat, mail: seq<Bytes>, start: seq<Obs>) returns (exit: Exit, left: seq<Bytes>)
      requires depth < MaxInvokeDepth
      modifies this, journal
      ensures (exit, View(), left) == Run(c, guest, svc, depth, gas, old(View()), mail, start, None)
      decreases MaxInvokeDepth - depth, gas, 0
    {
      left := mail;
      var fuel, hist := gas, start;
      var saved: Option<seq<Obs>> := None;
      while fuel > 0
        invariant 0 <= fuel <= gas
        invariant Run(c, guest, svc, depth, fuel, View(), left, hist, saved) ==
                  Run(c, guest, svc, depth, gas, old(View()), mail, start, None)
      {
        fuel := fuel - 1;
        var a := guest(hist);
        if a.Halt? {
          return Halted(Clip(a.output), saved), left;
        } else if a.Trap? {
          return Panicked, left;
        } else if a.Suspend? {
          if depth > 0 {
            hist := hist + [Acknowledged];
          } else if saved.Some? {
            return Panicked, left;
          } else {
            saved, hist := Some(hist), hist + [Woken(false)];
          }
        } else if a.Invoke? {
          var out := HandleInvoke(c, svc, depth + 1, a);
          hist := hist + [Reply(out)];
        } else {
          var obs: Obs;
          obs, left := HandleCall(c, svc, a, left);
          hist := hist + [obs];
        }
      }
      exit := OutOfGas;
    }
  }

  // ---- Recorded effects ----

  function AbsorbLists(j: Journal, lists: seq<(nat, seq<Effect>)>): Journal {
    if lists == [] then j
    else AbsorbAll(AbsorbLists(j, lists[..|lists| - 1]), lists[|lists| - 1].1, lists[|lists| - 1].0)
  }

  function Decoded(recs: seq<InvokeEffects>): Option<seq<(nat, seq<Effect>)>> {
    if recs == [] then Some([])
    else
      match Decoded(recs[..|recs| - 1])
      case None => None
      case Some(lists) =>
        match DecodeEffects(recs[|recs| - 1].effects)
        case None => None
        case Some(es) => Some(lists + [(recs[|recs| - 1].svc, es)])
  }

  /** Decoding everything first and absorbing then is absorbing unless something does not decode. */
  lemma {:induction false} ReabsorbDecoded(j: Journal, recs: seq<InvokeEffects>)
    ensures Reabsorb(j, recs) == match Decoded(recs) { case None => None case Some(lists) => Some(AbsorbLists(j, lists)) }
  {
    if recs != [] {
      ReabsorbDecoded(j, recs[..|recs| - 1]);
      var lists, es := Decoded(recs[..|recs| - 1]), DecodeEffects(recs[|recs| - 1].effects);
      if lists.Some? && es.Some? {
        var all := lists.value + [(recs[|recs| - 1].svc, es.value)];
        assert all[..|all| - 1] == lists.value;
      }
    }
  }

  method SelectEffects(recs: seq<InvokeEffects>, idx: nat) returns (r: seq<InvokeEffects>)
    ensures r == EffectsFor(recs, idx)
  {
    r := [];
    for i := 0 to |recs|
      invariant r == EffectsFor(recs[..i], idx)
    {
      if recs[i].replyIdx == idx { r := r + [recs[i]]; }
      assert recs[..i + 1][..i] == recs[..i];
    }
    assert recs[..|recs|] == recs;
  }

  lemma {:induction false} DecodedStops(recs: seq<InvokeEffects>, i: nat)
    requires i <= |recs| && Decoded(recs[..i]).None?
    ensures Decoded(recs).None?
    decreases |recs| - i
  {
    if i == |recs| {
      assert recs[..i] == recs;
    } else {
      assert recs[..i + 1][..i] == recs[..i];
      DecodedStops(recs, i + 1);
    }
  }

  method DecodeRecords(recs: seq<InvokeEffects>) returns (r: Option<seq<(nat, seq<Effect>)>>)
    ensures r == Decoded(recs)
  {
    var lists: seq<(nat, seq<Effect>)> := [];
    for i := 0 to |recs|
      invariant Decoded(recs[..i]) == Some(lists)
    {
      assert recs[..i + 1][..i] == recs[..i];
      var es := DecodeEffectList(recs[i].effects);
      if es.None? {
        DecodedStops(recs, i + 1);
        return None;
      }
      lists := lists + [(recs[i].svc, es.value)];
    }
    assert recs[..|recs|] == recs;
    r := Some(lists);
  }

  /** Judging a Task's halt before anything of it is recorded or absorbed. */
  method TaskOutput(c: Context, a: Action, packed: Bytes, exit: TaskExit) returns (es: seq<Effect>, out: Bytes)
    requires a.Invoke?
    ensures (es, out) == TaskResult(c, a, packed, exit)
  {
    var inp := c.split(a.input);
    if exit.TaskPanic? { return [], [StatusPanicked]; }
    if exit.TaskOutOfGas? { return [], [StatusOutOfGas]; }
    var payload := DecodePayload(Clip(exit.output));
    if payload.None? || payload.value.version != V4 { return [], [StatusPanicked]; }
    var p := payload.value;
    if (p.anchorKind, p.anchor) != AnchorFor(c.hash, Some(inp.state)) { return [], [StatusPanicked]; }
    var written, rest := TakeStateWrite(p.effects);
    out := Envelope(p.continueNext, if written.Some? then written.value else inp.state, p.reply);
    var tag := TagOf(inp);
    if tag.None? { return rest, out; }
    if p.continueNext { return [], [StatusPanicked]; }
    if a.buffer > 0 && |out| > a.buffer { return [], out; }
    var row := c.proofRow(a.code, packed, p, exit.seal, tag.value);
    es := rest + [Write(row.0, row.1)];
  }
}
