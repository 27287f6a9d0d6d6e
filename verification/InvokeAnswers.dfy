/**
 What an invoke answers its caller, byte by byte: the status of everything that went wrong,
 the envelope of everything that went right, and what of it is recorded.
 */
module InvokeAnswers {
  import opened Options
  import opened Ids
  import opened RowKeys
  import opened Codecs
  import opened Payloads
  import opened WorkResults
  import opened Journals
  import opened Refine
  import opened StateRows

  // ---- Delivery ----

  /** What an invoke comes to before its caller's buffer and the recording cap are looked at. */
  function Outcome(c: Context, parent: nat, depth: nat, a: Action, s: State): (Bytes, State)
    requires a.Invoke? && depth > 0
  {
    var inp := c.split(a.input);
    if inp.recordRequested && !s.mode.Inactive? then ([2], s.(rejected := true))
    else if depth >= 8 then ([4], s)
    else if a.code in c.tasks then
      var packed := c.pack(inp.state, inp.msg, RowsFor(c, s.journal, parent, inp.rowKeys));
      if |packed| > c.tasks[a.code].capacity then ([6], s)
      else
        var (es, out) := TaskResult(c, a, packed, c.tasks[a.code].run(packed, Gas(a.gasLimit), inp.recordRequested && inp.recordTag.Some?));
        (out, s.(journal := AbsorbAll(s.journal, es, parent), mode := RecordEffects(s.mode, parent, es)))
    else if inp.recordRequested then ([2], s)
    else if a.code in c.blobs then ChildOutcome(c, depth, c.blobs[a.code], a, s)
    else if !IsServiceCode(a.code) then ([3], s)
    else if TargetOf(a.code) in c.services then ChildOutcome(c, depth, c.services[TargetOf(a.code)], a, s)
    else
      var (_, mail) := ChildInput(a.input);
      var r := c.external(s.calls, TargetOf(a.code), if mail == [] then [] else mail[0]);
      (if r.None? then [3] else [if r.value.yielded then 1 else 0] + LE(|r.value.state|, 4) + r.value.state + r.value.reply,
       s.(calls := s.calls + 1))
  }

  function ChildOutcome(c: Context, depth: nat, guest: Guest, a: Action, s: State): (Bytes, State)
    requires a.Invoke? && 0 < depth < 8
  {
    var (state, items) := ChildInput(a.input);
    var svc := TargetOf(a.code);
    var j := Delivered(s.journal, svc, state);
    var prior := Effective(j, c.storage, svc, StateKey);
    var (exit, s', _) := Run(c, guest, svc, depth, Gas(a.gasLimit), s.(journal := j), items, [], None);
    ChildDone(c, svc, MarkOf(s.journal), if prior.Some? then prior.value else [], exit, s')
  }

  /** An output that does not fit the buffer is told apart from one over the cap, whatever the cap. */
  function Cut(output: Bytes, depth: nat, buffer: nat, mode: Mode): Bytes {
    if buffer > 0 && |output| > buffer then [6]
    else if depth == 1 && mode.Recording? && |output| > mode.cap then [2]
    else output
  }

  /** `out` is handed to the caller for `raw`, and recorded at depth 1; nothing else changes. */
  ghost predicate HandedOut(raw: Bytes, t: State, depth: nat, buffer: nat, out: Bytes, s: State) {
    && out == Cut(raw, depth, buffer, t.mode)
    && s == t.(mode := if depth == 1 && t.mode.Recording? then Recording(t.mode.log.(replies := t.mode.log.replies + [out]), t.mode.cap) else t.mode)
  }

  lemma OutputHandedOut(t: State, depth: nat, buffer: nat, raw: Bytes)
    ensures var (out, s) := Deliver(t, depth, buffer, raw); HandedOut(raw, t, depth, buffer, out, s)
  {
  }

  lemma ExternalOutcome(c: Context, depth: nat, a: Action, s: State)
    requires a.Invoke?
    ensures var (_, mail) := ChildInput(a.input);
            var r := c.external(s.calls, TargetOf(a.code), if mail == [] then [] else mail[0]);
            CallExternal(c, depth, a, s) ==
            Deliver(s.(calls := s.calls + 1), depth, a.buffer,
                    if r.None? then [3] else [if r.value.yielded then 1 else 0] + LE(|r.value.state|, 4) + r.value.state + r.value.reply)
  {
    var (_, mail) := ChildInput(a.input);
    var r := c.external(s.calls, TargetOf(a.code), if mail == [] then [] else mail[0]);
    if r.Some? { EnvelopeBytes(r.value.yielded, r.value.state, r.value.reply); }
  }

  lemma EnvelopeBytes(yielded: bool, state: Bytes, reply: Bytes)
    ensures Envelope(yielded, state, reply) == [if yielded then 1 else 0] + LE(|state|, 4) + state + reply
  {
    Regroup([if yielded then 1 else 0], LE(|state|, 4), state, reply);
  }

  lemma Regroup(a: Bytes, b: Bytes, c: Bytes, d: Bytes)
    ensures a + (b + c) + d == a + b + c + d
  {
    assert a + (b + c) == a + b + c;
  }

  lemma OutcomeDelivered(c: Context, parent: nat, depth: nat, a: Action, s: State)
    requires a.Invoke? && depth > 0
    requires !(depth == 1 && s.mode.Replaying? && !c.split(a.input).recordRequested)
    ensures var (raw, t) := Outcome(c, parent, depth, a, s);
            RunInvoke(c, parent, depth, a, s) == Deliver(t, depth, a.buffer, raw)
  {
    ExternalOutcome(c, depth, a, s);
  }

  /**
   Every invoke that is not answered from a recording hands out its outcome: unless it is
   over the caller's buffer, then the status 6; or at depth 1 over the recording cap, then
   the status 2.  What is handed out at depth 1 is what is recorded.
   */
  lemma InvokeDelivers(c: Context, parent: nat, depth: nat, a: Action, s: State)
    requires a.Invoke? && depth > 0
    requires !(depth == 1 && s.mode.Replaying? && !c.split(a.input).recordRequested)
    ensures var (out, s') := RunInvoke(c, parent, depth, a, s);
            var (raw, t) := Outcome(c, parent, depth, a, s);
            HandedOut(raw, t, depth, a.buffer, out, s')
  {
    OutcomeDelivered(c, parent, depth, a, s);
    var (raw, t) := Outcome(c, parent, depth, a, s);
    OutputHandedOut(t, depth, a.buffer, raw);
  }

  /** An answer from a recording is the next recorded reply, or a crash once they are used up. */
  lemma InvokeReplays(c: Context, parent: nat, a: Action, s: State)
    requires a.Invoke? && s.mode.Replaying? && !c.split(a.input).recordRequested
    ensures var (out, s') := RunInvoke(c, parent, 1, a, s);
            var m := s.mode;
            && s'.rejected == s.rejected && s'.calls == s.calls
            && (m.pos >= |m.log.replies| ==> out == [2] && s'.journal == s.journal && s'.mode == m.(exhausted := true))
            && (m.pos < |m.log.replies| ==>
                  && s'.mode == m.(pos := m.pos + 1)
                  && (out == m.log.replies[m.pos] || (out == [2] && s'.journal == s.journal)))
  {
  }

  // ---- What a Task hands back ----

  /** The state row the effects would leave in a service whose state is `state`. */
  function StateLeft(es: seq<Effect>, state: Bytes): Bytes {
    var row := RowAt(Drain(map[0 := map[StateKey := state]], AbsorbAll(EmptyJournal, es, 0).writes), 0, StateKey);
    if row.Some? then row.value else []
  }

  lemma StateLeftIs(es: seq<Effect>, state: Bytes)
    requires forall e :: e in es ==> Sparing(e)
    ensures StateLeft(es, state) == if StateWritten(es).Some? then StateWritten(es).value else state
  {
    var rows: Storage := map[0 := map[StateKey := state]];
    StateWrittenIsLast(EmptyJournal, es, 0, rows);
    OverlayRefinesCommit(AbsorbAll(EmptyJournal, es, 0), rows, 0, StateKey);
    assert RowAt(rows, 0, StateKey) == Some(state);
  }

  /** `rest` does what `es` does, but for the state row, which it leaves alone. */
  ghost predicate AllButState(es: seq<Effect>, rest: seq<Effect>, svc: nat) {
    var j, k := AbsorbAll(EmptyJournal, es, svc), AbsorbAll(EmptyJournal, rest, svc);
    && k.transfers == j.transfers && k.preimages == j.preimages && k.selfMessages == j.selfMessages && k.newServices == j.newServices
    && (forall st: Storage, key :: key != StateKey ==> Effective(k, st, svc, key) == Effective(j, st, svc, key))
    && (forall st: Storage :: Effective(k, st, svc, StateKey) == RowAt(st, svc, StateKey))
  }

  lemma {:induction false} RestQueued(es: seq<Effect>, svc: nat)
    ensures var j, k := AbsorbAll(EmptyJournal, es, svc), AbsorbAll(EmptyJournal, WithoutState(es), svc);
            k.transfers == j.transfers && k.preimages == j.preimages && k.selfMessages == j.selfMessages && k.newServices == j.newServices
  {
    if es != [] {
      var n := |es| - 1;
      RestQueued(es[..n], svc);
      var rest := WithoutState(es[..n]);
      if IsStateWrite(es[n]) {
        assert WithoutState(es) == rest;
      } else {
        assert WithoutState(es) == rest + [es[n]] && (rest + [es[n]])[..|rest|] == rest;
      }
    }
  }

  lemma {:induction false} RestSparesState(es: seq<Effect>, svc: nat)
    requires forall e :: e in es ==> Sparing(e)
    ensures Journaled(AbsorbAll(EmptyJournal, WithoutState(es), svc).writes, svc, StateKey).None?
  {
    if es != [] {
      var n := |es| - 1;
      assert es[n] in es;
      RestSparesState(es[..n], svc);
      var rest := WithoutState(es[..n]);
      if IsStateWrite(es[n]) {
        assert WithoutState(es) == rest;
      } else {
        assert WithoutState(es) == rest + [es[n]] && (rest + [es[n]])[..|rest|] == rest;
        AbsorbedRow(AbsorbAll(EmptyJournal, rest, svc), es[n], svc, StateKey);
      }
    }
  }

  lemma RestIsAllButState(es: seq<Effect>, svc: nat)
    requires forall e :: e in es ==> Sparing(e)
    ensures AllButState(es, WithoutState(es), svc)
  {
    RestQueued(es, svc);
    RestSparesState(es, svc);
    forall st: Storage, key | key != StateKey
      ensures Effective(AbsorbAll(EmptyJournal, WithoutState(es), svc), st, svc, key) == Effective(AbsorbAll(EmptyJournal, es, svc), st, svc, key)
    {
      OthersUntouched(EmptyJournal, es, svc, key);
    }
  }

  /** A work-result in the current version that names the state its run was given. */
  predicate NamesState(hash: Bytes -> Bytes, raw: Bytes, state: Bytes) {
    var b := if |raw| > 0x10_0000 then raw[..0x10_0000] else raw;
    && Decode(b).Some? && Decode(b).value.version == 4
    && (Decode(b).value.anchorKind, Decode(b).value.anchor) == if state == [] then (0, Zero32) else (1, hash(state))
  }

  lemma TaskFails(c: Context, a: Action, packed: Bytes, exit: TaskExit)
    requires a.Invoke?
    requires !(exit.TaskHalt? && NamesState(c.hash, exit.output, c.split(a.input).state))
    ensures TaskResult(c, a, packed, exit) == ([], [if exit.TaskOutOfGas? then 4 else 2])
  {
  }

  /** The envelope a caller gets: whether to go on, the state with its length before it, the reply. */
  function Answer(p: Payload, state: Bytes): Bytes {
    [if p.continueNext then 1 else 0] + LE(|state|, 4) + state + p.reply
  }

  /**
   What a Task that halted well is worth to its parent: an envelope with the state its
   effects leave, and all its other effects.  A recorded one adds its proof row, unless it
   does not fit the buffer, then it leaves nothing; and it may not yield.
   */
  lemma TaskAnswers(c: Context, a: Action, packed: Bytes, raw: Bytes, seal: Bytes, svc: nat) returns (rest: seq<Effect>)
    requires a.Invoke? && NamesState(c.hash, raw, c.split(a.input).state)
    ensures var inp, p := c.split(a.input), Decode(if |raw| > 0x10_0000 then raw[..0x10_0000] else raw).value;
            var out := Answer(p, StateLeft(p.effects, inp.state));
            && AllButState(p.effects, rest, svc)
            && TaskResult(c, a, packed, TaskHalt(raw, seal)) ==
               if !(inp.recordRequested && inp.recordTag.Some?) then (rest, out)
               else if p.continueNext then ([], [2])
               else if a.buffer > 0 && |out| > a.buffer then ([], out)
               else
                 var row := c.proofRow(a.code, packed, p, seal, inp.recordTag.value);
                 (rest + [Write(row.0, row.1)], out)
  {
    var b := if |raw| > 0x10_0000 then raw[..0x10_0000] else raw;
    assert b == Clip(raw);
    var p := Decode(b).value;
    DecodedSpares(b);
    StateLeftIs(p.effects, c.split(a.input).state);
    rest := WithoutState(p.effects);
    RestIsAllButState(p.effects, svc);
    TaskShape(c, a, packed, raw, seal, p, StateLeft(p.effects, c.split(a.input).state));
  }

  lemma TaskShape(c: Context, a: Action, packed: Bytes, raw: Bytes, seal: Bytes, p: Payload, state: Bytes)
    requires a.Invoke? && Decode(Clip(raw)) == Some(p) && p.version == 4
    requires (p.anchorKind, p.anchor) == if c.split(a.input).state == [] then (0, Zero32) else (1, c.hash(c.split(a.input).state))
    requires state == if StateWritten(p.effects).Some? then StateWritten(p.effects).value else c.split(a.input).state
    ensures var inp, rest, out := c.split(a.input), WithoutState(p.effects), Answer(p, state);
            TaskResult(c, a, packed, TaskHalt(raw, seal)) ==
            if !(inp.recordRequested && inp.recordTag.Some?) then (rest, out)
            else if p.continueNext then ([], [2])
            else if a.buffer > 0 && |out| > a.buffer then ([], out)
            else
              var row := c.proofRow(a.code, packed, p, seal, inp.recordTag.value);
              (rest + [Write(row.0, row.1)], out)
  {
    EnvelopeBytes(p.continueNext, state, p.reply);
  }

  /** A decoded work-result never deletes the state row. */
  lemma DecodedSpares(b: Bytes)
    requires Decode(b).Some?
    ensures forall e :: e in Decode(b).value.effects ==> Sparing(e)
  {
    DecodeSound(b);
  }

  // ---- What a service child hands back ----

  /** The rows a child's work-result must name: its committed root, or its state. */
  function RowsNamed(c: Context, j: Journal, svc: nat, prior: Bytes): (byte, Bytes) {
    var root := RowAt(Drain(c.storage, j.writes), svc, CommittedRootKey);
    if root.Some? && |root.value| == 32 then (2, root.value) else if prior == [] then (0, Zero32) else (1, c.hash(prior))
  }

  /**
   A service child's output: opaque bytes go through as they are, a work-result that names
   the child's rows becomes an envelope with the state its effects leave, and anything else
   is a crash that leaves nothing.
   */
  lemma ChildAnswers(c: Context, j: Journal, svc: nat, prior: Bytes, raw: Bytes) returns (rest: seq<Effect>)
    ensures var p := Decode(raw);
            && (p.Some? ==> AllButState(p.value.effects, rest, svc))
            && ChildResult(c, j, svc, prior, raw) ==
               if p.None? && raw != [] && 2 <= raw[0] <= 4 then (false, [], [2])
               else if p.None? then (true, [], raw)
               else if (p.value.anchorKind, p.value.anchor) != RowsNamed(c, j, svc, prior) then (false, [], [2])
               else (true, rest, Answer(p.value, StateLeft(p.value.effects, prior)))
  {
    rest := [];
    NamedRows(c, j, svc, prior);
    if Decode(raw).Some? {
      var p := Decode(raw).value;
      DecodedSpares(raw);
      StateLeftIs(p.effects, prior);
      rest := WithoutState(p.effects);
      RestIsAllButState(p.effects, svc);
      EnvelopeBytes(p.continueNext, StateLeft(p.effects, prior), p.reply);
    }
  }

  lemma NamedRows(c: Context, j: Journal, svc: nat, prior: Bytes)
    ensures ExpectedAnchor(c, j, svc, Some(prior)) == RowsNamed(c, j, svc, prior)
  {
    OverlayRefinesCommit(j, c.storage, svc, CommittedRootKey);
  }

  /** A child that crashed or ran dry leaves the journal as it was. */
  lemma ChildCrashes(c: Context, svc: nat, j: Journal, more: Journal, prior: Bytes, exit: Exit, s: State)
    requires !exit.Halted? && s.journal == Concat(j, more)
    ensures ChildDone(c, svc, MarkOf(j), prior, exit, s) == ([if exit.OutOfGas? then 4 else 2], s.(journal := j))
  {
    RollbackUndoes(j, more);
  }

  // ---- What a child is given ----

  /** An invoke input: a state with its length before it, and a message. */
  lemma ChildGiven(state: Bytes, msg: Bytes)
    requires |state| < 0x1_0000_0000
    ensures ChildInput(LE(|state|, 4) + state + msg) == (state, if msg == [] then [] else [msg])
  {
    var b := LE(|state|, 4) + state + msg;
    Widths();
    FromToLE(|state|, 4);
    assert b[..4] == LE(|state|, 4);
    assert b[4..4 + |state|] == state && b[4 + |state|..] == msg;
    if msg == [] { assert b[4..] == state; }
  }

  /** A Task is shown the rows it names as its parent would read them. */
  lemma TaskSees(c: Context, j: Journal, svc: nat, keys: seq<Bytes>)
    ensures |RowsFor(c, j, svc, keys)| == |keys|
    ensures forall i :: 0 <= i < |keys| ==> RowsFor(c, j, svc, keys)[i] == (keys[i], RowAt(Drain(c.storage, j.writes), svc, keys[i]))
  {
    forall i | 0 <= i < |keys| ensures RowsFor(c, j, svc, keys)[i] == (keys[i], RowAt(Drain(c.storage, j.writes), svc, keys[i])) {
      OverlayRefinesCommit(j, c.storage, svc, keys[i]);
    }
  }

  /** No child gets more gas than the default, and one that names no limit gets all of it. */
  lemma GasGiven(limit: nat)
    ensures Gas(limit) == if 0 < limit <= 100_000_000 then limit else 100_000_000
  {
  }

  /** Input too short to hold a length is all message. */
  lemma ShortInput(input: Bytes)
    requires |input| < 4
    ensures ChildInput(input) == ([], [input])
  {
  }

  /** The code that stands for a service is its number, least significant byte first, and zeros. */
  lemma ServiceCode(code: Bytes, svc: nat)
    ensures IsServiceCode(code) && TargetOf(code) == svc && svc < 0x1_0000_0000 <==> svc < 0x1_0000_0000 && code == LE(svc, 4) + LE(0, 28)
  {
    Widths();
    ZeroBytes(28);
    if IsServiceCode(code) {
      ToFromLE(code[..4]);
      assert code == code[..4] + code[4..] && code[4..] == LE(0, 28);
    }
    if svc < 0x1_0000_0000 && code == LE(svc, 4) + LE(0, 28) {
      FromToLE(svc, 4);
      assert code[..4] == LE(svc, 4);
      forall i | 4 <= i < 32 ensures code[i] == 0 { assert code[i] == LE(0, 28)[i - 4]; }
    }
  }

  lemma {:induction false} ZeroBytes(w: nat)
    ensures forall i :: 0 <= i < w ==> LE(0, w)[i] == 0
  {
    if w > 0 { ZeroBytes(w - 1); }
  }

  /** The state a child is given is the state it reads. */
  lemma DeliveredState(c: Context, j: Journal, svc: nat, state: Bytes)
    ensures Effective(Delivered(j, svc, state), c.storage, svc, StateKey) ==
            if state == [] then Effective(j, c.storage, svc, StateKey) else Some(state)
  {
  }
}
