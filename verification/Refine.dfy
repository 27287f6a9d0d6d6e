/**
 One refine: an arbitrary deterministic guest driven to its halt over the journal, with
 its invokes of Tasks, of other services and of external targets, live, recorded or
 replayed.
 */
module Refine {
  import opened Options
  import opened Ids
  import opened RowKeys
  import opened Codecs
  import opened Payloads
  import opened WorkResults
  import opened Logs
  import opened Journals

  const StatusDone: byte := 0
  const StatusYielded: byte := 1
  const StatusPanicked: byte := 2
  const StatusNotFound: byte := 3
  const StatusOutOfGas: byte := 4
  const StatusTooBig: byte := 6

  const MaxInvokeDepth: nat := 8
  const DefaultGas: nat := 100_000_000
  const MaxOutput: nat := 0x10_0000

  // ---- Guests ----

  /** What a guest asks of the host next. */
  datatype Action =
    | Fetch
    | Read(key: Bytes)
    | Store(key: Bytes, value: Bytes)
    | Send(target: nat, memo: Bytes)
    | Offer(hash: Bytes, data: Bytes)
    | Invoke(code: Bytes, input: Bytes, gasLimit: nat, buffer: nat)
    | RecordIntent
    | Suspend
    | Halt(output: Bytes)
    | Trap

  /** What it gets back. */
  datatype Obs =
    | Item(item: Bytes)
    | Row(value: Option<Bytes>)
    | Acknowledged
    | Refused
    | Reply(bytes: Bytes)
    | Woken(resumed: bool)

  /** A deterministic guest: what it has observed decides what it does. */
  type Guest = seq<Obs> -> Action

  /** How a Task run ends; `seal` is the io-hash it halts with. */
  datatype TaskExit = TaskHalt(output: Bytes, seal: Bytes) | TaskPanic | TaskOutOfGas

  /** A Task blob: the capacity of its witness buffer, and its run on a packed input, recorded or not. */
  datatype Task = Task(capacity: nat, run: (Bytes, nat, bool) -> TaskExit)

  datatype External = External(yielded: bool, state: Bytes, reply: Bytes)

  /** An invoke input, taken apart; a record can carry a tag only if it was requested. */
  datatype Input = Input(state: Bytes, rowKeys: seq<Bytes>, recordRequested: bool, recordTag: Option<Bytes>, msg: Bytes)

  function TagOf(inp: Input): Option<Bytes> { if inp.recordRequested then inp.recordTag else None }

  /** What stays the same during one service's refine. */
  datatype Context = Context(
    storage: Storage,
    tasks: map<Bytes, Task>,
    blobs: map<Bytes, Guest>,
    services: map<nat, Guest>,
    external: (nat, nat, Bytes) -> Option<External>,
    hash: Bytes -> Bytes,
    split: Bytes -> Input,
    pack: (Bytes, Bytes, seq<(Bytes, Option<Bytes>)>) -> Bytes,
    proofRow: (Bytes, Bytes, Payload, Bytes, Bytes) -> (Bytes, Bytes))

  // ---- Recording and replaying ----

  datatype Mode =
    | Inactive
    | Recording(log: EffectLog, cap: nat)
    | Replaying(log: EffectLog, pos: nat, exhausted: bool)

  /** What a refine changes: the journal, the session, the rejection bit, and how many external calls were made. */
  datatype State = State(journal: Journal, mode: Mode, rejected: bool, calls: nat)

  function Record(mode: Mode, depth: nat, reply: Bytes): Mode {
    if depth == 1 && mode.Recording? then Recording(mode.log.(replies := mode.log.replies + [reply]), mode.cap) else mode
  }

  function RecordEffects(mode: Mode, svc: nat, es: seq<Effect>): Mode {
    if es != [] && mode.Recording? then
      var rec := InvokeEffects(|mode.log.replies|, svc, EncodeEffects(es));
      Recording(mode.log.(invokeEffects := mode.log.invokeEffects + [rec]), mode.cap)
    else mode
  }

  /** Handing an output to the caller: cut to its buffer, then to the recording cap, and recorded as delivered. */
  function Deliver(s: State, depth: nat, buffer: nat, output: Bytes): (Bytes, State) {
    if buffer > 0 && |output| > buffer then ([StatusTooBig], s.(mode := Record(s.mode, depth, [StatusTooBig])))
    else if depth == 1 && s.mode.Recording? && |output| > s.mode.cap then
      ([StatusPanicked], s.(mode := Record(s.mode, depth, [StatusPanicked])))
    else (output, s.(mode := Record(s.mode, depth, output)))
  }

  function EffectsFor(recs: seq<InvokeEffects>, idx: nat): seq<InvokeEffects> {
    if recs == [] then []
    else EffectsFor(recs[..|recs| - 1], idx) + if recs[|recs| - 1].replyIdx == idx then [recs[|recs| - 1]] else []
  }

  /** The recorded effects of one reply folded back in, or nothing if any of them does not decode. */
  function Reabsorb(j: Journal, recs: seq<InvokeEffects>): Option<Journal> {
    if recs == [] then Some(j)
    else
      match Reabsorb(j, recs[..|recs| - 1])
      case None => None
      case Some(k) =>
        match DecodeEffects(recs[|recs| - 1].effects)
        case None => None
        case Some(es) => Some(AbsorbAll(k, es, recs[|recs| - 1].svc))
  }

  function ReplayNext(s: State): (Bytes, State)
    requires s.mode.Replaying?
  {
    var m := s.mode;
    if m.pos >= |m.log.replies| then ([StatusPanicked], s.(mode := m.(exhausted := true)))
    else
      var s' := s.(mode := m.(pos := m.pos + 1));
      match Reabsorb(s.journal, EffectsFor(m.log.invokeEffects, m.pos))
      case None => ([StatusPanicked], s')
      case Some(j) => (m.log.replies[m.pos], s'.(journal := j))
  }

  // ---- Anchors ----

  /** The anchor a work-result must carry for a service's effective prior state. */
  function ExpectedAnchor(c: Context, j: Journal, svc: nat, state: Option<Bytes>): (byte, Bytes) {
    match Effective(j, c.storage, svc, CommittedRootKey)
    case Some(root) => if |root| == 32 then (AnchorSmtRoot, root) else AnchorFor(c.hash, state)
    case None => AnchorFor(c.hash, state)
  }

  predicate ClaimsPayload(b: Bytes) { b != [] && 2 <= b[0] <= 4 }

  function Clip(b: Bytes): Bytes { if |b| > MaxOutput then b[..MaxOutput] else b }

  function Envelope(yielded: bool, state: Bytes, reply: Bytes): Bytes {
    [if yielded then StatusYielded else StatusDone] + Blob(state, 4) + reply
  }

  function Gas(limit: nat): nat { if limit == 0 || limit > DefaultGas then DefaultGas else limit }

  // ---- Tasks ----

  function RowsFor(c: Context, j: Journal, svc: nat, keys: seq<Bytes>): seq<(Bytes, Option<Bytes>)> {
    seq(|keys|, i requires 0 <= i < |keys| => (keys[i], Effective(j, c.storage, svc, keys[i])))
  }

  /** What a Task's halt is worth to its parent: the effects to fold in and the output, or a crash. */
  function TaskResult(c: Context, a: Action, packed: Bytes, exit: TaskExit): (seq<Effect>, Bytes)
    requires a.Invoke?
  {
    var inp := c.split(a.input);
    match exit
    case TaskPanic => ([], [StatusPanicked])
    case TaskOutOfGas => ([], [StatusOutOfGas])
    case TaskHalt(raw, seal) =>
      match Decode(Clip(raw))
      case None => ([], [StatusPanicked])
      case Some(p) =>
        if p.version != V4 || (p.anchorKind, p.anchor) != AnchorFor(c.hash, Some(inp.state)) then ([], [StatusPanicked])
        else
          var written, es := StateWritten(p.effects), WithoutState(p.effects);
          var out := Envelope(p.continueNext, if written.Some? then written.value else inp.state, p.reply);
          match TagOf(inp)
          case None => (es, out)
          case Some(tag) =>
            // A recorded Task completes and reaches its caller, or leaves nothing.
            if p.continueNext then ([], [StatusPanicked])
            else if a.buffer > 0 && |out| > a.buffer then ([], out)
            else
              var row := c.proofRow(a.code, packed, p, seal, tag);
              (es + [Write(row.0, row.1)], out)
  }

  function RunTask(c: Context, parent: nat, depth: nat, task: Task, a: Action, s: State): (Bytes, State)
    requires a.Invoke?
  {
    var inp := c.split(a.input);
    var packed := c.pack(inp.state, inp.msg, RowsFor(c, s.journal, parent, inp.rowKeys));
    if |packed| > task.capacity then Deliver(s, depth, a.buffer, [StatusTooBig])
    else
      var (es, out) := TaskResult(c, a, packed, task.run(packed, Gas(a.gasLimit), TagOf(inp).Some?));
      Deliver(s.(journal := AbsorbAll(s.journal, es, parent), mode := RecordEffects(s.mode, parent, es)), depth, a.buffer, out)
  }

  // ---- Service children ----

  predicate IsServiceCode(code: Bytes) {
    |code| == 32 && forall i :: 4 <= i < 32 ==> code[i] == 0
  }

  function TargetOf(code: Bytes): nat { if IsServiceCode(code) then FromLE(code[..4]) else 0 }

  /** The code an invoke resolves to, if this runtime holds it. */
  function Resolve(c: Context, code: Bytes): Option<Guest> {
    if code in c.blobs then Some(c.blobs[code])
    else if IsServiceCode(code) && TargetOf(code) in c.services then Some(c.services[TargetOf(code)])
    else None
  }

  /** The state and the mail a service child is given. */
  function ChildInput(input: Bytes): (Bytes, seq<Bytes>) {
    if |input| < 4 then ([], [input])
    else
      var n := FromLE(input[..4]);
      var end := if 4 + n < |input| then 4 + n else |input|;
      (input[4..end], if end < |input| then [input[end..]] else [])
  }

  /** The state is delivered through the journal, onto the child's own row. */
  function Delivered(j: Journal, svc: nat, state: Bytes): Journal {
    if state == [] then j else j.(writes := j.writes + [Entry(svc, StateKey, Some(state))])
  }

  /** What a service child's halt is worth: effects, output and whether its journal entries stand. */
  function ChildResult(c: Context, j: Journal, svc: nat, prior: Bytes, raw: Bytes): (bool, seq<Effect>, Bytes) {
    match Decode(raw)
    case None => if ClaimsPayload(raw) then (false, [], [StatusPanicked]) else (true, [], raw)
    case Some(p) =>
      if (p.anchorKind, p.anchor) != ExpectedAnchor(c, j, svc, Some(prior)) then (false, [], [StatusPanicked])
      else
        var written := StateWritten(p.effects);
        (true, WithoutState(p.effects), Envelope(p.continueNext, if written.Some? then written.value else prior, p.reply))
  }

  datatype Exit = Halted(output: Bytes, continuation: Option<seq<Obs>>) | OutOfGas | Panicked

  /** What is left of a child's run: all of it, folded together with its work-result, or nothing. */
  function ChildDone(c: Context, svc: nat, mark: Mark, prior: Bytes, exit: Exit, s: State): (Bytes, State) {
    match exit
    case Panicked => ([StatusPanicked], s.(journal := RollbackTo(s.journal, mark)))
    case OutOfGas => ([StatusOutOfGas], s.(journal := RollbackTo(s.journal, mark)))
    case Halted(raw, _) =>
      var (stands, es, out) := ChildResult(c, s.journal, svc, prior, raw);
      if !stands then (out, s.(journal := RollbackTo(s.journal, mark)))
      else (out, s.(journal := AbsorbAll(s.journal, es, svc), mode := RecordEffects(s.mode, svc, es)))
  }

  function RunChild(c: Context, depth: nat, guest: Guest, a: Action, s: State): (Bytes, State)
    requires a.Invoke? && 0 < depth < MaxInvokeDepth
    decreases MaxInvokeDepth - depth, DefaultGas + 1, 0
  {
    var svc, mark := TargetOf(a.code), MarkOf(s.journal);
    var (state, items) := ChildInput(a.input);
    var j := Delivered(s.journal, svc, state);
    var found := Effective(j, c.storage, svc, StateKey);
    var prior := if found.Some? then found.value else [];
    var (exit, s', _) := Run(c, guest, svc, depth, Gas(a.gasLimit), s.(journal := j), items, [], None);
    var (out, s'') := ChildDone(c, svc, mark, prior, exit, s');
    Deliver(s'', depth, a.buffer, out)
  }

  function CallExternal(c: Context, depth: nat, a: Action, s: State): (Bytes, State)
    requires a.Invoke?
  {
    var (_, mail) := ChildInput(a.input);
    var reply := c.external(s.calls, TargetOf(a.code), if mail == [] then [] else mail[0]);
    Deliver(s.(calls := s.calls + 1), depth, a.buffer,
            if reply.None? then [StatusNotFound] else Envelope(reply.value.yielded, reply.value.state, reply.value.reply))
  }

  /** One invoke, at the depth of the child it would run. */
  function RunInvoke(c: Context, parent: nat, depth: nat, a: Action, s: State): (Bytes, State)
    requires a.Invoke? && depth > 0
    decreases MaxInvokeDepth - depth, DefaultGas + 1, 1
  {
    if c.split(a.input).recordRequested && !s.mode.Inactive? then
      Deliver(s.(rejected := true), depth, a.buffer, [StatusPanicked])
    else if depth == 1 && s.mode.Replaying? then ReplayNext(s)
    else if depth >= MaxInvokeDepth then Deliver(s, depth, a.buffer, [StatusOutOfGas])
    else if a.code in c.tasks then RunTask(c, parent, depth, c.tasks[a.code], a, s)
    else if c.split(a.input).recordRequested then Deliver(s, depth, a.buffer, [StatusPanicked])
    else
      match Resolve(c, a.code)
      case Some(guest) => RunChild(c, depth, guest, a, s)
      case None =>
        if IsServiceCode(a.code) then CallExternal(c, depth, a, s)
        else Deliver(s, depth, a.buffer, [StatusNotFound])
  }

  // ---- The refine loop ----

  /** A hostcall that only touches the journal and the mail. */
  function HostCall(c: Context, svc: nat, a: Action, s: State, items: seq<Bytes>): (Obs, State, seq<Bytes>) {
    match a
    case Fetch => if items == [] then (Item([]), s, items) else (Item(items[0]), s, items[1..])
    case Read(key) => (Row(Effective(s.journal, c.storage, svc, key)), s, items)
    case Store(key, value) => (Acknowledged, s.(journal := Absorb(s.journal, Write(key, value), svc)), items)
    case Send(target, memo) => (Acknowledged, s.(journal := Absorb(s.journal, Transfer(target, memo), svc)), items)
    case Offer(hash, data) => (Acknowledged, s.(journal := Absorb(s.journal, Provide(hash, data), svc)), items)
    case RecordIntent => if s.mode.Inactive? then (Acknowledged, s, items) else (Refused, s.(rejected := true), items)
    case _ => (Acknowledged, s, items)
  }

  /**
   Driving a guest to its halt, at most one hostcall per unit of gas.  A suspension of a
   top-level guest snapshots its history: the live run goes on with `Woken(false)`, the
   snapshot will later go on with `Woken(true)`.  There is one suspension per slice.
   */
  function Run(c: Context, guest: Guest, svc: nat, depth: nat, gas: nat, s: State, items: seq<Bytes>, hist: seq<Obs>, saved: Option<seq<Obs>>)
    : (Exit, State, seq<Bytes>)
    requires depth < MaxInvokeDepth
    decreases MaxInvokeDepth - depth, gas, 0
  {
    if gas == 0 then (OutOfGas, s, items)
    else
      var a := guest(hist);
      match a
      case Halt(output) => (Halted(Clip(output), saved), s, items)
      case Trap => (Panicked, s, items)
      case Suspend =>
        if depth > 0 then Run(c, guest, svc, depth, gas - 1, s, items, hist + [Acknowledged], saved)
        else if saved.Some? then (Panicked, s, items)
        else Run(c, guest, svc, depth, gas - 1, s, items, hist + [Woken(false)], Some(hist))
      case Invoke(_, _, _, _) =>
        var (out, s') := RunInvoke(c, svc, depth + 1, a, s);
        Run(c, guest, svc, depth, gas - 1, s', items, hist + [Reply(out)], saved)
      case _ =>
        var (obs, s', items') := HostCall(c, svc, a, s, items);
        Run(c, guest, svc, depth, gas - 1, s', items', hist + [obs], saved)
  }
}
