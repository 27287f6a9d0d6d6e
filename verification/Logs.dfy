/** The recorded dispatch and the replicated event that carries it. */
module Logs {
  import opened Ids
  import opened Codecs

  /** Side effects a child folded into the journal while the reply at `replyIdx` was produced. */
  datatype InvokeEffects = InvokeEffects(replyIdx: nat, svc: nat, effects: Bytes)

  datatype EffectLog = EffectLog(
    msg: Bytes,
    replies: seq<Bytes>,
    anchorKind: byte,
    anchor: Bytes,
    callerPrefix: Bytes,
    invokeEffects: seq<InvokeEffects>,
    invocationId: Bytes)

  datatype CrdtEvent = CrdtEvent(origin: Bytes, seqNo: nat, log: EffectLog)

  /** The all-zero invocation identity of a log that has not been stamped. */
  const ZeroId: Bytes := Zero32

  /** A fresh event: the log is stamped with the identity of its `(origin, seq)`. */
  function NewEvent(derive: (Bytes, nat) -> Bytes, origin: Bytes, n: nat, log: EffectLog): CrdtEvent {
    CrdtEvent(origin, n, log.(invocationId := derive(origin, n)))
  }
}
