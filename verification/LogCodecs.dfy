/** The stored form of recorded dispatches and replicated events. */
module LogCodecs {
  import opened Options
  import opened Ids
  import opened Codecs
  import opened Logs

  const ReplyMin: nat := 8
  const RecordMin: nat := 20
  const IdExtension: byte := 1

  // ---- Replies and invoke records ----

  predicate FitsReply(x: Bytes) { |x| < U64 }

  function PutReply(x: Bytes): Bytes { Blob(x, 8) }

  function TakeReply(b: Bytes): Parsed<Bytes> { TakeBlob(b, 8) }

  function ReplyReader(): Reader<Bytes> { TakeReply }

  lemma RepliesExact()
    ensures Exact(ReplyReader(), PutReply, FitsReply)
  {
    forall b, x, rest ensures ReplyReader()(b) == Some((x, rest)) <==> FitsReply(x) && b == PutReply(x) + rest {
      Widths();
      BlobExact(b, 8, x, rest);
    }
  }

  predicate FitsRecord(x: InvokeEffects) { x.replyIdx < U64 && x.svc < U32 && |x.effects| < U64 }

  function PutRecord(x: InvokeEffects): Bytes { LE(x.replyIdx, 8) + (LE(x.svc, 4) + Blob(x.effects, 8)) }

  function TakeRecord(b: Bytes): Parsed<InvokeEffects> {
    match TakeLE(b, 8)
    case None => None
    case Some((replyIdx, r)) =>
      match TakeLE(r, 4)
      case None => None
      case Some((svc, q)) =>
        match TakeBlob(q, 8)
        case None => None
        case Some((effects, rest)) => Some((InvokeEffects(replyIdx, svc, effects), rest))
  }

  lemma RecordSound(b: Bytes)
    requires TakeRecord(b).Some?
    ensures var (x, rest) := TakeRecord(b).value; FitsRecord(x) && b == PutRecord(x) + rest
  {
    Widths();
    var (replyIdx, r) := TakeLE(b, 8).value;
    LEExact(b, 8, replyIdx, r);
    var (svc, q) := TakeLE(r, 4).value;
    LEExact(r, 4, svc, q);
    var (effects, rest) := TakeBlob(q, 8).value;
    BlobExact(q, 8, effects, rest);
    Nest(LE(replyIdx, 8), LE(svc, 4), Blob(effects, 8), rest);
  }

  lemma Nest(a: Bytes, b: Bytes, c: Bytes, d: Bytes)
    ensures a + (b + (c + d)) == a + (b + c) + d
  {
  }

  lemma RecordComplete(x: InvokeEffects, rest: Bytes)
    requires FitsRecord(x)
    ensures TakeRecord(PutRecord(x) + rest) == Some((x, rest))
  {
    Widths();
    Nest(LE(x.replyIdx, 8), LE(x.svc, 4), Blob(x.effects, 8), rest);
    var q := Blob(x.effects, 8) + rest;
    var r := LE(x.svc, 4) + q;
    LEExact(PutRecord(x) + rest, 8, x.replyIdx, r);
    LEExact(r, 4, x.svc, q);
    BlobExact(q, 8, x.effects, rest);
  }

  function RecordReader(): Reader<InvokeEffects> { TakeRecord }

  lemma RecordsExact()
    ensures Exact(RecordReader(), PutRecord, FitsRecord)
  {
    forall b, x, rest ensures RecordReader()(b) == Some((x, rest)) <==> FitsRecord(x) && b == PutRecord(x) + rest {
      if TakeRecord(b).Some? { RecordSound(b); }
      if FitsRecord(x) { RecordComplete(x, rest); }
    }
  }

  // ---- Counted lists ----

  function PutCounted<X>(put: X -> Bytes, xs: seq<X>): Bytes { LE(|xs|, 8) + PutAll(put, xs) }

  /** A count that would run off the end of the input is refused before anything is read. */
  function TakeCounted<X>(take: Reader<X>, least: nat, b: Bytes): Parsed<seq<X>>
    requires least > 0
  {
    match TakeLE(b, 8)
    case None => None
    case Some((n, r)) => if n > |r| / least then None else TakeAll(take, r, n)
  }

  lemma MulLeDiv(n: nat, least: nat, len: nat)
    requires least > 0 && least * n <= len
    ensures n <= len / least
  {
    var q := len / least;
    assert least * (q + 1 - n) > 0;
  }

  /** The early refusal rejects nothing that would have been read. */
  lemma CountedExact<X(!new)>(take: Reader<X>, put: X -> Bytes, fits: X -> bool, least: nat, b: Bytes, xs: seq<X>, rest: Bytes)
    requires Exact(take, put, fits) && least > 0 && forall x :: |put(x)| >= least
    ensures TakeCounted(take, least, b) == Some((xs, rest)) <==>
            |xs| < U64 && (forall x :: x in xs ==> fits(x)) && b == PutCounted(put, xs) + rest
  {
    Widths();
    var r := PutAll(put, xs) + rest;
    assert PutCounted(put, xs) + rest == LE(|xs|, 8) + r;
    LEExact(b, 8, |xs|, r);
    AllExact(take, put, fits, r, |xs|, xs, rest);
    TakeAllLength(take, put, fits, r, |xs|, least);
    if least * |xs| <= |r| { MulLeDiv(|xs|, least, |r|); }
    if TakeLE(b, 8).Some? {
      var (n, q) := TakeLE(b, 8).value;
      LEExact(b, 8, n, q);
      AllExact(take, put, fits, q, n, xs, rest);
    }
  }

  // ---- The log ----

  function PutId(id: Bytes): Bytes { if id == ZeroId then [] else [IdExtension] + id }

  /** The trailing identity; its absence means zero, but an explicit zero is accepted too. */
  function TakeId(b: Bytes): Option<Bytes> {
    if b == [] then Some(ZeroId)
    else if b[0] != IdExtension || |b| != 33 then None
    else Some(b[1..])
  }

  lemma IdExact(b: Bytes, id: Bytes)
    ensures TakeId(b) == Some(id) <==> |id| == 32 && (b == [IdExtension] + id || (b == [] && id == ZeroId))
  {
    if b != [] { assert b == [b[0]] + b[1..]; }
    assert ([IdExtension] + id)[1..] == id;
  }

  datatype Stamp = Stamp(kind: byte, anchor: Bytes, prefix: Bytes)

  predicate FitsStamp(x: Stamp) { |x.anchor| == 32 && |x.prefix| == 5 }

  function PutStamp(x: Stamp): Bytes { [x.kind] + x.anchor + x.prefix }

  function TakeStamp(b: Bytes): Parsed<Stamp> {
    if |b| < 38 then None else Some((Stamp(b[0], b[1..33], b[33..38]), b[38..]))
  }

  lemma StampExact(b: Bytes, x: Stamp, rest: Bytes)
    ensures TakeStamp(b) == Some((x, rest)) <==> FitsStamp(x) && b == PutStamp(x) + rest
  {
    if |b| >= 38 { assert b == [b[0]] + b[1..33] + b[33..38] + b[38..]; }
    if FitsStamp(x) && b == PutStamp(x) + rest {
      assert b[0] == x.kind && b[1..33] == x.anchor && b[33..38] == x.prefix && b[38..] == rest;
    }
  }

  function LogWire(log: EffectLog, tail: Bytes): Bytes {
    Blob(log.msg, 8) + (PutCounted(PutReply, log.replies) +
    (PutStamp(Stamp(log.anchorKind, log.anchor, log.callerPrefix)) + (PutCounted(PutRecord, log.invokeEffects) + tail)))
  }

  function ToBytes(log: EffectLog): Bytes { LogWire(log, PutId(log.invocationId)) }

  function FromBytes(b: Bytes): Option<EffectLog> {
    match TakeBlob(b, 8)
    case None => None
    case Some((msg, r)) =>
      match TakeCounted(ReplyReader(), ReplyMin, r)
      case None => None
      case Some((replies, q)) =>
        match TakeStamp(q)
        case None => None
        case Some((stamp, s)) =>
          match TakeCounted(RecordReader(), RecordMin, s)
          case None => None
          case Some((recs, t)) =>
            match TakeId(t)
            case None => None
            case Some(id) => Some(EffectLog(msg, replies, stamp.kind, stamp.anchor, stamp.prefix, recs, id))
  }

  predicate Fits(log: EffectLog) {
    && |log.msg| < U64
    && |log.replies| < U64 && (forall x :: x in log.replies ==> FitsReply(x))
    && |log.anchor| == 32 && |log.callerPrefix| == 5
    && |log.invokeEffects| < U64 && (forall x :: x in log.invokeEffects ==> FitsRecord(x))
    && |log.invocationId| == 32
  }

  lemma TakeRepliesExact(b: Bytes, xs: seq<Bytes>, rest: Bytes)
    ensures TakeCounted(ReplyReader(), ReplyMin, b) == Some((xs, rest)) <==>
            |xs| < U64 && (forall x :: x in xs ==> FitsReply(x)) && b == PutCounted(PutReply, xs) + rest
  {
    RepliesExact();
    CountedExact(ReplyReader(), PutReply, FitsReply, ReplyMin, b, xs, rest);
  }

  lemma TakeRecordsExact(b: Bytes, xs: seq<InvokeEffects>, rest: Bytes)
    ensures TakeCounted(RecordReader(), RecordMin, b) == Some((xs, rest)) <==>
            |xs| < U64 && (forall x :: x in xs ==> FitsRecord(x)) && b == PutCounted(PutRecord, xs) + rest
  {
    RecordsExact();
    CountedExact(RecordReader(), PutRecord, FitsRecord, RecordMin, b, xs, rest);
  }

  lemma LogSound(b: Bytes)
    requires FromBytes(b).Some?
    ensures var log := FromBytes(b).value;
            Fits(log) && (b == LogWire(log, [IdExtension] + log.invocationId) || (log.invocationId == ZeroId && b == LogWire(log, [])))
  {
    Widths();
    var (msg, r) := TakeBlob(b, 8).value;
    BlobExact(b, 8, msg, r);
    var (replies, q) := TakeCounted(ReplyReader(), ReplyMin, r).value;
    TakeRepliesExact(r, replies, q);
    var (stamp, s) := TakeStamp(q).value;
    StampExact(q, stamp, s);
    var (recs, t) := TakeCounted(RecordReader(), RecordMin, s).value;
    TakeRecordsExact(s, recs, t);
    IdExact(t, TakeId(t).value);
  }

  lemma LogComplete(log: EffectLog, tail: Bytes)
    requires Fits(log) && TakeId(tail) == Some(log.invocationId)
    ensures FromBytes(LogWire(log, tail)) == Some(log)
  {
    Widths();
    var s := PutCounted(PutRecord, log.invokeEffects) + tail;
    var stamp := Stamp(log.anchorKind, log.anchor, log.callerPrefix);
    var q := PutStamp(stamp) + s;
    var r := PutCounted(PutReply, log.replies) + q;
    BlobExact(LogWire(log, tail), 8, log.msg, r);
    TakeRepliesExact(r, log.replies, q);
    StampExact(q, stamp, s);
    TakeRecordsExact(s, log.invokeEffects, tail);
  }

  /**
   A log is read back exactly from its own bytes, and besides them only from a spelling
   that writes out the zero identity the writer leaves out.
   */
  lemma LogExact(b: Bytes, log: EffectLog)
    ensures FromBytes(b) == Some(log) <==>
            Fits(log) && (b == ToBytes(log) || (log.invocationId == ZeroId && b == LogWire(log, [IdExtension] + ZeroId)))
  {
    if FromBytes(b).Some? { LogSound(b); }
    if Fits(log) {
      IdExact(PutId(log.invocationId), log.invocationId);
      IdExact([IdExtension] + log.invocationId, log.invocationId);
      LogComplete(log, PutId(log.invocationId));
      LogComplete(log, [IdExtension] + log.invocationId);
    }
  }

  /** What is stored is what is replayed. */
  lemma LogRoundTrip(log: EffectLog)
    ensures FromBytes(ToBytes(log)) == Some(log) <==> Fits(log)
  {
    LogExact(ToBytes(log), log);
  }

  /** The bytes after the effect records, where an identity may be written. */
  function IdPart(b: Bytes): Option<Bytes> {
    match TakeBlob(b, 8)
    case None => None
    case Some((_, r)) =>
      match TakeCounted(ReplyReader(), ReplyMin, r)
      case None => None
      case Some((_, q)) =>
        match TakeStamp(q)
        case None => None
        case Some((_, s)) =>
          match TakeCounted(RecordReader(), RecordMin, s)
          case None => None
          case Some((_, t)) => Some(t)
  }

  lemma IdPartOf(log: EffectLog, tail: Bytes)
    requires Fits(log)
    ensures IdPart(LogWire(log, tail)) == Some(tail)
  {
    Widths();
    var s := PutCounted(PutRecord, log.invokeEffects) + tail;
    var stamp := Stamp(log.anchorKind, log.anchor, log.callerPrefix);
    var q := PutStamp(stamp) + s;
    var r := PutCounted(PutReply, log.replies) + q;
    BlobExact(LogWire(log, tail), 8, log.msg, r);
    TakeRepliesExact(r, log.replies, q);
    StampExact(q, stamp, s);
    TakeRecordsExact(s, log.invokeEffects, tail);
  }

  /** Accepted bytes are written back as they were, exactly unless they spell out the zero identity. */
  lemma LogReencode(b: Bytes)
    requires FromBytes(b).Some?
    ensures ToBytes(FromBytes(b).value) == b <==> IdPart(b) != Some([IdExtension] + ZeroId)
  {
    var log := FromBytes(b).value;
    LogExact(b, log);
    IdPartOf(log, PutId(log.invocationId));
    IdPartOf(log, [IdExtension] + ZeroId);
  }

  // ---- Events ----

  const EventVersion: byte := 1

  predicate FitsEvent(e: CrdtEvent) { |e.origin| == 32 && e.seqNo < U64 && Fits(e.log) }

  function EventWire(origin: Bytes, n: nat, log: Bytes): Bytes { [EventVersion] + (origin + (LE(n, 8) + log)) }

  function EventBytes(e: CrdtEvent): Bytes { EventWire(e.origin, e.seqNo, ToBytes(e.log)) }

  function EventFrom(derive: (Bytes, nat) -> Bytes, b: Bytes): Option<CrdtEvent> {
    if |b| < 41 || b[0] != EventVersion then None
    else
      var origin, n := b[1..33], FromLE(b[33..41]);
      match FromBytes(b[41..])
      case None => None
      case Some(log) =>
        if log.invocationId != ZeroId && log.invocationId != derive(origin, n) then None
        else Some(NewEvent(derive, origin, n, log))
  }

  lemma EventHeader(b: Bytes)
    requires |b| >= 41 && b[0] == EventVersion
    ensures b == EventWire(b[1..33], FromLE(b[33..41]), b[41..]) && FromLE(b[33..41]) < U64
  {
    Widths();
    FromLEBound(b[33..41]);
    ToFromLE(b[33..41]);
    assert b == [b[0]] + (b[1..33] + (b[33..41] + b[41..]));
  }

  lemma EventParts(origin: Bytes, n: nat, log: Bytes)
    requires |origin| == 32 && n < U64
    ensures var b := EventWire(origin, n, log);
            |b| >= 41 && b[0] == EventVersion && b[1..33] == origin && FromLE(b[33..41]) == n && b[41..] == log
  {
    Widths();
    FromToLE(n, 8);
    var b := EventWire(origin, n, log);
    assert b[33..41] == LE(n, 8);
  }

  /** The three spellings of an event: stamped, unstamped, and unstamped with the zero written out. */
  ghost predicate Spells(b: Bytes, e: CrdtEvent) {
    || b == EventBytes(e)
    || b == EventWire(e.origin, e.seqNo, LogWire(e.log, []))
    || b == EventWire(e.origin, e.seqNo, LogWire(e.log, [IdExtension] + ZeroId))
  }

  lemma EventSound(derive: (Bytes, nat) -> Bytes, b: Bytes)
    requires (forall o, n :: |derive(o, n)| == 32) && EventFrom(derive, b).Some?
    ensures var e := EventFrom(derive, b).value;
            FitsEvent(e) && e.log.invocationId == derive(e.origin, e.seqNo) && Spells(b, e)
  {
    EventHeader(b);
    LogExact(b[41..], FromBytes(b[41..]).value);
  }

  lemma EventComplete(derive: (Bytes, nat) -> Bytes, e: CrdtEvent, log: EffectLog, b: Bytes)
    requires FitsEvent(e) && e.log.invocationId == derive(e.origin, e.seqNo)
    requires log == e.log || log == e.log.(invocationId := ZeroId)
    requires FromBytes(b) == Some(log)
    ensures EventFrom(derive, EventWire(e.origin, e.seqNo, b)) == Some(e)
  {
    EventParts(e.origin, e.seqNo, b);
  }

  lemma BareLog(log: EffectLog, tail: Bytes)
    requires Fits(log) && (tail == [] || tail == [IdExtension] + ZeroId)
    ensures FromBytes(LogWire(log, tail)) == Some(log.(invocationId := ZeroId))
  {
    IdExact(tail, ZeroId);
    LogComplete(log.(invocationId := ZeroId), tail);
  }

  lemma EventSpelled(derive: (Bytes, nat) -> Bytes, b: Bytes, e: CrdtEvent)
    requires FitsEvent(e) && e.log.invocationId == derive(e.origin, e.seqNo) && Spells(b, e)
    ensures EventFrom(derive, b) == Some(e)
  {
    if b == EventBytes(e) {
      LogRoundTrip(e.log);
      EventComplete(derive, e, e.log, ToBytes(e.log));
    } else {
      var tail := if b == EventWire(e.origin, e.seqNo, LogWire(e.log, [])) then [] else [IdExtension] + ZeroId;
      BareLog(e.log, tail);
      EventComplete(derive, e, e.log.(invocationId := ZeroId), LogWire(e.log, tail));
    }
  }

  /** Exactly what is read as an event: one of its spellings, carrying the identity of its place. */
  lemma EventExact(derive: (Bytes, nat) -> Bytes, b: Bytes, e: CrdtEvent)
    requires forall o, n :: |derive(o, n)| == 32
    ensures EventFrom(derive, b) == Some(e) <==>
            FitsEvent(e) && e.log.invocationId == derive(e.origin, e.seqNo) && Spells(b, e)
  {
    if EventFrom(derive, b) == Some(e) { EventSound(derive, b); }
    if FitsEvent(e) && e.log.invocationId == derive(e.origin, e.seqNo) && Spells(b, e) { EventSpelled(derive, b, e); }
  }

  /**
   An event is read back from its bytes exactly when its log carries the identity derived
   from `(origin, seq)`; a log stamped for another event is refused.
   */
  lemma EventRoundTrip(derive: (Bytes, nat) -> Bytes, e: CrdtEvent)
    requires forall o, n :: |derive(o, n)| == 32
    ensures EventFrom(derive, EventBytes(e)) == Some(e) <==>
            FitsEvent(e) && e.log.invocationId == derive(e.origin, e.seqNo)
  {
    if EventFrom(derive, EventBytes(e)).Some? { EventSound(derive, EventBytes(e)); }
    if FitsEvent(e) {
      EventParts(e.origin, e.seqNo, ToBytes(e.log));
      LogExact(ToBytes(e.log), e.log);
    }
  }

  /** A freshly appended event survives storage, whatever identity its log came with. */
  lemma AppendedRoundTrip(derive: (Bytes, nat) -> Bytes, origin: Bytes, n: nat, log: EffectLog)
    requires (forall o, n :: |derive(o, n)| == 32) && |origin| == 32 && n < U64 && Fits(log)
    ensures EventFrom(derive, EventBytes(NewEvent(derive, origin, n, log))) == Some(NewEvent(derive, origin, n, log))
    ensures log.invocationId == ZeroId ==>
              EventFrom(derive, EventWire(origin, n, ToBytes(log))) == Some(NewEvent(derive, origin, n, log))
  {
    EventRoundTrip(derive, NewEvent(derive, origin, n, log));
    EventParts(origin, n, ToBytes(log));
    LogExact(ToBytes(log), log);
  }

  /** Accepted event bytes are written back as they were exactly if their log carries its identity already. */
  lemma EventReencode(derive: (Bytes, nat) -> Bytes, b: Bytes)
    requires (forall o, n :: |derive(o, n)| == 32) && EventFrom(derive, b).Some?
    ensures var e := EventFrom(derive, b).value;
            EventBytes(e) == b <==> IdPart(b[41..]) == Some(PutId(derive(e.origin, e.seqNo)))
  {
    EventHeader(b);
    EventSound(derive, b);
    var e, log := EventFrom(derive, b).value, FromBytes(b[41..]).value;
    EventParts(e.origin, e.seqNo, ToBytes(e.log));
    LogExact(b[41..], log);
    IdPartOf(log, PutId(log.invocationId));
    IdPartOf(log, [IdExtension] + ZeroId);
    IdPartOf(e.log, PutId(e.log.invocationId));
  }
}
