/** Writing and reading logs and events in place. */
module LogLoops {
  import opened Options
  import opened Ids
  import opened Codecs
  import opened Logs
  import opened LogCodecs
  import opened Buffers

  // ---- Writing ----

  method PushReplies(out: Buffer, xs: seq<Bytes>)
    modifies out
    ensures out.data == old(out.data) + PutCounted(PutReply, xs)
  {
    out.Extend(LE(|xs|, 8));
    ghost var start := out.data;
    assert xs[..0] == [] && start + [] == start;
    for i := 0 to |xs|
      invariant out.data == start + PutAll(PutReply, xs[..i])
    {
      out.PushBlob(xs[i], 8);
      PutAllSnoc(PutReply, xs, i, start);
    }
    assert xs[..|xs|] == xs;
    Assoc(old(out.data), LE(|xs|, 8), PutAll(PutReply, xs));
  }

  method PushRecord(out: Buffer, x: InvokeEffects)
    modifies out
    ensures out.data == old(out.data) + PutRecord(x)
  {
    ghost var start := out.data;
    out.Extend(LE(x.replyIdx, 8));
    out.Extend(LE(x.svc, 4));
    out.PushBlob(x.effects, 8);
    Assoc(start + LE(x.replyIdx, 8), LE(x.svc, 4), Blob(x.effects, 8));
    Assoc(start, LE(x.replyIdx, 8), LE(x.svc, 4) + Blob(x.effects, 8));
  }

  method PushRecords(out: Buffer, xs: seq<InvokeEffects>)
    modifies out
    ensures out.data == old(out.data) + PutCounted(PutRecord, xs)
  {
    out.Extend(LE(|xs|, 8));
    ghost var start := out.data;
    assert xs[..0] == [] && start + [] == start;
    for i := 0 to |xs|
      invariant out.data == start + PutAll(PutRecord, xs[..i])
    {
      PushRecord(out, xs[i]);
      PutAllSnoc(PutRecord, xs, i, start);
    }
    assert xs[..|xs|] == xs;
    Assoc(old(out.data), LE(|xs|, 8), PutAll(PutRecord, xs));
  }

  method PushStamp(out: Buffer, x: Stamp)
    modifies out
    ensures out.data == old(out.data) + PutStamp(x)
  {
    out.Push(x.kind);
    out.Extend(x.anchor);
    out.Extend(x.prefix);
    Assoc3(old(out.data), [x.kind], x.anchor, x.prefix);
  }

  lemma Assoc3(a: Bytes, b: Bytes, c: Bytes, d: Bytes)
    ensures a + b + c + d == a + (b + c + d)
  {
  }

  method PushId(out: Buffer, id: Bytes)
    modifies out
    ensures out.data == old(out.data) + PutId(id)
  {
    if id != ZeroId {
      out.Push(IdExtension);
      out.Extend(id);
      Assoc(old(out.data), [IdExtension], id);
    } else {
      assert out.data + [] == out.data;
    }
  }

  method LogToBytes(log: EffectLog) returns (b: Bytes)
    ensures b == ToBytes(log)
  {
    var out := new Buffer();
    out.PushBlob(log.msg, 8);
    PushReplies(out, log.replies);
    PushStamp(out, Stamp(log.anchorKind, log.anchor, log.callerPrefix));
    PushRecords(out, log.invokeEffects);
    PushId(out, log.invocationId);
    b := out.data;
    StartEmpty(Blob(log.msg, 8), PutCounted(PutReply, log.replies), PutStamp(Stamp(log.anchorKind, log.anchor, log.callerPrefix)),
               PutCounted(PutRecord, log.invokeEffects), PutId(log.invocationId));
  }

  lemma StartEmpty(a: Bytes, b: Bytes, c: Bytes, d: Bytes, e: Bytes)
    ensures [] + a + b + c + d + e == a + (b + (c + (d + e)))
  {
    assert [] + a == a;
    Reassociate(a, b, c, d, e);
  }

  method EventToBytes(e: CrdtEvent) returns (b: Bytes)
    ensures b == EventBytes(e)
  {
    var log := LogToBytes(e.log);
    var out := new Buffer();
    out.Push(EventVersion);
    out.Extend(e.origin);
    out.Extend(LE(e.seqNo, 8));
    out.Extend(log);
    b := out.data;
    StartEmpty([EventVersion], e.origin, LE(e.seqNo, 8), log, []);
    assert b + [] == b && log + [] == log;
  }

  // ---- Reading ----

  method ReadReplies(c: Cursor) returns (r: Option<seq<Bytes>>)
    requires c.Valid()
    modifies c
    ensures c.Valid() && Reads(TakeCounted(ReplyReader(), ReplyMin, old(c.Rest())), r, c.Rest())
  {
    var n := c.ReadLE(8);
    if n.None? { return None; }
    if n.value > (|c.buf| - c.pos) / 8 { return None; }
    ghost var start := c.Rest();
    var xs: seq<Bytes> := [];
    for i := 0 to n.value
      invariant c.Valid() && TakeAll(ReplyReader(), start, i) == Some((xs, c.Rest()))
    {
      TakeAllNext(ReplyReader(), start, i);
      var x := c.ReadBlob(8);
      if x.None? {
        TakeAllStops(ReplyReader(), start, i + 1, n.value);
        return None;
      }
      xs := xs + [x.value];
    }
    r := Some(xs);
  }

  method ReadRecord(c: Cursor) returns (r: Option<InvokeEffects>)
    requires c.Valid()
    modifies c
    ensures c.Valid() && Reads(TakeRecord(old(c.Rest())), r, c.Rest())
  {
    var replyIdx := c.ReadLE(8);
    if replyIdx.None? { return None; }
    var svc := c.ReadLE(4);
    if svc.None? { return None; }
    var effects := c.ReadBlob(8);
    if effects.None? { return None; }
    r := Some(InvokeEffects(replyIdx.value, svc.value, effects.value));
  }

  method ReadRecords(c: Cursor) returns (r: Option<seq<InvokeEffects>>)
    requires c.Valid()
    modifies c
    ensures c.Valid() && Reads(TakeCounted(RecordReader(), RecordMin, old(c.Rest())), r, c.Rest())
  {
    var n := c.ReadLE(8);
    if n.None? { return None; }
    if n.value > (|c.buf| - c.pos) / 20 { return None; }
    ghost var start := c.Rest();
    var xs: seq<InvokeEffects> := [];
    for i := 0 to n.value
      invariant c.Valid() && TakeAll(RecordReader(), start, i) == Some((xs, c.Rest()))
    {
      TakeAllNext(RecordReader(), start, i);
      var x := ReadRecord(c);
      if x.None? {
        TakeAllStops(RecordReader(), start, i + 1, n.value);
        return None;
      }
      xs := xs + [x.value];
    }
    r := Some(xs);
  }

  method ReadStamp(c: Cursor) returns (r: Option<Stamp>)
    requires c.Valid()
    modifies c
    ensures c.Valid() && Reads(TakeStamp(old(c.Rest())), r, c.Rest())
  {
    ghost var b := c.Rest();
    var kind := c.ReadBytes(1);
    if kind.None? { return None; }
    var anchor := c.ReadBytes(32);
    if anchor.None? { return None; }
    var prefix := c.ReadBytes(5);
    if prefix.None? { return None; }
    r := Some(Stamp(kind.value[0], anchor.value, prefix.value));
    assert b[1..][..32] == b[1..33] && b[1..][32..][..5] == b[33..38];
  }

  method ReadId(c: Cursor) returns (r: Option<Bytes>)
    requires c.Valid()
    modifies c
    ensures c.Valid() && r == TakeId(old(c.Rest()))
  {
    if c.IsExhausted() { return Some(ZeroId); }
    ghost var b := c.Rest();
    var ext := c.ReadBytes(1);
    if ext.None? || ext.value[0] != IdExtension { return None; }
    r := c.ReadBytes(32);
    if !c.IsExhausted() { return None; }
    assert r.Some? ==> r.value == b[1..];
  }

  method LogFromBytes(b: Bytes) returns (r: Option<EffectLog>)
    ensures r == FromBytes(b)
  {
    var c := new Cursor(b);
    var msg := c.ReadBlob(8);
    if msg.None? { return None; }
    var replies := ReadReplies(c);
    if replies.None? { return None; }
    var stamp := ReadStamp(c);
    if stamp.None? { return None; }
    var recs := ReadRecords(c);
    if recs.None? { return None; }
    var id := ReadId(c);
    if id.None? { return None; }
    r := Some(EffectLog(msg.value, replies.value, stamp.value.kind, stamp.value.anchor, stamp.value.prefix, recs.value, id.value));
  }

  method EventFromBytes(derive: (Bytes, nat) -> Bytes, b: Bytes) returns (r: Option<CrdtEvent>)
    ensures r == EventFrom(derive, b)
  {
    if |b| < 1 + 32 + 8 { return None; }
    if b[0] != EventVersion { return None; }
    var origin := b[1..33];
    var n := FromLE(b[33..41]);
    var log := LogFromBytes(b[41..]);
    if log.None? { return None; }
    var expected := derive(origin, n);
    if log.value.invocationId != ZeroId && log.value.invocationId != expected { return None; }
    r := Some(NewEvent(derive, origin, n, log.value));
  }
}
