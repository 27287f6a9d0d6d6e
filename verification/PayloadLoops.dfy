/** Writing and reading work-results in place, each step proved against its function. */
module PayloadLoops {
  import opened Options
  import opened Ids
  import opened RowKeys
  import opened Codecs
  import opened Payloads
  import opened WorkResults
  import opened Buffers

  method PushBody(out: Buffer, e: Effect)
    modifies out
    ensures out.data == old(out.data) + Body(e)
  {
    match e
    case Write(key, value) =>
      out.PushBlob(key, 2);
      out.PushBlob(value, 4);
      Assoc(old(out.data), Blob(key, 2), Blob(value, 4));
    case Transfer(target, memo) =>
      out.Extend(LE(target, 4));
      out.Extend(memo);
      Assoc(old(out.data), LE(target, 4), memo);
    case Provide(hash, data) =>
      out.Extend(hash);
      out.Extend(data);
      Assoc(old(out.data), hash, data);
    case New(codeHash) => out.Extend(codeHash);
    case Delete(key) => out.PushBlob(key, 2);
  }

  function BodyLength(e: Effect): nat {
    match e
    case Write(key, value) => 2 + |key| + 4 + |value|
    case Transfer(_, memo) => 4 + |memo|
    case Provide(hash, data) => |hash| + |data|
    case New(codeHash) => |codeHash|
    case Delete(key) => 2 + |key|
  }

  lemma BodyLengthIs(e: Effect)
    ensures BodyLength(e) == |Body(e)|
  {
  }

  method EncodeEffect(out: Buffer, e: Effect)
    modifies out
    ensures out.data == old(out.data) + PutEffect(e)
  {
    BodyLengthIs(e);
    ghost var start, body := out.data, Body(e);
    out.Push(Tag(e));
    out.Extend(LE(BodyLength(e), 4));
    PushBody(out, e);
    Assoc(start + [Tag(e)], LE(|body|, 4), body);
    Assoc(start, [Tag(e)], Blob(body, 4));
  }

  method PutEach(out: Buffer, es: seq<Effect>)
    modifies out
    ensures out.data == old(out.data) + PutAll(PutEffect, es)
  {
    assert es[..0] == [];
    for i := 0 to |es|
      invariant out.data == old(out.data) + PutAll(PutEffect, es[..i])
    {
      EncodeEffect(out, es[i]);
      PutAllSnoc(PutEffect, es, i, old(out.data));
    }
    assert es[..|es|] == es;
  }

  method EncodeAll(out: Buffer, es: seq<Effect>)
    modifies out
    ensures out.data == old(out.data) + EncodeEffects(es)
  {
    out.Extend(LE(|es|, 2));
    PutEach(out, es);
    Assoc(old(out.data), LE(|es|, 2), PutAll(PutEffect, es));
  }

  method EncodeEffectList(es: seq<Effect>) returns (b: Bytes)
    ensures b == EncodeEffects(es)
  {
    var out := new Buffer();
    EncodeAll(out, es);
    b := out.data;
  }

  method EncodePayload(p: Payload) returns (b: Bytes)
    ensures b == Encode(p)
  {
    var out := new Buffer();
    PushHeader(out, p);
    out.PushBlob(p.reply, 4);
    EncodeAll(out, p.effects);
    out.PushBlob(p.appPublic, 4);
    b := out.data;
    Reassociate([V4, FlagsOf(p), p.anchorKind], p.anchor, Blob(p.reply, 4), EncodeEffects(p.effects), Blob(p.appPublic, 4));
  }

  method PushHeader(out: Buffer, p: Payload)
    requires out.data == []
    modifies out
    ensures out.data == [V4, FlagsOf(p), p.anchorKind] + p.anchor
  {
    out.Push(V4);
    var flags: byte := 0;
    if p.continueNext { flags := flags + 1; }
    if p.forbidden { flags := flags + 2; }
    out.Push(flags);
    out.Push(p.anchorKind);
    out.Extend(p.anchor);
  }

  method TransitionPreimage(p: Payload) returns (b: Bytes)
    ensures b == Preimage(p)
  {
    var out := new Buffer();
    out.Push(p.version);
    out.Push(p.anchorKind);
    out.Extend(p.anchor);
    EncodeAll(out, p.effects);
    b := out.data;
    assert b == [p.version, p.anchorKind] + (p.anchor + EncodeEffects(p.effects));
  }

  // ---- Reading ----

  method DecodeBody(tag: byte, p: Bytes) returns (r: Option<Effect>)
    ensures r == BodyOf(tag, p)
  {
    var c := new Cursor(p);
    if tag == 1 {
      var key := c.ReadBlob(2);
      if key.None? { return None; }
      var value := c.ReadBlob(4);
      if value.None? { return None; }
      r := Some(Write(key.value, value.value));
    } else if tag == 2 {
      var target := c.ReadLE(4);
      if target.None? { return None; }
      var memo := c.ReadRemaining();
      r := Some(Transfer(target.value, memo));
    } else if tag == 3 {
      var hash := c.ReadBytes(32);
      if hash.None? { return None; }
      var data := c.ReadRemaining();
      r := Some(Provide(hash.value, data));
    } else if tag == 4 {
      var codeHash := c.ReadBytes(32);
      if codeHash.None? { return None; }
      r := Some(New(codeHash.value));
    } else if tag == 5 {
      var key := c.ReadBlob(2);
      if key.None? { return None; }
      if key.value == StateKey { return None; }
      r := Some(Delete(key.value));
    } else {
      return None;
    }
    if !c.IsExhausted() { return None; }
  }

  method DecodeEffect(c: Cursor) returns (r: Option<Effect>)
    requires c.Valid()
    modifies c
    ensures c.Valid() && Reads(TakeEffect(old(c.Rest())), r, c.Rest())
  {
    var tag := c.ReadBytes(1);
    if tag.None? { return None; }
    var p := c.ReadBlob(4);
    if p.None? { return None; }
    r := DecodeBody(tag.value[0], p.value);
  }

  /** A counted list of effects, read one after the other. */
  method DecodeAll(c: Cursor) returns (r: Option<seq<Effect>>)
    requires c.Valid()
    modifies c
    ensures c.Valid() && Reads(TakeEffects(old(c.Rest())), r, c.Rest())
  {
    var n := c.ReadLE(2);
    if n.None? { return None; }
    ghost var start := c.Rest();
    var es: seq<Effect> := [];
    for i := 0 to n.value
      invariant c.Valid() && TakeAll(EffectReader(), start, i) == Some((es, c.Rest()))
    {
      TakeAllNext(EffectReader(), start, i);
      var e := DecodeEffect(c);
      if e.None? {
        TakeAllStops(EffectReader(), start, i + 1, n.value);
        return None;
      }
      es := es + [e.value];
    }
    r := Some(es);
  }

  method DecodeEffectList(b: Bytes) returns (r: Option<seq<Effect>>)
    ensures r == DecodeEffects(b)
  {
    var c := new Cursor(b);
    r := DecodeAll(c);
    if r.Some? && !c.IsExhausted() { return None; }
  }

  method DecodePayload(b: Bytes) returns (r: Option<Payload>)
    ensures r == Decode(b)
  {
    if b == [] || (b[0] != V4 && b[0] != V3) { return None; }
    var c := new Cursor(b);
    var head := c.ReadBytes(3);
    if head.None? { return None; }
    var anchor := c.ReadBytes(32);
    if anchor.None? { return None; }
    var version, flags, kind := head.value[0], head.value[1], head.value[2];
    match kind {
      case 0 => if anchor.value != Zero32 { return None; }
      case 1 =>
      case 2 =>
      case _ => return None;
    }
    r := DecodeRest(c, version, flags, kind, anchor.value);
  }

  method DecodeRest(c: Cursor, version: byte, flags: byte, kind: byte, anchor: Bytes) returns (r: Option<Payload>)
    requires c.Valid()
    modifies c
    ensures r == DecodeFields(version, flags, kind, anchor, old(c.Rest()))
  {
    var reply := c.ReadBlob(4);
    if reply.None? { return None; }
    var effects := DecodeAll(c);
    if effects.None? { return None; }
    var appPublic: Option<Bytes> := Some([]);
    if version == V4 {
      appPublic := c.ReadBlob(4);
      if appPublic.None? { return None; }
    }
    if !c.IsExhausted() { return None; }
    r := Some(Payload(version, kind, anchor, reply.value, effects.value, appPublic.value, flags % 2 == 1, flags / 2 % 2 == 1));
  }

  /** The last state write wins, and every one of them is stripped. */
  method TakeStateWrite(effects: seq<Effect>) returns (state: Option<Bytes>, rest: seq<Effect>)
    ensures state == StateWritten(effects) && rest == WithoutState(effects)
  {
    state, rest := None, [];
    for i := 0 to |effects|
      invariant state == StateWritten(effects[..i]) && rest == WithoutState(effects[..i])
    {
      assert effects[..i + 1][..i] == effects[..i];
      if IsStateWrite(effects[i]) { state := Some(effects[i].value); } else { rest := rest + [effects[i]]; }
    }
    assert effects[..|effects|] == effects;
  }
}
