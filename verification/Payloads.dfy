/**
 The work-result wire format: side effects, the refine payload that carries them, and
 the preimage of the digest that binds them.
 */
module Payloads {
  import opened Options
  import opened Ids
  import opened RowKeys
  import opened Codecs

  datatype Effect =
    | Write(key: Bytes, value: Bytes)
    | Transfer(target: nat, memo: Bytes)
    | Provide(hash: Bytes, data: Bytes)
    | New(codeHash: Bytes)
    | Delete(key: Bytes)

  function Tag(e: Effect): byte {
    match e
    case Write(_, _) => 1
    case Transfer(_, _) => 2
    case Provide(_, _) => 3
    case New(_) => 4
    case Delete(_) => 5
  }

  function Body(e: Effect): Bytes {
    match e
    case Write(key, value) => Blob(key, 2) + Blob(value, 4)
    case Transfer(target, memo) => LE(target, 4) + memo
    case Provide(hash, data) => hash + data
    case New(codeHash) => codeHash
    case Delete(key) => Blob(key, 2)
  }

  /** Lengths and numbers that survive their field's width; a state row is never deleted. */
  predicate FitsEffect(e: Effect) {
    && |Body(e)| < U32
    && match e
       case Write(key, value) => |key| < U16 && |value| < U32
       case Transfer(target, _) => target < U32
       case Provide(hash, _) => |hash| == 32
       case New(codeHash) => |codeHash| == 32
       case Delete(key) => |key| < U16 && key != StateKey
  }

  function PutEffect(e: Effect): Bytes { [Tag(e)] + Blob(Body(e), 4) }

  /** The effect a tag and a payload stand for; slack in the payload is refused. */
  function BodyOf(tag: byte, p: Bytes): Option<Effect> {
    match tag
    case 1 => (
      match TakeBlob(p, 2)
      case None => None
      case Some((key, r)) =>
        match TakeBlob(r, 4)
        case None => None
        case Some((value, slack)) => if slack == [] then Some(Write(key, value)) else None)
    case 2 => (
      match TakeLE(p, 4)
      case None => None
      case Some((target, memo)) => Some(Transfer(target, memo)))
    case 3 => (
      match TakeBytes(p, 32)
      case None => None
      case Some((hash, data)) => Some(Provide(hash, data)))
    case 4 => (
      match TakeBytes(p, 32)
      case None => None
      case Some((codeHash, slack)) => if slack == [] then Some(New(codeHash)) else None)
    case 5 => (
      match TakeBlob(p, 2)
      case None => None
      case Some((key, slack)) => if slack == [] && key != StateKey then Some(Delete(key)) else None)
    case _ => None
  }

  function TakeEffect(b: Bytes): Parsed<Effect> {
    if b == [] then None
    else
      match TakeBlob(b[1..], 4)
      case None => None
      case Some((p, rest)) =>
        match BodyOf(b[0], p)
        case None => None
        case Some(e) => Some((e, rest))
  }

  lemma BodySound(tag: byte, p: Bytes)
    requires BodyOf(tag, p).Some? && |p| < U32
    ensures var e := BodyOf(tag, p).value; FitsEffect(e) && Tag(e) == tag && Body(e) == p
  {
    Widths();
    if tag == 1 {
      var (key, r) := TakeBlob(p, 2).value;
      BlobExact(p, 2, key, r);
      BlobExact(r, 4, TakeBlob(r, 4).value.0, []);
    } else if tag == 2 {
      var (target, memo) := TakeLE(p, 4).value;
      LEExact(p, 4, target, memo);
    } else if tag == 5 {
      BlobExact(p, 2, TakeBlob(p, 2).value.0, []);
    }
  }

  lemma BodyComplete(e: Effect)
    requires FitsEffect(e)
    ensures BodyOf(Tag(e), Body(e)) == Some(e)
  {
    Widths();
    var p := Body(e);
    match e
    case Write(key, value) =>
      BlobExact(p, 2, key, Blob(value, 4));
      BlobExact(Blob(value, 4), 4, value, []);
      assert Blob(value, 4) + [] == Blob(value, 4);
    case Transfer(target, memo) => LEExact(p, 4, target, memo);
    case Provide(hash, data) => BytesExact(p, 32, hash, data);
    case New(codeHash) => assert p[..32] == p;
    case Delete(key) =>
      BlobExact(p, 2, key, []);
      assert Blob(key, 2) + [] == Blob(key, 2);
  }

  lemma EffectSound(b: Bytes)
    requires TakeEffect(b).Some?
    ensures var (e, rest) := TakeEffect(b).value; FitsEffect(e) && b == PutEffect(e) + rest
  {
    Widths();
    var (p, rest) := TakeBlob(b[1..], 4).value;
    BlobExact(b[1..], 4, p, rest);
    BodySound(b[0], p);
    assert b == [b[0]] + b[1..];
    assert [b[0]] + (Blob(p, 4) + rest) == [b[0]] + Blob(p, 4) + rest;
  }

  lemma TakeTagged(tag: byte, q: Bytes)
    ensures TakeEffect([tag] + q) ==
            match TakeBlob(q, 4) {
              case None => None
              case Some((p, rest)) => match BodyOf(tag, p) { case None => None case Some(e) => Some((e, rest)) }
            }
  {
    assert ([tag] + q)[1..] == q;
  }

  lemma EffectComplete(e: Effect, rest: Bytes)
    requires FitsEffect(e)
    ensures TakeEffect(PutEffect(e) + rest) == Some((e, rest))
  {
    Widths();
    var p := Body(e);
    var q := Blob(p, 4) + rest;
    assert PutEffect(e) + rest == [Tag(e)] + q;
    TakeTagged(Tag(e), q);
    BlobExact(q, 4, p, rest);
    BodyComplete(e);
  }

  /** The reader accepts exactly what the writer produces for an effect that fits. */
  lemma EffectExact(b: Bytes, e: Effect, rest: Bytes)
    ensures TakeEffect(b) == Some((e, rest)) <==> FitsEffect(e) && b == PutEffect(e) + rest
  {
    if TakeEffect(b).Some? { EffectSound(b); }
    if FitsEffect(e) { EffectComplete(e, rest); }
  }

  function EffectReader(): Reader<Effect> { TakeEffect }

  lemma EffectsExact()
    ensures Exact(EffectReader(), PutEffect, FitsEffect)
  {
    forall b, e, rest ensures EffectReader()(b) == Some((e, rest)) <==> FitsEffect(e) && b == PutEffect(e) + rest {
      EffectExact(b, e, rest);
    }
  }

  // ---- Effect lists ----

  predicate FitsEffects(es: seq<Effect>) { |es| < U16 && forall e :: e in es ==> FitsEffect(e) }

  function EncodeEffects(es: seq<Effect>): Bytes { LE(|es|, 2) + PutAll(PutEffect, es) }

  function TakeEffects(b: Bytes): Parsed<seq<Effect>> {
    match TakeLE(b, 2)
    case None => None
    case Some((n, r)) => TakeAll(EffectReader(), r, n)
  }

  lemma TakeEffectsExact(b: Bytes, es: seq<Effect>, rest: Bytes)
    ensures TakeEffects(b) == Some((es, rest)) <==> FitsEffects(es) && b == EncodeEffects(es) + rest
  {
    Widths();
    EffectsExact();
    var r := PutAll(PutEffect, es) + rest;
    assert EncodeEffects(es) + rest == LE(|es|, 2) + r;
    LEExact(b, 2, |es|, r);
    AllExact(EffectReader(), PutEffect, FitsEffect, r, |es|, es, rest);
    if TakeLE(b, 2).Some? {
      var (n, q) := TakeLE(b, 2).value;
      LEExact(b, 2, n, q);
      AllExact(EffectReader(), PutEffect, FitsEffect, q, n, es, rest);
    }
  }

  function DecodeEffects(b: Bytes): Option<seq<Effect>> {
    match TakeEffects(b)
    case None => None
    case Some((es, slack)) => if slack == [] then Some(es) else None
  }

  /** Effect lists round-trip, in both directions. */
  lemma DecodeEffectsExact(b: Bytes, es: seq<Effect>)
    ensures DecodeEffects(b) == Some(es) <==> FitsEffects(es) && b == EncodeEffects(es)
  {
    TakeEffectsExact(b, es, []);
    assert EncodeEffects(es) + [] == EncodeEffects(es);
  }
}
