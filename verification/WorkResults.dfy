/** The refine payload: what a dispatch halts with, and every host applies. */
module WorkResults {
  import opened Options
  import opened Ids
  import opened RowKeys
  import opened Codecs
  import opened Payloads

  const V3: byte := 3
  const V4: byte := 4

  const AnchorGenesis: byte := 0
  const AnchorStateHash: byte := 1
  const AnchorSmtRoot: byte := 2

  datatype Payload = Payload(
    version: byte,
    anchorKind: byte,
    anchor: Bytes,
    reply: Bytes,
    effects: seq<Effect>,
    appPublic: Bytes,
    continueNext: bool,
    forbidden: bool)

  function FlagsOf(p: Payload): byte {
    (if p.continueNext then 1 else 0) + if p.forbidden then 2 else 0
  }

  predicate AnchorOk(kind: byte, anchor: Bytes) {
    kind <= AnchorSmtRoot && (kind == AnchorGenesis ==> anchor == Zero32)
  }

  function PutPublic(version: byte, x: Bytes): Bytes { if version == V4 then Blob(x, 4) else [] }

  function TakePublic(version: byte, b: Bytes): Parsed<Bytes> {
    if version == V4 then TakeBlob(b, 4) else Some(([], b))
  }

  /** The bytes of a payload in its own version, under a given flag byte. */
  function Wire(p: Payload, flags: byte): Bytes {
    [p.version, flags, p.anchorKind] + (p.anchor + Fields(p))
  }

  /** Encoding always writes the current version. */
  function Encode(p: Payload): Bytes { Wire(p.(version := V4), FlagsOf(p)) }

  function Decode(b: Bytes): Option<Payload> {
    if |b| < 3 || (b[0] != V3 && b[0] != V4) then None
    else
      match TakeBytes(b[3..], 32)
      case None => None
      case Some((anchor, r)) =>
        if !AnchorOk(b[2], anchor) then None
        else DecodeFields(b[0], b[1], b[2], anchor, r)
  }

  function DecodeFields(version: byte, flags: byte, kind: byte, anchor: Bytes, b: Bytes): Option<Payload> {
    match TakeBlob(b, 4)
    case None => None
    case Some((reply, r)) =>
      match TakeEffects(r)
      case None => None
      case Some((effects, q)) =>
        match TakePublic(version, q)
        case None => None
        case Some((appPublic, slack)) =>
          if slack == [] then
            Some(Payload(version, kind, anchor, reply, effects, appPublic, flags % 2 == 1, flags / 2 % 2 == 1))
          else None
  }

  /** Exactly the payloads that decoding can return. */
  predicate WellFormed(p: Payload) {
    && (p.version == V3 || p.version == V4)
    && |p.anchor| == 32 && AnchorOk(p.anchorKind, p.anchor)
    && FitsFields(p)
  }

  lemma FlagBits(flags: byte, p: Payload)
    ensures flags % 4 == FlagsOf(p) <==> p.continueNext == (flags % 2 == 1) && p.forbidden == (flags / 2 % 2 == 1)
  {
  }

  /** What follows the anchor. */
  function Fields(p: Payload): Bytes {
    Blob(p.reply, 4) + (EncodeEffects(p.effects) + PutPublic(p.version, p.appPublic))
  }

  predicate FitsFields(p: Payload) {
    && |p.reply| < U32 && FitsEffects(p.effects)
    && if p.version == V4 then |p.appPublic| < U32 else p.appPublic == []
  }

  lemma PublicExact(version: byte, b: Bytes, x: Bytes)
    ensures TakePublic(version, b) == Some((x, [])) <==>
            (if version == V4 then |x| < U32 else x == []) && b == PutPublic(version, x)
  {
    Widths();
    BlobExact(b, 4, x, []);
    assert Blob(x, 4) + [] == Blob(x, 4);
  }

  lemma FieldsSound(version: byte, flags: byte, kind: byte, anchor: Bytes, b: Bytes)
    requires DecodeFields(version, flags, kind, anchor, b).Some?
    ensures var p := DecodeFields(version, flags, kind, anchor, b).value;
            && p.version == version && p.anchorKind == kind && p.anchor == anchor && FlagsOf(p) == flags % 4
            && FitsFields(p) && b == Fields(p)
  {
    Widths();
    FlagBits(flags, DecodeFields(version, flags, kind, anchor, b).value);
    var (reply, r) := TakeBlob(b, 4).value;
    BlobExact(b, 4, reply, r);
    var (effects, q) := TakeEffects(r).value;
    TakeEffectsExact(r, effects, q);
    PublicExact(version, q, TakePublic(version, q).value.0);
  }

  lemma FieldsComplete(p: Payload, flags: byte)
    requires FitsFields(p) && flags % 4 == FlagsOf(p)
    ensures DecodeFields(p.version, flags, p.anchorKind, p.anchor, Fields(p)) == Some(p)
  {
    Widths();
    FlagBits(flags, p);
    var q := PutPublic(p.version, p.appPublic);
    var r := EncodeEffects(p.effects) + q;
    BlobExact(Fields(p), 4, p.reply, r);
    TakeEffectsExact(r, p.effects, q);
    PublicExact(p.version, q, p.appPublic);
  }

  lemma DecodeSound(b: Bytes)
    requires Decode(b).Some?
    ensures var p := Decode(b).value; WellFormed(p) && b[1] % 4 == FlagsOf(p) && b == Wire(p, b[1])
  {
    var (anchor, r) := TakeBytes(b[3..], 32).value;
    FieldsSound(b[0], b[1], b[2], anchor, r);
    BytesExact(b[3..], 32, anchor, r);
    assert b == [b[0], b[1], b[2]] + b[3..];
  }

  lemma DecodeComplete(p: Payload, flags: byte)
    requires WellFormed(p) && flags % 4 == FlagsOf(p)
    ensures Decode(Wire(p, flags)) == Some(p)
  {
    var b := Wire(p, flags);
    assert b[0] == p.version && b[1] == flags && b[2] == p.anchorKind;
    assert b[3..] == p.anchor + Fields(p);
    BytesExact(b[3..], 32, p.anchor, Fields(p));
    FieldsComplete(p, flags);
  }

  /** What decoding accepts: the bytes of a well-formed payload, under any flag byte that says the same. */
  lemma DecodeExact(b: Bytes, p: Payload)
    ensures Decode(b) == Some(p) <==> WellFormed(p) && |b| >= 2 && b[1] % 4 == FlagsOf(p) && b == Wire(p, b[1])
  {
    if Decode(b).Some? { DecodeSound(b); }
    if WellFormed(p) && |b| >= 2 && b[1] % 4 == FlagsOf(p) { DecodeComplete(p, b[1]); }
  }

  lemma WireFlags(p: Payload, f: byte, g: byte)
    ensures |Wire(p, f)| >= 3 && Wire(p, f)[1] == f && Wire(p, f)[1 := g] == Wire(p, g)
  {
  }

  /** Decoding undoes encoding exactly for the well-formed payloads of the current version. */
  lemma RoundTrip(p: Payload)
    ensures Decode(Encode(p)) == Some(p) <==> WellFormed(p) && p.version == V4
    ensures WellFormed(p) && p.version == V3 ==> Decode(Encode(p)) == Some(p.(version := V4))
  {
    if Decode(Encode(p)) == Some(p) {
      DecodeSound(Encode(p));
      FirstByte(p, Encode(p)[1]);
      FirstByte(p.(version := V4), FlagsOf(p));
    }
    if WellFormed(p) { DecodeComplete(p.(version := V4), FlagsOf(p)); }
  }

  lemma FirstByte(p: Payload, flags: byte)
    ensures |Wire(p, flags)| >= 3 && Wire(p, flags)[0] == p.version
  {
  }

  /** Accepted current-version bytes re-encode to themselves, but for the unknown flag bits. */
  lemma Reencode(b: Bytes, p: Payload)
    requires Decode(b) == Some(p) && p.version == V4
    ensures |b| >= 2 && Encode(p) == b[1 := b[1] % 4]
    ensures Encode(p) == b <==> b[1] < 4
  {
    DecodeSound(b);
    ReencodeWire(p, b[1]);
  }

  lemma ReencodeWire(p: Payload, f: byte)
    requires p.version == V4 && f % 4 == FlagsOf(p)
    ensures |Wire(p, f)| >= 3 && Encode(p) == Wire(p, f)[1 := f % 4]
    ensures Encode(p) == Wire(p, f) <==> f < 4
  {
    var g := FlagsOf(p);
    WireFlags(p, f, g);
    WireFlags(p, g, g);
    assert Encode(p) == Wire(p, g);
    if f < 4 { assert f == g; } else { assert Wire(p, g)[1] != Wire(p, f)[1]; }
  }

  /** Two accepted strings that decode alike differ at most in unknown flag bits. */
  lemma DecodeInjective(b: Bytes, c: Bytes)
    requires Decode(b).Some? && Decode(b) == Decode(c)
    ensures |b| == |c| >= 2 && b[1] % 4 == c[1] % 4 && c == b[1 := c[1]]
  {
    DecodeExact(b, Decode(b).value);
    DecodeExact(c, Decode(b).value);
  }

  // ---- The digest ----

  /** What the transition digest is taken over: no flags, no reply, no app-level bytes. */
  function Preimage(p: Payload): Bytes {
    [p.version, p.anchorKind] + (p.anchor + EncodeEffects(p.effects))
  }

  /** Equal preimages of decoded payloads mean the same version, anchor and effects, so they apply alike. */
  lemma PreimageInjective(p: Payload, q: Payload)
    requires WellFormed(p) && WellFormed(q)
    ensures Preimage(p) == Preimage(q) <==>
            p.version == q.version && p.anchorKind == q.anchorKind && p.anchor == q.anchor && p.effects == q.effects
  {
    if Preimage(p) == Preimage(q) {
      var x, y := p.anchor + EncodeEffects(p.effects), q.anchor + EncodeEffects(q.effects);
      assert x == Preimage(p)[2..] && y == Preimage(q)[2..];
      assert Preimage(p)[0] == p.version && Preimage(q)[0] == q.version;
      assert Preimage(p)[1] == p.anchorKind && Preimage(q)[1] == q.anchorKind;
      BytesExact(x, 32, p.anchor, EncodeEffects(p.effects));
      BytesExact(x, 32, q.anchor, EncodeEffects(q.effects));
      DecodeEffectsExact(EncodeEffects(p.effects), p.effects);
      DecodeEffectsExact(EncodeEffects(q.effects), q.effects);
    }
  }

  function FoldedPublic(kind: byte, anchor: Bytes, digest: Bytes, appPublic: Bytes): Bytes {
    [kind] + anchor + digest + appPublic
  }

  lemma FoldedPublicInjective(k: byte, a: Bytes, d: Bytes, x: Bytes, k': byte, a': Bytes, d': Bytes, x': Bytes)
    requires |a| == |a'| == |d| == |d'| == 32
    requires FoldedPublic(k, a, d, x) == FoldedPublic(k', a', d', x')
    ensures k == k' && a == a' && d == d' && x == x'
  {
    var f, g := FoldedPublic(k, a, d, x), FoldedPublic(k', a', d', x');
    assert f[0] == k && f[1..33] == a && f[33..65] == d && f[65..] == x;
    assert g[0] == k' && g[1..33] == a' && g[33..65] == d' && g[65..] == x';
  }

  // ---- Anchors ----

  /** The commitment to a prior state; absent and empty state are both genesis. */
  function AnchorFor(hash: Bytes -> Bytes, state: Option<Bytes>): (byte, Bytes) {
    if state.Some? && state.value != [] then (AnchorStateHash, hash(state.value)) else (AnchorGenesis, Zero32)
  }

  /** An anchor pins the prior state it was taken of, up to an empty row being absent. */
  lemma AnchorPins(hash: Bytes -> Bytes, s: Option<Bytes>, t: Option<Bytes>)
    requires forall x, y :: hash(x) == hash(y) ==> x == y
    ensures AnchorFor(hash, s) == AnchorFor(hash, t) <==>
            (if s.Some? then s.value else []) == (if t.Some? then t.value else [])
  {
  }

  // ---- Splitting off the state write ----

  predicate IsStateWrite(e: Effect) { e.Write? && e.key == StateKey }

  function StateWritten(es: seq<Effect>): Option<Bytes> {
    if es == [] then None
    else if IsStateWrite(es[|es| - 1]) then Some(es[|es| - 1].value) else StateWritten(es[..|es| - 1])
  }

  function WithoutState(es: seq<Effect>): seq<Effect> {
    if es == [] then [] else WithoutState(es[..|es| - 1]) + if IsStateWrite(es[|es| - 1]) then [] else [es[|es| - 1]]
  }
}
