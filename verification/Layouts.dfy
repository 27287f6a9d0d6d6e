/** The stored and transmitted bytes, field by field. */
module Layouts {
  import opened Ids
  import opened RowKeys
  import opened Codecs
  import opened Payloads
  import opened WorkResults
  import opened Logs
  import opened LogCodecs
  import opened Dags
  import opened RootRows
  import opened Rebuilds

  // ---- Numbers ----

  /** `n` divided by 256 `i` times. */
  function Shifted(n: nat, i: nat): nat { if i == 0 then n else Shifted(n / 256, i - 1) }

  /** Byte `i` of a number is its digit `i` to the base 256, the least significant first. */
  lemma {:induction false} Digit(n: nat, w: nat, i: nat)
    requires i < w
    ensures LE(n, w)[i] as nat == Shifted(n, i) % 256
  {
    if i > 0 { Digit(n / 256, w - 1, i - 1); }
  }

  // ---- Effects ----

  lemma Flat(a: Bytes, b: Bytes, c: Bytes, d: Bytes, e: Bytes, f: Bytes)
    ensures a + (b + ((c + d) + (e + f))) == a + b + c + d + e + f
    ensures a + (b + (c + d)) == a + b + c + d
  {
    assert a + (b + ((c + d) + (e + f))) == a + b + (c + d) + (e + f);
    assert a + b + (c + d) + (e + f) == a + b + c + d + e + f;
  }

  /** The fields of an effect, one after the other. */
  function FieldsOf(e: Effect): seq<Bytes> {
    match e
    case Write(key, value) => [LE(|key|, 2), key, LE(|value|, 4), value]
    case Transfer(target, memo) => [LE(target, 4), memo]
    case Provide(hash, data) => [hash, data]
    case New(codeHash) => [codeHash]
    case Delete(key) => [LE(|key|, 2), key]
  }

  function Joined(fields: seq<Bytes>): Bytes { if fields == [] then [] else fields[0] + Joined(fields[1..]) }

  lemma JoinedUpToFour(a: Bytes, b: Bytes, c: Bytes, d: Bytes)
    ensures Joined([a]) == a && Joined([a, b]) == a + b && Joined([a, b, c, d]) == (a + b) + (c + d)
  {
    assert [a][1..] == [] && [a, b][1..] == [b] && [b][1..] == [] && [a, b, c, d][1..] == [b, c, d];
    assert [b, c, d][1..] == [c, d] && [c, d][1..] == [d] && [d][1..] == [];
    assert Joined([d]) == d && Joined([c, d]) == c + d && Joined([b, c, d]) == b + (c + d);
    assert a + (b + (c + d)) == (a + b) + (c + d);
  }

  /** An effect is a tag, the length of the rest, and its fields. */
  lemma EffectBytes(e: Effect)
    ensures PutEffect(e) ==
            [match e case Write(_, _) => 1 case Transfer(_, _) => 2 case Provide(_, _) => 3 case New(_) => 4 case Delete(_) => 5]
            + (LE(|Joined(FieldsOf(e))|, 4) + Joined(FieldsOf(e)))
  {
    BodyJoined(e);
  }

  lemma BodyJoined(e: Effect)
    ensures Body(e) == Joined(FieldsOf(e))
  {
    match e
    case Write(key, value) => JoinedUpToFour(LE(|key|, 2), key, LE(|value|, 4), value);
    case Transfer(target, memo) => JoinedUpToFour(LE(target, 4), memo, [], []);
    case Provide(hash, data) => JoinedUpToFour(hash, data, [], []);
    case New(codeHash) => JoinedUpToFour(codeHash, [], [], []);
    case Delete(key) => JoinedUpToFour(LE(|key|, 2), key, [], []);
  }

  // ---- Work-results ----

  lemma Flat7(a: Bytes, b: Bytes, c: Bytes, d: Bytes, e: Bytes, f: Bytes, g: Bytes)
    ensures a + (b + ((c + d) + (e + (f + g)))) == a + b + c + d + e + f + g
  {
    Flat(a, b, c, d, e, f + g);
    assert a + b + c + d + e + (f + g) == a + b + c + d + e + f + g;
  }

  /** A work-result: version 4, the flags, the anchor, then reply, effects and public bytes. */
  lemma PayloadBytes(p: Payload)
    ensures Encode(p) ==
            [4, (if p.continueNext then 1 else 0) + (if p.forbidden then 2 else 0), p.anchorKind] + p.anchor
            + LE(|p.reply|, 4) + p.reply + EncodeEffects(p.effects) + LE(|p.appPublic|, 4) + p.appPublic
  {
    Flat7([4, FlagsOf(p), p.anchorKind], p.anchor, LE(|p.reply|, 4), p.reply, EncodeEffects(p.effects), LE(|p.appPublic|, 4), p.appPublic);
  }

  /** What the transition digest binds: version, anchor and effects. */
  lemma DigestBytes(p: Payload)
    ensures Preimage(p) == [p.version, p.anchorKind] + p.anchor + EncodeEffects(p.effects)
  {
    assert [p.version, p.anchorKind] + (p.anchor + EncodeEffects(p.effects)) == [p.version, p.anchorKind] + p.anchor + EncodeEffects(p.effects);
  }

  // ---- Lists ----

  /** The items of a list follow one another. */
  lemma {:induction false} ItemsFollow<X>(put: X -> Bytes, xs: seq<X>, x: X)
    ensures PutAll(put, xs + [x]) == PutAll(put, xs) + put(x)
  {
    if xs == [] {
      assert xs + [x] == [x] && [x][1..] == [];
    } else {
      assert (xs + [x])[1..] == xs[1..] + [x];
      ItemsFollow(put, xs[1..], x);
    }
  }

  /** Effects, recorded replies, recorded effects and roots are preceded by their number. */
  lemma CountsFirst(es: seq<Effect>, replies: seq<Bytes>, recs: seq<InvokeEffects>, roots: set<Cid>)
    ensures EncodeEffects(es) == LE(|es|, 2) + PutAll(PutEffect, es)
    ensures PutCounted(PutReply, replies) == LE(|replies|, 8) + PutAll(PutReply, replies)
    ensures PutCounted(PutRecord, recs) == LE(|recs|, 8) + PutAll(PutRecord, recs)
    ensures EncodeRoots(roots) == LE(|roots|, 8) + PutAll(PutCid, CidsInOrder(roots))
  {
    InOrderSorted(roots);
  }

  // ---- Logs and events ----

  lemma Flat8(a: Bytes, b: Bytes, c: Bytes, d: Bytes, e: Bytes, f: Bytes, g: Bytes, h: Bytes)
    ensures (a + b) + (c + ((d + e + f) + (g + h))) == a + b + c + d + e + f + g + h
  {
    assert (a + b) + (c + ((d + e + f) + (g + h))) == a + b + c + (d + e + f) + (g + h);
    assert a + b + c + (d + e + f) == a + b + c + d + e + f;
  }

  /** A log: message, replies, anchor, caller, recorded effects, and the identity unless it is zero. */
  lemma LogBytes(log: EffectLog)
    ensures ToBytes(log) ==
            LE(|log.msg|, 8) + log.msg + PutCounted(PutReply, log.replies) + [log.anchorKind] + log.anchor + log.callerPrefix
            + PutCounted(PutRecord, log.invokeEffects) + if log.invocationId == Zero32 then [] else [1] + log.invocationId
  {
    Flat8(LE(|log.msg|, 8), log.msg, PutCounted(PutReply, log.replies), [log.anchorKind], log.anchor, log.callerPrefix,
          PutCounted(PutRecord, log.invokeEffects), PutId(log.invocationId));
  }

  lemma RecordBytes(x: InvokeEffects)
    ensures PutRecord(x) == LE(x.replyIdx, 8) + LE(x.svc, 4) + LE(|x.effects|, 8) + x.effects
  {
    Flat(LE(x.replyIdx, 8), LE(x.svc, 4), LE(|x.effects|, 8), x.effects, [], []);
  }

  lemma ReplicatedEventBytes(e: CrdtEvent)
    ensures EventBytes(e) == [1] + e.origin + LE(e.seqNo, 8) + ToBytes(e.log)
  {
    Flat([1], e.origin, LE(e.seqNo, 8), ToBytes(e.log), [], []);
  }

  /** A dispatched item: the marker 0xFD, the caller, the identity, the message. */
  lemma ItemBytes(log: EffectLog)
    requires |log.callerPrefix| == 5 && |log.invocationId| == 32 && log.msg != []
    ensures var b := ReplayItem(log);
            |b| == 38 + |log.msg| && b[0] == 0xFD && b[1..6] == log.callerPrefix && b[6..38] == log.invocationId && b[38..] == log.msg
  {
  }

  // ---- Reserved rows ----

  /** The keys of the state row and of the committed root. */
  lemma ReservedKeys()
    ensures |StateKey| == |"__vos_actor_state"| && forall i :: 0 <= i < |StateKey| ==> StateKey[i] as int == "__vos_actor_state"[i] as int
    ensures |CommittedRootKey| == |"__vos_committed_root"| && forall i :: 0 <= i < |CommittedRootKey| ==> CommittedRootKey[i] as int == "__vos_committed_root"[i] as int
  {
  }
}
