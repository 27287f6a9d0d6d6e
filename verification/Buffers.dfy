/** A growing output, and how appending to it piece by piece adds up. */
module Buffers {
  import opened Ids
  import opened Codecs

  /** A growing output buffer. */
  class Buffer {
    var data: Bytes

    constructor ()
      ensures data == []
    {
      data := [];
    }

    method Push(x: byte)
      modifies this
      ensures data == old(data) + [x]
    {
      data := data + [x];
    }

    method Extend(x: Bytes)
      modifies this
      ensures data == old(data) + x
    {
      data := data + x;
    }

    method PushBlob(x: Bytes, w: nat)
      modifies this
      ensures data == old(data) + Blob(x, w)
    {
      Extend(LE(|x|, w));
      Extend(x);
      Assoc(old(data), LE(|x|, w), x);
    }
  }

  lemma Assoc(a: Bytes, b: Bytes, c: Bytes)
    ensures a + b + c == a + (b + c)
  {
  }

  lemma Reassociate(a: Bytes, b: Bytes, c: Bytes, d: Bytes, e: Bytes)
    ensures a + b + c + d + e == a + (b + (c + (d + e)))
  {
  }

  lemma PutAllSnoc<X>(put: X -> Bytes, xs: seq<X>, i: nat, start: Bytes)
    requires i < |xs|
    ensures start + PutAll(put, xs[..i]) + put(xs[i]) == start + PutAll(put, xs[..i + 1])
  {
    assert xs[..i + 1] == xs[..i] + [xs[i]];
    PutAllAppend(put, xs[..i], [xs[i]]);
    assert PutAll(put, [xs[i]]) == put(xs[i]) + [];
    Assoc(start, PutAll(put, xs[..i]), put(xs[i]));
  }
}
