/**
 The building blocks of the wire formats: little-endian numbers, length-prefixed blobs
 and counted lists.  Every reader is exact: it accepts precisely the bytes the writer
 produces for a value that fits, followed by anything.
 */
module Codecs {
  import opened Options
  import opened Ids

  const U16: nat := 0x1_0000

  const Zero32: Bytes := LE(0, 32)

  /** What a reader makes of its input: a value and the unread rest. */
  type Parsed<+X> = Option<(X, Bytes)>

  function Pow256(w: nat): nat { if w == 0 then 1 else 256 * Pow256(w - 1) }

  lemma Widths()
    ensures Pow256(2) == U16 && Pow256(4) == U32 && Pow256(8) == U64
  {
    assert Pow256(2) == U16;
    assert Pow256(4) == 256 * (256 * Pow256(2));
    assert Pow256(6) == 256 * (256 * Pow256(4));
    assert Pow256(8) == 256 * (256 * Pow256(6));
  }

  /** `w` bytes, least significant first; what does not fit is cut off. */
  function LE(n: nat, w: nat): (b: Bytes)
    ensures |b| == w
  {
    if w == 0 then [] else [(n % 256) as byte] + LE(n / 256, w - 1)
  }

  function FromLE(b: Bytes): nat { if b == [] then 0 else b[0] as nat + 256 * FromLE(b[1..]) }

  lemma {:induction false} FromLEBound(b: Bytes)
    ensures FromLE(b) < Pow256(|b|)
  {
    if b != [] { FromLEBound(b[1..]); }
  }

  lemma {:induction false} FromToLE(n: nat, w: nat)
    requires n < Pow256(w)
    ensures FromLE(LE(n, w)) == n
  {
    if w > 0 {
      FromToLE(n / 256, w - 1);
      assert LE(n, w)[1..] == LE(n / 256, w - 1);
    }
  }

  lemma {:induction false} ToFromLE(b: Bytes)
    ensures LE(FromLE(b), |b|) == b
  {
    if b != [] {
      ToFromLE(b[1..]);
      var n := FromLE(b);
      assert n % 256 == b[0] as nat && n / 256 == FromLE(b[1..]);
    }
  }

  function TakeBytes(b: Bytes, n: nat): Parsed<Bytes> {
    if |b| < n then None else Some((b[..n], b[n..]))
  }

  lemma BytesExact(b: Bytes, n: nat, x: Bytes, rest: Bytes)
    ensures TakeBytes(b, n) == Some((x, rest)) <==> |x| == n && b == x + rest
  {
  }

  function TakeLE(b: Bytes, w: nat): Parsed<nat> {
    if |b| < w then None else Some((FromLE(b[..w]), b[w..]))
  }

  lemma LEExact(b: Bytes, w: nat, n: nat, rest: Bytes)
    ensures TakeLE(b, w) == Some((n, rest)) <==> n < Pow256(w) && b == LE(n, w) + rest
  {
    if |b| >= w {
      FromLEBound(b[..w]);
      ToFromLE(b[..w]);
      assert b == b[..w] + b[w..];
    }
    if n < Pow256(w) { FromToLE(n, w); }
    if b == LE(n, w) + rest { assert b[..w] == LE(n, w) && b[w..] == rest; }
  }

  function Blob(x: Bytes, w: nat): Bytes { LE(|x|, w) + x }

  function TakeBlob(b: Bytes, w: nat): Parsed<Bytes> {
    match TakeLE(b, w)
    case None => None
    case Some((n, r)) => TakeBytes(r, n)
  }

  lemma BlobExact(b: Bytes, w: nat, x: Bytes, rest: Bytes)
    ensures TakeBlob(b, w) == Some((x, rest)) <==> |x| < Pow256(w) && b == Blob(x, w) + rest
  {
    LEExact(b, w, |x|, x + rest);
    assert LE(|x|, w) + (x + rest) == Blob(x, w) + rest;
    if TakeLE(b, w).Some? {
      var (n, r) := TakeLE(b, w).value;
      LEExact(b, w, n, r);
      BytesExact(r, n, x, rest);
    }
    BytesExact(x + rest, |x|, x, rest);
  }

  // ---- Lists of items ----

  type Reader<!X> = Bytes -> Parsed<X>

  ghost predicate Exact<X(!new)>(take: Reader<X>, put: X -> Bytes, fits: X -> bool) {
    forall b, x, rest :: take(b) == Some((x, rest)) <==> fits(x) && b == put(x) + rest
  }

  function PutAll<X>(put: X -> Bytes, xs: seq<X>): Bytes {
    if xs == [] then [] else put(xs[0]) + PutAll(put, xs[1..])
  }

  function TakeAll<X>(take: Reader<X>, b: Bytes, n: nat): Parsed<seq<X>>
    decreases n
  {
    if n == 0 then Some(([], b))
    else
      match take(b)
      case None => None
      case Some((x, r)) =>
        match TakeAll(take, r, n - 1)
        case None => None
        case Some((xs, rest)) => Some(([x] + xs, rest))
  }

  lemma {:induction false} AllSound<X(!new)>(take: Reader<X>, put: X -> Bytes, fits: X -> bool, b: Bytes, n: nat)
    requires Exact(take, put, fits) && TakeAll(take, b, n).Some?
    ensures var (xs, rest) := TakeAll(take, b, n).value;
            |xs| == n && (forall x :: x in xs ==> fits(x)) && b == PutAll(put, xs) + rest
    decreases n
  {
    if n > 0 {
      var (x, r) := take(b).value;
      AllSound(take, put, fits, r, n - 1);
      var (xs, rest) := TakeAll(take, r, n - 1).value;
      assert fits(x) && b == put(x) + r;
      assert ([x] + xs)[1..] == xs;
      assert put(x) + (PutAll(put, xs) + rest) == PutAll(put, [x] + xs) + rest;
    }
  }

  lemma {:induction false} AllComplete<X(!new)>(take: Reader<X>, put: X -> Bytes, fits: X -> bool, xs: seq<X>, rest: Bytes)
    requires Exact(take, put, fits) && forall x :: x in xs ==> fits(x)
    ensures TakeAll(take, PutAll(put, xs) + rest, |xs|) == Some((xs, rest))
  {
    if xs == [] {
      assert [] + rest == rest;
    } else {
      var r := PutAll(put, xs[1..]) + rest;
      assert PutAll(put, xs) + rest == put(xs[0]) + r;
      assert xs[0] in xs && take(put(xs[0]) + r) == Some((xs[0], r));
      AllComplete(take, put, fits, xs[1..], rest);
      assert [xs[0]] + xs[1..] == xs;
    }
  }

  lemma AllExact<X(!new)>(take: Reader<X>, put: X -> Bytes, fits: X -> bool, b: Bytes, n: nat, xs: seq<X>, rest: Bytes)
    requires Exact(take, put, fits)
    ensures TakeAll(take, b, n) == Some((xs, rest)) <==>
            |xs| == n && (forall x :: x in xs ==> fits(x)) && b == PutAll(put, xs) + rest
  {
    if TakeAll(take, b, n).Some? { AllSound(take, put, fits, b, n); }
    if forall x :: x in xs ==> fits(x) { AllComplete(take, put, fits, xs, rest); }
  }

  /** Taking one more item is taking it from where the others left off. */
  lemma {:induction false} TakeAllNext<X>(take: Reader<X>, b: Bytes, n: nat)
    ensures TakeAll(take, b, n + 1) ==
            match TakeAll(take, b, n) {
              case None => None
              case Some((xs, r)) => match take(r) { case None => None case Some((x, rest)) => Some((xs + [x], rest)) }
            }
    decreases n
  {
    if n == 0 {
      if take(b).Some? { assert [take(b).value.0] + [] == [] + [take(b).value.0]; }
    } else if take(b).Some? {
      var (x, r) := take(b).value;
      TakeAllNext(take, r, n - 1);
      if TakeAll(take, r, n - 1).Some? {
        var (xs, q) := TakeAll(take, r, n - 1).value;
        if take(q).Some? { assert [x] + (xs + [take(q).value.0]) == [x] + xs + [take(q).value.0]; }
      }
    }
  }

  lemma {:induction false} TakeAllStops<X>(take: Reader<X>, b: Bytes, i: nat, n: nat)
    requires i <= n && TakeAll(take, b, i).None?
    ensures TakeAll(take, b, n).None?
    decreases n - i
  {
    if i < n {
      TakeAllNext(take, b, i);
      TakeAllStops(take, b, i + 1, n);
    }
  }

  lemma {:induction false} PutAllAppend<X>(put: X -> Bytes, xs: seq<X>, ys: seq<X>)
    ensures PutAll(put, xs + ys) == PutAll(put, xs) + PutAll(put, ys)
  {
    if xs == [] {
      assert xs + ys == ys;
    } else {
      PutAllAppend(put, xs[1..], ys);
      assert (xs + ys)[1..] == xs[1..] + ys;
    }
  }

  lemma {:induction false} PutAllLength<X>(put: X -> Bytes, xs: seq<X>, least: nat)
    requires forall x :: x in xs ==> |put(x)| >= least
    ensures |PutAll(put, xs)| >= least * |xs|
  {
    if xs != [] {
      PutAllLength(put, xs[1..], least);
      assert least * |xs| == least * (|xs| - 1) + least;
      assert xs[0] in xs;
    }
  }

  /** A list of `n` items takes at least `n` times the least item. */
  lemma TakeAllLength<X(!new)>(take: Reader<X>, put: X -> Bytes, fits: X -> bool, b: Bytes, n: nat, least: nat)
    requires Exact(take, put, fits) && forall x :: |put(x)| >= least
    ensures TakeAll(take, b, n).Some? ==> |b| >= least * n
  {
    if TakeAll(take, b, n).Some? {
      var (xs, rest) := TakeAll(take, b, n).value;
      AllExact(take, put, fits, b, n, xs, rest);
      PutAllLength(put, xs, least);
    }
  }

  // ---- Reading in place ----

  /** What a read leaves behind: the parsed value and the rest, or nothing at all. */
  ghost predicate Reads<X>(p: Parsed<X>, r: Option<X>, rest: Bytes) {
    match p
    case None => r.None?
    case Some((x, q)) => r == Some(x) && rest == q
  }

  class Cursor {
    const buf: Bytes
    var pos: nat

    ghost predicate Valid() reads this { pos <= |buf| }

    ghost function Rest(): Bytes
      requires Valid()
      reads this
    {
      buf[pos..]
    }

    constructor (buf: Bytes)
      ensures Valid() && Rest() == buf && this.buf == buf
    {
      this.buf, pos := buf, 0;
    }

    predicate IsExhausted()
      requires Valid()
      reads this
      ensures IsExhausted() <==> Rest() == []
    {
      pos == |buf|
    }

    method ReadBytes(n: nat) returns (r: Option<Bytes>)
      requires Valid()
      modifies this
      ensures Valid() && Reads(TakeBytes(old(Rest()), n), r, Rest())
    {
      if pos + n > |buf| { return None; }
      assert buf[pos..][..n] == buf[pos..pos + n] && buf[pos..][n..] == buf[pos + n..];
      r := Some(buf[pos..pos + n]);
      pos := pos + n;
    }

    method ReadRemaining() returns (r: Bytes)
      requires Valid()
      modifies this
      ensures Valid() && r == old(Rest()) && Rest() == []
    {
      r := buf[pos..];
      pos := |buf|;
    }

    method ReadLE(w: nat) returns (r: Option<nat>)
      requires Valid()
      modifies this
      ensures Valid() && Reads(TakeLE(old(Rest()), w), r, Rest())
    {
      var bytes := ReadBytes(w);
      if bytes.None? { return None; }
      r := Some(FromLE(bytes.value));
    }

    method ReadBlob(w: nat) returns (r: Option<Bytes>)
      requires Valid()
      modifies this
      ensures Valid() && Reads(TakeBlob(old(Rest()), w), r, Rest())
    {
      var n := ReadLE(w);
      if n.None? { return None; }
      r := ReadBytes(n.value);
    }
  }
}
