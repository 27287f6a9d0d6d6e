/** The persisted root set: a count, then the ids in order. */
module RootRows {
  import opened Options
  import opened Orders
  import opened Ids
  import opened Codecs
  import opened Buffers
  import opened Dags

  predicate FitsCid(c: Cid) { |c| == 32 }

  function PutCid(c: Cid): Bytes { c }

  function TakeCid(b: Bytes): Parsed<Cid> { TakeBytes(b, 32) }

  function CidReader(): Reader<Cid> { TakeCid }

  lemma CidsExact()
    ensures Exact(CidReader(), PutCid, FitsCid)
  {
    forall b, c, rest ensures CidReader()(b) == Some((c, rest)) <==> FitsCid(c) && b == PutCid(c) + rest {
      BytesExact(b, 32, c, rest);
    }
  }

  function PutList(cs: seq<Cid>): Bytes { LE(|cs|, 8) + PutAll(PutCid, cs) }

  function EncodeRoots(roots: set<Cid>): Bytes { PutList(CidsInOrder(roots)) }

  /** The list a row spells: the count must account for every byte. */
  function RootList(b: Bytes): Option<seq<Cid>> {
    match TakeLE(b, 8)
    case None => None
    case Some((n, r)) =>
      if |r| != 32 * n then None
      else
        match TakeAll(CidReader(), r, n)
        case None => None
        case Some((cs, _)) => Some(cs)
  }

  function DecodeRoots(b: Bytes): Option<set<Cid>> {
    match RootList(b)
    case None => None
    case Some(cs) => Some(Elems(cs))
  }

  lemma {:induction false} PutCidsLength(cs: seq<Cid>)
    requires forall c :: c in cs ==> FitsCid(c)
    ensures |PutAll(PutCid, cs)| == 32 * |cs|
  {
    if cs != [] {
      assert cs[0] in cs;
      PutCidsLength(cs[1..]);
    }
  }

  lemma RootListExact(b: Bytes, cs: seq<Cid>)
    ensures RootList(b) == Some(cs) <==> |cs| < U64 && (forall c :: c in cs ==> FitsCid(c)) && b == PutList(cs)
  {
    Widths();
    CidsExact();
    var all := PutAll(PutCid, cs);
    LEExact(b, 8, |cs|, all);
    assert all + [] == all;
    AllExact(CidReader(), PutCid, FitsCid, all, |cs|, cs, []);
    if forall c :: c in cs ==> FitsCid(c) { PutCidsLength(cs); }
    if RootList(b).Some? {
      var (n, r) := TakeLE(b, 8).value;
      LEExact(b, 8, n, r);
      var (ds, rest) := TakeAll(CidReader(), r, n).value;
      AllExact(CidReader(), PutCid, FitsCid, r, n, ds, rest);
      PutCidsLength(ds);
      assert rest == [] && PutAll(PutCid, ds) + rest == PutAll(PutCid, ds);
    }
  }

  lemma InOrderSorted(roots: set<Cid>)
    ensures Increasing(CidsInOrder(roots), BytesOrder()) && Elems(CidsInOrder(roots)) == roots && |CidsInOrder(roots)| == |roots|
  {
    BytesOrderTotal();
    AscendingSorted(roots, BytesOrder());
    DistinctCard(CidsInOrder(roots));
  }

  lemma InOrderUnique(cs: seq<Cid>)
    requires Increasing(cs, BytesOrder())
    ensures CidsInOrder(Elems(cs)) == cs
  {
    BytesOrderTotal();
    AscendingSorted(Elems(cs), BytesOrder());
    IncreasingUnique(cs, CidsInOrder(Elems(cs)), BytesOrder());
  }

  /** Every root set survives its row. */
  lemma RootsRoundTrip(roots: set<Cid>)
    requires |roots| < U64 && forall c :: c in roots ==> FitsCid(c)
    ensures DecodeRoots(EncodeRoots(roots)) == Some(roots)
  {
    InOrderSorted(roots);
    RootListExact(EncodeRoots(roots), CidsInOrder(roots));
  }

  /** An accepted row is the canonical one exactly when it lists its ids in strictly increasing order. */
  lemma CanonicalRoots(b: Bytes)
    requires DecodeRoots(b).Some?
    ensures EncodeRoots(DecodeRoots(b).value) == b <==> Increasing(RootList(b).value, BytesOrder())
  {
    var cs := RootList(b).value;
    RootListExact(b, cs);
    if Increasing(cs, BytesOrder()) {
      InOrderUnique(cs);
    } else {
      var sorted := CidsInOrder(Elems(cs));
      InOrderSorted(Elems(cs));
      assert forall c :: c in sorted ==> c in Elems(sorted);
      PutCidsLength(cs);
      PutCidsLength(sorted);
      RootListExact(b, sorted);
    }
  }

  method WriteRoots(roots: set<Cid>) returns (b: Bytes)
    ensures b == EncodeRoots(roots)
  {
    var out := new Buffer();
    out.Extend(LE(|roots|, 8));
    var cs := CidsInOrder(roots);
    InOrderSorted(roots);
    ghost var start := out.data;
    assert cs[..0] == [] && start + [] == start;
    for i := 0 to |cs|
      invariant out.data == start + PutAll(PutCid, cs[..i])
    {
      out.Extend(cs[i]);
      PutAllSnoc(PutCid, cs, i, start);
    }
    assert cs[..|cs|] == cs;
    b := out.data;
  }

  lemma {:induction false} CidAt(r: Bytes, i: nat)
    requires 32 * i <= |r|
    ensures TakeAll(CidReader(), r, i).Some? && TakeAll(CidReader(), r, i).value.1 == r[32 * i..]
  {
    if i > 0 {
      CidAt(r, i - 1);
      TakeAllNext(CidReader(), r, i - 1);
      assert r[32 * (i - 1)..][32..] == r[32 * i..];
    }
  }

  method ReadRoots(b: Bytes) returns (roots: Option<set<Cid>>)
    ensures roots == DecodeRoots(b)
  {
    if |b| < 8 { return None; }
    var count := FromLE(b[..8]);
    if |b| != 8 + count * 32 { return None; }
    ghost var r, cs := b[8..], [];
    var found: set<Cid> := {};
    for i := 0 to count
      invariant TakeAll(CidReader(), r, i) == Some((cs, r[32 * i..])) && found == Elems(cs)
    {
      var c := b[8 + i * 32..8 + i * 32 + 32];
      TakeAllNext(CidReader(), r, i);
      CidAt(r, i + 1);
      assert r[32 * i..][..32] == c;
      cs := cs + [c];
      found := found + {c};
    }
    roots := Some(found);
  }
}
