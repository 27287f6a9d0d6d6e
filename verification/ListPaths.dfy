/**
 The total order of list elements by their chains of anchors, which never changes as other
 elements arrive.
 */
module ListPaths {
  import opened Options
  import opened Orders
  import opened Ids
  import opened ListElements

  /** The chain of anchors of an element, outermost first, ending with the element. */
  ghost function Path<T>(m: Elements<T>, id: OpId): (p: seq<Key>)
    requires Anchored(m)
    ensures p != [] && p[|p| - 1] == KeyOf(m, id)
    decreases TimeOf(m, id)
  {
    if id in m && m[id].after.Some? then assert HasAnchor(m, id); Path(m, m[id].after.value) + [KeyOf(m, id)]
    else [KeyOf(m, id)]
  }

  ghost predicate PathLess<T>(m: Elements<T>, a: OpId, b: OpId)
    requires Anchored(m)
  {
    LexLess(KeyOrder(), Path(m, a), Path(m, b))
  }

  ghost function PathOrder<T>(m: Elements<T>): (OpId, OpId) -> bool
    requires Anchored(m)
  {
    (a, b) => PathLess(m, a, b)
  }

  lemma PathOrderTotal<T>(m: Elements<T>)
    requires Anchored(m)
    ensures StrictTotal(PathOrder(m))
  {
    KeyOrderTotal();
    LexStrictTotal(KeyOrder());
    forall x, y, z
      ensures !PathOrder(m)(x, x)
      ensures x != y ==> PathOrder(m)(x, y) || PathOrder(m)(y, x)
      ensures PathOrder(m)(x, y) && PathOrder(m)(y, z) ==> PathOrder(m)(x, z)
    {
      var lex := Lex(KeyOrder());
      var px, py, pz := Path(m, x), Path(m, y), Path(m, z);
      assert x != y ==> px != py;
      assert !lex(px, px);
      assert px != py ==> lex(px, py) || lex(py, px);
      assert lex(px, py) && lex(py, pz) ==> lex(px, pz);
    }
  }

  /** Where the paths of two elements part decides their order. */
  lemma PathsPart<T>(m: Elements<T>, a: OpId, b: OpId, stem: seq<Key>, ka: Key, kb: Key)
    requires Anchored(m)
    requires stem + [ka] <= Path(m, a) && stem + [kb] <= Path(m, b)
    requires KeyLess(ka, kb)
    ensures PathLess(m, a, b)
  {
    KeyOrderTotal();
    var n := |stem|;
    var pa, pb := Path(m, a), Path(m, b);
    assert pa == stem + pa[n..] && pb == stem + pb[n..];
    assert pa[n] == (stem + [ka])[n] && pb[n] == (stem + [kb])[n];
    assert ka != kb by { assert !KeyOrder()(ka, ka); }
    LexCommonPrefix(KeyOrder(), stem, pa[n..], pb[n..]);
  }

  lemma PathPrefix<T>(m: Elements<T>, a: OpId, b: OpId)
    requires Anchored(m)
    requires Path(m, a) < Path(m, b)
    ensures PathLess(m, a, b)
  {
    var pa, pb := Path(m, a), Path(m, b);
    assert pb == pa + pb[|pa|..] && pa == pa + [];
    LexCommonPrefix(KeyOrder(), pa, [], pb[|pa|..]);
  }

  ghost function Stem<T>(m: Elements<T>, parent: Option<OpId>): seq<Key>
    requires Anchored(m)
  {
    if parent.Some? then Path(m, parent.value) else []
  }
}
