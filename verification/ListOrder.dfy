/**
 What the order of a replicated list promises: elements already seen are never reordered,
 and a new element lands right behind its anchor.
 */
module ListOrder {
  import opened Options
  import opened Orders
  import opened Ids
  import opened ListElements
  import opened ListPaths
  import opened ListTrees

  // ---- Order stability ----

  ghost predicate SubMap<T>(a: Elements<T>, b: Elements<T>) {
    a.Keys <= b.Keys && forall id :: id in a ==> a[id] == b[id]
  }

  lemma {:induction false} PathsAgree<T>(a: Elements<T>, b: Elements<T>, id: OpId)
    requires Anchored(a) && Anchored(b) && SubMap(a, b) && id in a
    ensures Path(a, id) == Path(b, id)
    decreases a[id].time
  {
    assert HasAnchor(a, id);
    if a[id].after.Some? { PathsAgree(a, b, a[id].after.value); }
  }

  /**
   No element a replica has already seen is ever reordered: the order of a causally
   closed part is the whole order restricted to that part.
   */
  lemma OrderStability<T>(a: Elements<T>, b: Elements<T>)
    requires Anchored(a) && Anchored(b) && SubMap(a, b)
    ensures Preorder(a) == Filter(Preorder(b), a.Keys)
  {
    PreorderSorted(b);
    var f := Filter(Preorder(b), a.Keys);
    FilterIncreasing(Preorder(b), a.Keys, PathOrder(b));
    FilterMembers(Preorder(b), a.Keys);
    forall x | x in a.Keys ensures x in f {
      assert x in Elems(Preorder(b));
    }
    forall i, j | 0 <= i < j < |f| ensures PathOrder(a)(f[i], f[j]) {
      assert f[i] in f && f[j] in f;
      PathsAgree(a, b, f[i]);
      PathsAgree(a, b, f[j]);
      assert PathOrder(b)(f[i], f[j]);
    }
    SortedIsPreorder(a, f);
  }

  // ---- Where an insertion lands ----

  ghost predicate IsInsertion<T>(m: Elements<T>, m': Elements<T>, id: OpId, after: Option<OpId>, v: T) {
    && id !in m
    && (after.Some? ==> after.value in m)
    && m' == m[id := Element(after, MaxTime(m) + 1, v)]
  }

  lemma InsertionAnchored<T>(m: Elements<T>, m': Elements<T>, id: OpId, after: Option<OpId>, v: T)
    requires Anchored(m) && IsInsertion(m, m', id, after, v)
    ensures Anchored(m') && SubMap(m, m')
  {
    forall x | x in m' ensures HasAnchor(m', x) {
      assert x in m ==> HasAnchor(m, x);
    }
  }

  /** Keys along a path are those of elements of the map, so never newer than the newest. */
  lemma {:induction false} PathTimes<T>(m: Elements<T>, x: OpId, i: nat)
    requires Anchored(m) && x in m && i < |Path(m, x)|
    ensures Path(m, x)[i].time <= MaxTime(m)
    decreases m[x].time
  {
    assert HasAnchor(m, x);
    if m[x].after.Some? && i < |Path(m, x)| - 1 { PathTimes(m, m[x].after.value, i); }
  }

  /** After the insertion, the new element is directly after its anchor: nothing is between. */
  lemma InsertedOrder<T>(m: Elements<T>, m': Elements<T>, id: OpId, after: Option<OpId>, v: T, x: OpId)
    requires Anchored(m) && IsInsertion(m, m', id, after, v) && Anchored(m') && SubMap(m, m')
    requires x in m
    ensures after.None? ==> PathLess(m', id, x)
    ensures after.Some? && (x == after.value || PathLess(m, x, after.value)) ==> PathLess(m', x, id)
    ensures after.Some? && PathLess(m, after.value, x) ==> PathLess(m', id, x)
  {
    PathsAgree(m, m', x);
    var key := Key(MaxTime(m) + 1, id);
    if after.None? {
      PathTimes(m, x, 0);
      PathsPart(m', id, x, [], key, Path(m, x)[0]);
    } else {
      var a := after.value;
      PathsAgree(m, m', a);
      var pa, px := Path(m, a), Path(m, x);
      assert Path(m', id) == pa + [key];
      if x == a { PathPrefix(m', x, id); }
      if PathLess(m, x, a) { LexExtend(px, pa, key); }
      if PathLess(m, a, x) {
        if pa <= px {
          KeyOrderTotal();
          LexIrreflexive(KeyOrder(), pa);
          PathTimes(m, x, |pa|);
          assert pa + [px[|pa|]] <= px;
          PathsPart(m', id, x, pa, key, px[|pa|]);
        } else {
          LexDiverge(pa, px, key);
        }
      }
    }
  }

  lemma {:induction false} LexExtend(a: seq<Key>, b: seq<Key>, k: Key)
    requires LexLess(KeyOrder(), a, b)
    ensures LexLess(KeyOrder(), a, b + [k])
  {
    assert (b + [k])[1..] == b[1..] + [k];
    if a != [] && a[0] == b[0] { LexExtend(a[1..], b[1..], k); }
  }

  lemma {:induction false} LexDiverge(a: seq<Key>, b: seq<Key>, k: Key)
    requires LexLess(KeyOrder(), a, b) && !(a <= b)
    ensures LexLess(KeyOrder(), a + [k], b)
  {
    assert (a + [k])[1..] == a[1..] + [k];
    if a[0] == b[0] {
      assert a == [a[0]] + a[1..] && b == [b[0]] + b[1..];
      LexDiverge(a[1..], b[1..], k);
    }
  }

  /** `n` is the position just after the anchor: 0 for the front of the list. */
  ghost predicate IsPosition(order: seq<OpId>, after: Option<OpId>, n: nat) {
    n <= |order| && if after.None? then n == 0 else 0 < n && order[n - 1] == after.value
  }

  /** The old elements keep their order under the paths of a larger list. */
  lemma StillSorted<T>(m: Elements<T>, m': Elements<T>, order: seq<OpId>)
    requires Anchored(m) && Anchored(m') && SubMap(m, m')
    requires Elems(order) == m.Keys && Increasing(order, PathOrder(m))
    ensures Increasing(order, PathOrder(m'))
  {
    forall i, j | 0 <= i < j < |order| ensures PathOrder(m')(order[i], order[j]) {
      assert order[i] in Elems(order) && order[j] in Elems(order);
      PathsAgree(m, m', order[i]);
      PathsAgree(m, m', order[j]);
      assert PathOrder(m)(order[i], order[j]);
    }
  }

  /** The element at `i` comes before the new one exactly when it is before the position. */
  lemma InsertedAround<T>(m: Elements<T>, m': Elements<T>, id: OpId, after: Option<OpId>, v: T, n: nat, i: nat)
    requires Anchored(m) && Anchored(m') && IsInsertion(m, m', id, after, v)
    requires IsPosition(Preorder(m), after, n) && i < |Preorder(m)|
    ensures i < n ==> PathOrder(m')(Preorder(m)[i], id)
    ensures n <= i ==> PathOrder(m')(id, Preorder(m)[i])
  {
    var order := Preorder(m);
    PreorderSorted(m);
    assert order[i] in Elems(order);
    InsertedOrder(m, m', id, after, v, order[i]);
    if after.Some? {
      if i < n - 1 { assert PathOrder(m)(order[i], order[n - 1]); }
      if n <= i { assert PathOrder(m)(order[n - 1], order[i]); }
    }
  }

  /** `id` belongs at `n` in the order of `m`, by the paths of the larger `m'`. */
  ghost predicate Belongs<T>(m: Elements<T>, m': Elements<T>, id: OpId, n: nat)
    requires Anchored(m) && Anchored(m')
  {
    && n <= |Preorder(m)|
    && forall i :: 0 <= i < |Preorder(m)| ==>
         if i < n then PathOrder(m')(Preorder(m)[i], id) else PathOrder(m')(id, Preorder(m)[i])
  }

  /** One more element goes where it belongs and moves nothing else. */
  lemma OneMore<T>(m: Elements<T>, m': Elements<T>, id: OpId, n: nat)
    requires Anchored(m) && Anchored(m') && SubMap(m, m') && m'.Keys == m.Keys + {id}
    requires Belongs(m, m', id, n)
    ensures Preorder(m') == Preorder(m)[..n] + [id] + Preorder(m)[n..]
  {
    var order := Preorder(m);
    PreorderSorted(m);
    StillSorted(m, m', order);
    SpliceIncreasing(order, n, id, PathOrder(m'));
    SortedIsPreorder(m', order[..n] + [id] + order[n..]);
  }

  /** An insertion puts the new element directly after its anchor and moves nothing else. */
  lemma InsertionPosition<T>(m: Elements<T>, m': Elements<T>, id: OpId, after: Option<OpId>, v: T, n: nat)
    requires Anchored(m) && IsInsertion(m, m', id, after, v)
    requires IsPosition(Preorder(m), after, n)
    ensures Anchored(m') && Preorder(m') == Preorder(m)[..n] + [id] + Preorder(m)[n..]
  {
    InsertionAnchored(m, m', id, after, v);
    forall i | 0 <= i < |Preorder(m)|
      ensures if i < n then PathOrder(m')(Preorder(m)[i], id) else PathOrder(m')(id, Preorder(m)[i])
    {
      InsertedAround(m, m', id, after, v, n, i);
    }
    OneMore(m, m', id, n);
  }
}
