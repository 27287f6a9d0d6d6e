/**
 The order of a list said without its machinery: an anchor comes before what is anchored to
 it, and of two elements with one anchor the later one comes first with everything under it,
 or the one with the smaller id if they are of one time.
 */
module ListSiblings {
  import opened Options
  import opened Orders
  import opened Ids
  import opened OpStore
  import opened ListElements
  import opened ListPaths
  import opened ListTrees
  import opened ListOrder
  import opened ListWalk
  import opened ListEdits

  /** `z` is `x`, or is anchored, directly or not, to it. */
  ghost predicate Under<T>(m: Elements<T>, x: OpId, z: OpId)
    requires Anchored(m)
    decreases TimeOf(m, z)
  {
    z == x || (z in m && m[z].after.Some? && assert HasAnchor(m, z); Under(m, x, m[z].after.value))
  }

  lemma {:induction false} UnderPath<T>(m: Elements<T>, x: OpId, z: OpId)
    requires Anchored(m) && Under(m, x, z)
    ensures Path(m, x) <= Path(m, z)
    decreases TimeOf(m, z)
  {
    if z != x {
      assert HasAnchor(m, z);
      UnderPath(m, x, m[z].after.value);
    }
  }

  /** In the order of a list, path order decides. */
  lemma OrderedBy<T>(m: Elements<T>, a: OpId, b: OpId)
    requires Anchored(m) && a in m && b in m && PathLess(m, a, b)
    ensures Precedes(Ordered(m), a, b)
  {
    OrderedIsPreorder(m);
    PreorderSorted(m);
    PathOrderTotal(m);
    assert a in Elems(Preorder(m)) && b in Elems(Preorder(m));
    SmallerFirst(Preorder(m), PathOrder(m), a, b);
  }

  /** What is anchored to an element comes after it. */
  lemma AnchorFirst<T>(m: Elements<T>, x: OpId, z: OpId)
    requires Anchored(m) && x in m && z in m && Under(m, x, z) && z != x
    ensures Precedes(Ordered(m), x, z)
  {
    UnderPath(m, x, z);
    assert KeyOf(m, x) != KeyOf(m, z);
    assert Path(m, x) != Path(m, z);
    PathPrefix(m, x, z);
    OrderedBy(m, x, z);
  }

  /**
   Of two elements with the same anchor, the later one, or with equal times the one with the
   smaller id, comes first, and with it everything under it, before everything under the other.
   */
  lemma SiblingsInOrder<T>(m: Elements<T>, x: OpId, y: OpId, z: OpId, w: OpId)
    requires Anchored(m) && x in m && y in m && m[x].after == m[y].after
    requires m[y].time < m[x].time || (m[x].time == m[y].time && IdLess(x, y))
    requires z in m && w in m && Under(m, x, z) && Under(m, y, w)
    ensures Precedes(Ordered(m), z, w)
  {
    UnderPath(m, x, z);
    UnderPath(m, y, w);
    PathsPart(m, z, w, Stem(m, m[x].after), KeyOf(m, x), KeyOf(m, y));
    OrderedBy(m, z, w);
  }

  /** The newest of the elements with one anchor come first, and of two of one time the one with the smaller id. */
  ghost predicate NewestPrecede<T>(m: Elements<T>, order: seq<OpId>) {
    forall x, y | x in m && y in m && m[x].after == m[y].after ::
      m[y].time < m[x].time || (m[x].time == m[y].time && IdLess(x, y)) ==> Precedes(order, x, y)
  }

  lemma OrderedNewestFirst<T>(m: Elements<T>)
    requires Anchored(m)
    ensures NewestPrecede(m, Ordered(m))
  {
    forall x, y | x in m && y in m && m[x].after == m[y].after
      ensures m[y].time < m[x].time || (m[x].time == m[y].time && IdLess(x, y)) ==> Precedes(Ordered(m), x, y)
    {
      if m[y].time < m[x].time || (m[x].time == m[y].time && IdLess(x, y)) { SiblingsInOrder(m, x, y, x, y); }
    }
  }

  // ---- Two insertions at one place ----

  /** The elements of a list with `a` and `b` both inserted after `after`, at one time. */
  ghost predicate BothInserted<T>(m: Elements<T>, m1: Elements<T>, m2: Elements<T>, j: Elements<T>, a: OpId, va: T, b: OpId, vb: T, after: Option<OpId>) {
    && IsInsertion(m, m1, a, after, va) && IsInsertion(m, m2, b, after, vb)
    && j == m1[b := m2[b]] && IdLess(a, b)
  }

  lemma BothAnchored<T>(m: Elements<T>, m1: Elements<T>, m2: Elements<T>, j: Elements<T>, a: OpId, va: T, b: OpId, vb: T, after: Option<OpId>)
    requires Anchored(m) && BothInserted(m, m1, m2, j, a, va, b, vb, after)
    ensures Anchored(m1) && Anchored(m2) && Anchored(j) && SubMap(m, m1) && SubMap(m, m2) && SubMap(m1, j) && SubMap(m2, j) && a != b
  {
    InsertionAnchored(m, m1, a, after, va);
    InsertionAnchored(m, m2, b, after, vb);
    IdOrderTotal();
    assert !IdOrder()(a, a);
    forall x | x in j ensures HasAnchor(j, x) {
      if x in m1 { assert HasAnchor(m1, x); } else { assert HasAnchor(m2, x); }
    }
  }

  /** Where the second of the two goes among the older elements. */
  lemma BothAround<T>(m: Elements<T>, m1: Elements<T>, m2: Elements<T>, j: Elements<T>, a: OpId, va: T, b: OpId, vb: T, after: Option<OpId>, n: nat, k: nat)
    requires Anchored(m) && BothInserted(m, m1, m2, j, a, va, b, vb, after)
    requires IsPosition(Preorder(m), after, n) && k < |Preorder(m)|
    ensures Anchored(j)
    ensures k < n ==> PathOrder(j)(Preorder(m)[k], b)
    ensures n <= k ==> PathOrder(j)(b, Preorder(m)[k])
  {
    BothAnchored(m, m1, m2, j, a, va, b, vb, after);
    PreorderSorted(m);
    assert Preorder(m)[k] in Elems(Preorder(m));
    InsertedAround(m, m2, b, after, vb, n, k);
    PathsAgree(m2, j, b);
    PathsAgree(m2, j, Preorder(m)[k]);
  }

  lemma SmallerIdFirst<T>(m: Elements<T>, m1: Elements<T>, m2: Elements<T>, j: Elements<T>, a: OpId, va: T, b: OpId, vb: T, after: Option<OpId>)
    requires Anchored(m) && BothInserted(m, m1, m2, j, a, va, b, vb, after)
    ensures Anchored(j) && PathOrder(j)(a, b)
  {
    BothAnchored(m, m1, m2, j, a, va, b, vb, after);
    assert j[a] == Element(after, MaxTime(m) + 1, va) && j[b] == Element(after, MaxTime(m) + 1, vb);
    PathsPart(j, a, b, Stem(j, after), KeyOf(j, a), KeyOf(j, b));
  }

  /** In the order with the first one inserted, the second belongs right behind it. */
  lemma BothBelong<T>(m: Elements<T>, m1: Elements<T>, m2: Elements<T>, j: Elements<T>, a: OpId, va: T, b: OpId, vb: T, after: Option<OpId>, n: nat)
    requires Anchored(m) && BothInserted(m, m1, m2, j, a, va, b, vb, after) && IsPosition(Preorder(m), after, n)
    requires Anchored(m1) && Anchored(j) && Preorder(m1) == Preorder(m)[..n] + [a] + Preorder(m)[n..]
    ensures Belongs(m1, j, b, n + 1)
  {
    forall i | 0 <= i < |Preorder(m1)|
      ensures if i < n + 1 then PathOrder(j)(Preorder(m1)[i], b) else PathOrder(j)(b, Preorder(m1)[i])
    {
      if i == n {
        SmallerIdFirst(m, m1, m2, j, a, va, b, vb, after);
      } else {
        BothAround(m, m1, m2, j, a, va, b, vb, after, n, if i < n then i else i - 1);
      }
    }
  }

  /** The smaller id comes first, right behind the anchor, and the other right behind it. */
  lemma BothOrdered<T>(m: Elements<T>, m1: Elements<T>, m2: Elements<T>, j: Elements<T>, a: OpId, va: T, b: OpId, vb: T, after: Option<OpId>, n: nat)
    requires Anchored(m) && BothInserted(m, m1, m2, j, a, va, b, vb, after) && IsPosition(Preorder(m), after, n)
    ensures Anchored(j) && Preorder(j) == Preorder(m)[..n] + [a, b] + Preorder(m)[n..]
  {
    BothAnchored(m, m1, m2, j, a, va, b, vb, after);
    InsertionPosition(m, m1, a, after, va, n);
    BothBelong(m, m1, m2, j, a, va, b, vb, after, n);
    OneMore(m1, j, b, n + 1);
    SpliceBoth(Preorder(m), n, a, b);
  }

  lemma SpliceBoth(o: seq<OpId>, n: nat, a: OpId, b: OpId)
    requires n <= |o|
    ensures var o1 := o[..n] + [a] + o[n..]; o1[..n + 1] + [b] + o1[n + 1..] == o[..n] + [a, b] + o[n..]
  {
    var o1 := o[..n] + [a] + o[n..];
    assert o1[..n + 1] == o[..n] + [a] && o1[n + 1..] == o[n..];
  }

  lemma SpliceTwo(order: seq<OpId>, keep: set<OpId>, n: nat, i: nat, a: OpId, b: OpId)
    requires SplitAt(order, keep, n, i) && a !in order && b !in order
    ensures Filter(order[..n] + [a, b] + order[n..], keep + {a, b}) == Filter(order, keep)[..i] + [a, b] + Filter(order, keep)[i..]
  {
    var k := keep + {a, b};
    FilterAppend(order[..n] + [a, b], order[n..], k);
    FilterAppend(order[..n], [a, b], k);
    FilterSame(order[..n], keep, k);
    FilterSame(order[n..], keep, k);
    FilterAll([a, b], k);
  }

  lemma BothStates<T>(s: ListState<T>, index: nat, a: OpId, va: T, b: OpId, vb: T)
    requires ValidList(s) && index <= |VisibleIds(s)| && MaxTime(s.entries) < U64_MAX
    requires a !in s.entries && b !in s.entries && IdLess(a, b)
    ensures InsertAt(s, index, a, va).Ok? && InsertAt(s, index, b, vb).Ok?
    ensures var s1, s2 := InsertAt(s, index, a, va).value, InsertAt(s, index, b, vb).value;
            && BothInserted(s.entries, s1.entries, s2.entries, Join(s1, s2).entries, a, va, b, vb, AnchorAt(VisibleIds(s), index))
            && Visible(Join(s1, s2)) == Visible(s) + {a, b}
            && Extends(s.entries, Join(s1, s2).entries, [a, b], [va, vb])
  {
    var s1, s2 := InsertAt(s, index, a, va).value, InsertAt(s, index, b, vb).value;
    VisibleIn(s);
    assert index > 0 ==> VisibleIds(s)[index - 1] in VisibleIds(s);
    IdOrderTotal();
    assert !IdOrder()(a, a);
    assert Join(s1, s2).entries == s1.entries[b := s2.entries[b]];
  }

  lemma BothVisible<T>(s: ListState<T>, j: ListState<T>, m1: Elements<T>, m2: Elements<T>, index: nat, a: OpId, va: T, b: OpId, vb: T)
    requires ValidList(s) && index <= |VisibleIds(s)|
    requires BothInserted(s.entries, m1, m2, j.entries, a, va, b, vb, AnchorAt(VisibleIds(s), index))
    requires Visible(j) == Visible(s) + {a, b}
    ensures VisibleIds(j) == VisibleIds(s)[..index] + [a, b] + VisibleIds(s)[index..]
  {
    var n := PlaceOf(s, index);
    OrderedIsPreorder(s.entries);
    BothOrdered(s.entries, m1, m2, j.entries, a, va, b, vb, AnchorAt(VisibleIds(s), index), n);
    OrderedIsPreorder(j.entries);
    OrderedListsAll(s.entries);
    SpliceTwo(Ordered(s.entries), Visible(s), n, index, a, b);
  }

  /**
   Two replicas of a list insert at the same index, each without knowing of the other, and
   merge: both values are there, in the order of their ids, between the same neighbours.
   */
  lemma ConcurrentInsertions<T>(s: ListState<T>, index: nat, a: OpId, va: T, b: OpId, vb: T)
    requires ValidList(s) && index <= |VisibleIds(s)| && MaxTime(s.entries) < U64_MAX
    requires a !in s.entries && b !in s.entries && IdLess(a, b)
    ensures InsertAt(s, index, a, va).Ok? && InsertAt(s, index, b, vb).Ok?
    ensures var j := Join(InsertAt(s, index, a, va).value, InsertAt(s, index, b, vb).value);
            Values(j) == Values(s)[..index] + [va, vb] + Values(s)[index..]
  {
    BothStates(s, index, a, va, b, vb);
    var s1, s2 := InsertAt(s, index, a, va).value, InsertAt(s, index, b, vb).value;
    var j := Join(s1, s2);
    BothVisible(s, j, s1.entries, s2.entries, index, a, va, b, vb);
    VisibleIn(s);
    VisibleIn(j);
    ValuesSplice(s.entries, j.entries, VisibleIds(s), index, [a, b], [va, vb]);
  }

  // ---- Elements no chain of anchors reaches ----

  /** Every element is anchored to something that is not there. */
  ghost predicate AllStray<T>(m: Elements<T>) {
    forall id :: id in m ==> m[id].after.Some? && m[id].after.value !in m
  }

  lemma StrayChildless<T>(m: Elements<T>, parent: Option<OpId>)
    requires AllStray(m) && (parent.Some? ==> parent.value in m)
    ensures ChildrenOf(m, parent) == []
  {
    ChildrenInMap(m, parent);
    var cs := ChildrenOf(m, parent);
    assert Elems(cs) == {};
  }

  lemma {:induction false} StraysWalk<T>(m: Elements<T>, work: seq<OpId>, done: seq<OpId>)
    requires AllStray(m) && AllIn(work, m) && Distinct(done + work)
    ensures Walk(m, work, done) == done + work
    decreases |work|
  {
    if work == [] {
      assert done + work == done;
    } else {
      var id, rest := work[0], work[1..];
      assert id in work && AllIn(rest, m);
      assert work == [id] + rest && done + work == (done + [id]) + rest;
      assert id !in done by {
        forall k | 0 <= k < |done| ensures done[k] != id { assert (done + work)[k] != (done + work)[|done|]; }
      }
      WalkHead(m, id, rest, done);
      StrayChildless(m, Some(id));
      assert [] + rest == rest;
      StraysWalk(m, rest, done + [id]);
    }
  }

  /** Elements that no chain of anchors reaches come in the order of their ids. */
  lemma StraysInOrder<T>(m: Elements<T>, x: OpId, y: OpId)
    requires AllStray(m) && x in m && y in m && IdLess(x, y)
    ensures Precedes(Ordered(m), x, y)
  {
    var keys := KeysOf(m);
    KeysAllIn(m);
    IdOrderTotal();
    AscendingSorted(m.Keys, IdOrder());
    StrayChildless(m, None);
    assert [] + keys == keys;
    StraysWalk(m, keys, []);
    SmallerFirst(keys, IdOrder(), x, y);
  }
}
