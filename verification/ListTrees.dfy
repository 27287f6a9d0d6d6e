/**
 The recursive walk of the anchor tree with siblings newest first, and why it lists the
 elements by their chains of anchors.
 */
module ListTrees {
  import opened Options
  import opened Orders
  import opened Ids
  import opened ListElements
  import opened ListPaths

  function Flatten<T>(s: seq<seq<T>>): seq<T> {
    if s == [] then [] else s[0] + Flatten(s[1..])
  }

  /** An element followed by everything anchored, directly or not, to it. */
  ghost function Tree<T>(m: Elements<T>, id: OpId): (r: seq<OpId>)
    requires Anchored(m) && id in m
    decreases MaxTime(m) - m[id].time
  {
    var cs := ChildrenOf(m, Some(id));
    ChildrenInMap(m, Some(id));
    [id] + Flatten(seq(|cs|, i requires 0 <= i < |cs| =>
      assert cs[i] in cs && HasAnchor(m, cs[i]); Tree(m, cs[i])))
  }

  ghost function Forest<T>(m: Elements<T>, ids: seq<OpId>): seq<OpId>
    requires Anchored(m) && forall id :: id in ids ==> id in m
  {
    if ids == [] then [] else Tree(m, ids[0]) + Forest(m, ids[1..])
  }

  /** The list: a preorder walk of the anchor tree. */
  ghost function Preorder<T>(m: Elements<T>): seq<OpId>
    requires Anchored(m)
  {
    ChildrenInMap(m, None);
    Forest(m, ChildrenOf(m, None))
  }

  lemma {:induction false} FlattenIsForest<T>(m: Elements<T>, ids: seq<OpId>, trees: seq<seq<OpId>>)
    requires Anchored(m) && forall id :: id in ids ==> id in m
    requires |trees| == |ids| && forall i :: 0 <= i < |ids| ==> trees[i] == Tree(m, ids[i])
    ensures Flatten(trees) == Forest(m, ids)
  {
    if ids != [] { FlattenIsForest(m, ids[1..], trees[1..]); }
  }

  lemma TreeUnfold<T>(m: Elements<T>, id: OpId)
    requires Anchored(m) && id in m
    ensures (forall c :: c in ChildrenOf(m, Some(id)) ==> c in m)
    ensures Tree(m, id) == [id] + Forest(m, ChildrenOf(m, Some(id)))
  {
    var cs := ChildrenOf(m, Some(id));
    ChildrenInMap(m, Some(id));
    var trees := seq(|cs|, i requires 0 <= i < |cs| => assert cs[i] in cs && HasAnchor(m, cs[i]); Tree(m, cs[i]));
    FlattenIsForest(m, cs, trees);
    assert Tree(m, id) == [id] + Flatten(trees);
  }

  lemma {:induction false} InForest<T>(m: Elements<T>, ids: seq<OpId>, x: OpId)
    requires Anchored(m) && forall id :: id in ids ==> id in m
    ensures x in Forest(m, ids) <==> exists i :: 0 <= i < |ids| && x in Tree(m, ids[i])
  {
    if ids != [] {
      InForest(m, ids[1..], x);
      if i :| 0 <= i < |ids| && x in Tree(m, ids[i]) && i > 0 {
        assert ids[1..][i - 1] == ids[i];
      }
    }
  }

  /** The walk under `id` holds exactly the elements whose path goes through `id`, in path order. */
  ghost predicate TreeSorted<T>(m: Elements<T>, id: OpId)
    requires Anchored(m) && id in m
  {
    && Increasing(Tree(m, id), PathOrder(m))
    && forall x :: x in Tree(m, id) ==> x in m && Path(m, id) <= Path(m, x)
  }

  lemma SiblingTrees<T>(m: Elements<T>, a: OpId, b: OpId, x: OpId, y: OpId)
    requires Anchored(m) && a in m && b in m && m[a].after == m[b].after && SiblingOrder(m)(a, b)
    requires Path(m, a) <= Path(m, x) && Path(m, b) <= Path(m, y)
    ensures PathLess(m, x, y)
  {
    PathsPart(m, x, y, Stem(m, m[a].after), KeyOf(m, a), KeyOf(m, b));
  }

  lemma {:induction false} ForestIsSorted<T>(m: Elements<T>, ids: seq<OpId>, parent: Option<OpId>)
    requires Anchored(m)
    requires forall id :: id in ids ==> id in m && m[id].after == parent
    requires Increasing(ids, SiblingOrder(m))
    requires forall id :: id in ids ==> TreeSorted(m, id)
    ensures Increasing(Forest(m, ids), PathOrder(m))
    ensures forall x :: x in Forest(m, ids) ==> x in m && Stem(m, parent) < Path(m, x)
  {
    if ids != [] {
      var a, rest := ids[0], ids[1..];
      assert a in ids;
      ForestIsSorted(m, rest, parent);
      forall x | x in Tree(m, a) ensures x in m && Stem(m, parent) < Path(m, x) {
        assert Path(m, a) == Stem(m, parent) + [KeyOf(m, a)];
        assert Path(m, a)[..|Stem(m, parent)|] == Stem(m, parent);
      }
      forall x, y | x in Tree(m, a) && y in Forest(m, rest) ensures PathOrder(m)(x, y) {
        InForest(m, rest, y);
        var i :| 0 <= i < |rest| && y in Tree(m, rest[i]);
        assert rest[i] == ids[i + 1];
        assert rest[i] in ids;
        SiblingTrees(m, a, rest[i], x, y);
      }
      AppendIncreasing(Tree(m, a), Forest(m, rest), PathOrder(m));
    }
  }

  lemma {:induction false} TreeIsSorted<T>(m: Elements<T>, id: OpId)
    requires Anchored(m) && id in m
    ensures TreeSorted(m, id)
    decreases MaxTime(m) - m[id].time
  {
    var cs := ChildrenOf(m, Some(id));
    ChildrenInMap(m, Some(id));
    forall c | c in cs ensures TreeSorted(m, c) {
      assert HasAnchor(m, c);
      TreeIsSorted(m, c);
    }
    ChildrenSorted(m, Some(id));
    ForestIsSorted(m, cs, Some(id));
    TreeUnfold(m, id);
    forall x | x in Forest(m, cs) ensures PathOrder(m)(id, x) { PathPrefix(m, id, x); }
  }

  /** An element anchored inside a subtree is inside it. */
  lemma {:induction false} TreeClosed<T>(m: Elements<T>, id: OpId, p: OpId, x: OpId)
    requires Anchored(m) && id in m && x in m
    requires p in Tree(m, id) && m[x].after == Some(p)
    ensures x in Tree(m, id)
    decreases MaxTime(m) - m[id].time
  {
    var cs := ChildrenOf(m, Some(id));
    ChildrenInMap(m, Some(id));
    TreeUnfold(m, id);
    if p == id {
      var i :| 0 <= i < |cs| && cs[i] == x;
      TreeUnfold(m, x);
      assert x in Tree(m, cs[i]);
    } else {
      InForest(m, cs, p);
      var i :| 0 <= i < |cs| && p in Tree(m, cs[i]);
      assert cs[i] in cs && HasAnchor(m, cs[i]);
      TreeClosed(m, cs[i], p, x);
    }
    InForest(m, cs, x);
  }

  lemma {:induction false} PreorderCovers<T>(m: Elements<T>, x: OpId)
    requires Anchored(m) && x in m
    ensures x in Preorder(m)
    decreases m[x].time
  {
    var roots := ChildrenOf(m, None);
    ChildrenInMap(m, None);
    if m[x].after.None? {
      var i :| 0 <= i < |roots| && roots[i] == x;
      TreeUnfold(m, x);
      assert x in Tree(m, roots[i]);
    } else {
      assert HasAnchor(m, x);
      var p := m[x].after.value;
      PreorderCovers(m, p);
      InForest(m, roots, p);
      var i :| 0 <= i < |roots| && p in Tree(m, roots[i]);
      assert roots[i] in roots;
      TreeClosed(m, roots[i], p, x);
    }
    InForest(m, roots, x);
  }

  /** The recursive walk lists every element exactly once, in path order. */
  lemma PreorderSorted<T>(m: Elements<T>)
    requires Anchored(m)
    ensures Increasing(Preorder(m), PathOrder(m))
    ensures Elems(Preorder(m)) == m.Keys
    ensures Distinct(Preorder(m))
  {
    var roots := ChildrenOf(m, None);
    ChildrenInMap(m, None);
    forall c | c in roots ensures TreeSorted(m, c) { TreeIsSorted(m, c); }
    ChildrenSorted(m, None);
    ForestIsSorted(m, roots, None);
    forall x | x in m ensures x in Preorder(m) { PreorderCovers(m, x); }
    PathOrderTotal(m);
    IncreasingDistinct(Preorder(m), PathOrder(m));
  }

  /** Any enumeration of the elements in path order is the walk. */
  lemma SortedIsPreorder<T>(m: Elements<T>, s: seq<OpId>)
    requires Anchored(m)
    requires Increasing(s, PathOrder(m)) && Elems(s) == m.Keys
    ensures s == Preorder(m)
  {
    PathOrderTotal(m);
    PreorderSorted(m);
    IncreasingUnique(s, Preorder(m), PathOrder(m));
  }
}
