/**
 What `ordered_ids` computes on every element map, including maps with missing or cyclic
 anchors, and why on anchored maps it is the recursive preorder.
 */
module ListWalk {
  import opened Options
  import opened Orders
  import opened Ids
  import opened ListElements
  import opened ListTrees

  ghost predicate AllIn<T>(s: seq<OpId>, m: Elements<T>) {
    forall id :: id in s ==> id in m
  }

  /** A listing of some of the ids of `m`, without repetition. */
  ghost predicate Listing<T>(s: seq<OpId>, m: Elements<T>) {
    Distinct(s) && AllIn(s, m)
  }

  /** How many ids are still to be listed. */
  ghost function Left<T>(m: Elements<T>, done: seq<OpId>): nat {
    |m.Keys - Elems(done)|
  }

  lemma OneLess<T>(m: Elements<T>, done: seq<OpId>, id: OpId)
    requires id in m && id !in done
    ensures Left(m, done + [id]) < Left(m, done)
  {
    var a, b := m.Keys - Elems(done + [id]), m.Keys - Elems(done);
    assert b == a + {id} && id !in a;
  }

  lemma ChildrenAllIn<T>(m: Elements<T>, parent: Option<OpId>)
    ensures AllIn(ChildrenOf(m, parent), m)
  {
    ChildrenInMap(m, parent);
  }

  /**
   Depth-first walk with a worklist, next id first: an id already listed is skipped,
   another is listed and replaced by its children.
   */
  function Walk<T>(m: Elements<T>, work: seq<OpId>, done: seq<OpId>): seq<OpId>
    requires AllIn(work, m)
    decreases Left(m, done), |work|
  {
    if work == [] then done
    else
      var id, rest := work[0], work[1..];
      if id in done then Walk(m, rest, done)
      else
        ChildrenAllIn(m, Some(id));
        OneLess(m, done, id);
        Walk(m, ChildrenOf(m, Some(id)) + rest, done + [id])
  }

  lemma {:induction false} WalkLists<T>(m: Elements<T>, work: seq<OpId>, done: seq<OpId>)
    requires AllIn(work, m) && Listing(done, m)
    ensures Listing(Walk(m, work, done), m)
    ensures forall id :: id in work || id in done ==> id in Walk(m, work, done)
    decreases Left(m, done), |work|
  {
    if work != [] {
      var id, rest := work[0], work[1..];
      if id in done {
        WalkLists(m, rest, done);
      } else {
        ChildrenAllIn(m, Some(id));
        OneLess(m, done, id);
        WalkLists(m, ChildrenOf(m, Some(id)) + rest, done + [id]);
      }
    }
  }

  /** The ids of a list in order: from the front, then whatever no chain of anchors reaches. */
  function Ordered<T>(m: Elements<T>): seq<OpId> {
    KeysAllIn(m);
    ChildrenAllIn(m, None);
    Walk(m, ChildrenOf(m, None) + KeysOf(m), [])
  }

  /** Key-order iteration over the elements. */
  function KeysOf<T>(m: Elements<T>): seq<OpId> {
    IdOrderTotal();
    Ascending(m.Keys, IdOrder())
  }

  lemma KeysAllIn<T>(m: Elements<T>)
    ensures forall id :: id in KeysOf(m) <==> id in m
  {
    IdOrderTotal();
    AscendingSorted(m.Keys, IdOrder());
  }

  /** Every element is listed exactly once, whatever the anchors are. */
  lemma OrderedListsAll<T>(m: Elements<T>)
    ensures Distinct(Ordered(m)) && forall id :: id in Ordered(m) <==> id in m
  {
    KeysAllIn(m);
    ChildrenAllIn(m, None);
    var work := ChildrenOf(m, None) + KeysOf(m);
    assert forall id :: id in m ==> id in work;
    WalkLists(m, work, []);
  }

  lemma WalkHead<T>(m: Elements<T>, id: OpId, rest: seq<OpId>, done: seq<OpId>)
    requires id in m && AllIn(rest, m)
    ensures AllIn([id] + rest, m) && AllIn(ChildrenOf(m, Some(id)) + rest, m)
    ensures Walk(m, [id] + rest, done) ==
            if id in done then Walk(m, rest, done) else Walk(m, ChildrenOf(m, Some(id)) + rest, done + [id])
  {
    ChildrenAllIn(m, Some(id));
    assert ([id] + rest)[1..] == rest;
  }

  lemma {:induction false} WalkAppend<T>(m: Elements<T>, a: seq<OpId>, b: seq<OpId>, done: seq<OpId>)
    requires AllIn(a, m) && AllIn(b, m)
    ensures Walk(m, a + b, done) == Walk(m, b, Walk(m, a, done))
    decreases Left(m, done), |a|
  {
    if a == [] {
      assert a + b == b;
    } else {
      var id, rest := a[0], a[1..];
      assert id in a && AllIn(rest, m);
      assert a == [id] + rest && a + b == [id] + (rest + b);
      WalkHead(m, id, rest, done);
      WalkHead(m, id, rest + b, done);
      if id in done {
        WalkAppend(m, rest, b, done);
      } else {
        var cs := ChildrenOf(m, Some(id));
        OneLess(m, done, id);
        WalkAppend(m, cs + rest, b, done + [id]);
        assert (cs + rest) + b == cs + (rest + b);
      }
    }
  }

  /** Ids already listed are passed over. */
  lemma {:induction false} WalkListed<T>(m: Elements<T>, work: seq<OpId>, done: seq<OpId>)
    requires AllIn(work, m) && forall id :: id in work ==> id in done
    ensures Walk(m, work, done) == done
  {
    if work != [] { WalkListed(m, work[1..], done); }
  }

  lemma {:induction false} ForestAppend<T>(m: Elements<T>, a: seq<OpId>, b: seq<OpId>)
    requires Anchored(m) && AllIn(a, m) && AllIn(b, m)
    ensures Forest(m, a + b) == Forest(m, a) + Forest(m, b)
  {
    if a == [] {
      assert a + b == b;
    } else {
      assert (a + b)[1..] == a[1..] + b;
      ForestAppend(m, a[1..], b);
    }
  }

  lemma DistinctParts<T>(s: seq<T>, x: T, t: seq<T>)
    requires Distinct(s + [x] + t)
    ensures Distinct(s) && x !in s && Distinct(s + [x])
  {
    var all := s + [x] + t;
    assert all[..|s|] == s && all[|s|] == x && all[..|s| + 1] == s + [x];
  }

  /** On anchored elements, the worklist walk emits the trees of its worklist one after another. */
  lemma {:induction false} WalkIsForest<T>(m: Elements<T>, work: seq<OpId>, done: seq<OpId>)
    requires Anchored(m) && AllIn(work, m)
    requires Distinct(done + Forest(m, work))
    ensures Walk(m, work, done) == done + Forest(m, work)
    decreases Left(m, done), |work|
  {
    if work == [] {
      assert done + Forest(m, work) == done;
    } else {
      var id, rest := work[0], work[1..];
      var cs := ChildrenOf(m, Some(id));
      ChildrenAllIn(m, Some(id));
      TreeUnfold(m, id);
      ForestAppend(m, cs, rest);
      var below := Forest(m, cs + rest);
      assert Forest(m, work) == [id] + below;
      assert done + Forest(m, work) == done + [id] + below;
      DistinctParts(done, id, below);
      OneLess(m, done, id);
      WalkIsForest(m, cs + rest, done + [id]);
    }
  }

  /** On anchored elements the whole order is the preorder, and the second pass adds nothing. */
  lemma OrderedIsPreorder<T>(m: Elements<T>)
    requires Anchored(m)
    ensures Ordered(m) == Preorder(m)
    ensures AllIn(ChildrenOf(m, None), m) && Walk(m, ChildrenOf(m, None), []) == Preorder(m)
  {
    var roots, keys := ChildrenOf(m, None), KeysOf(m);
    ChildrenAllIn(m, None);
    KeysAllIn(m);
    PreorderSorted(m);
    assert [] + Forest(m, roots) == Preorder(m);
    WalkIsForest(m, roots, []);
    WalkAppend(m, roots, keys, []);
    forall id | id in keys ensures id in Preorder(m) {
      assert id in Elems(Preorder(m));
    }
    WalkListed(m, keys, Preorder(m));
  }
}
