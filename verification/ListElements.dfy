/**
 The elements of a replicated list: every element names the element it was inserted after
 (its anchor) and carries the logical time of its insertion.
 */
module ListElements {
  import opened Options
  import opened Orders
  import opened Ids

  datatype Element<T> = Element(after: Option<OpId>, time: nat, value: T)

  type Elements<T> = map<OpId, Element<T>>

  /** Every anchor is present and older: what a complete causal history provides. */
  ghost predicate Anchored<T>(m: Elements<T>) {
    forall id {:trigger HasAnchor(m, id)} :: id in m ==> HasAnchor(m, id)
  }

  ghost predicate HasAnchor<T>(m: Elements<T>, id: OpId)
    requires id in m
  {
    var after := m[id].after;
    after.Some? ==> after.value in m && m[after.value].time < m[id].time
  }

  function TimeOf<T>(m: Elements<T>, id: OpId): nat {
    if id in m then m[id].time else 0
  }

  datatype Key = Key(time: nat, id: OpId)

  function KeyOf<T>(m: Elements<T>, id: OpId): Key { Key(TimeOf(m, id), id) }

  /** Later insertions first; concurrent ones by id. */
  predicate KeyLess(a: Key, b: Key) {
    b.time < a.time || (a.time == b.time && IdLess(a.id, b.id))
  }

  function KeyOrder(): (Key, Key) -> bool { KeyLess }

  lemma KeyOrderTotal()
    ensures StrictTotal(KeyOrder())
  {
    IdOrderTotal();
    assert Transitive(KeyOrder()) by {
      forall x, y, z | KeyOrder()(x, y) && KeyOrder()(y, z) ensures KeyOrder()(x, z) {
        if x.time == y.time && y.time == z.time {
          assert IdOrder()(x.id, y.id) && IdOrder()(y.id, z.id);
        }
      }
    }
    assert Connected(KeyOrder()) by {
      forall x, y | x != y && !KeyOrder()(x, y) ensures KeyOrder()(y, x) {
        if x.time == y.time { assert x.id != y.id && !IdOrder()(x.id, y.id); }
      }
    }
    assert Irreflexive(KeyOrder()) by {
      forall x ensures !KeyOrder()(x, x) { assert !IdOrder()(x.id, x.id); }
    }
  }

  function SiblingOrder<T>(m: Elements<T>): (OpId, OpId) -> bool {
    (a, b) => KeyLess(KeyOf(m, a), KeyOf(m, b))
  }

  lemma SiblingOrderTotal<T>(m: Elements<T>)
    ensures StrictTotal(SiblingOrder(m))
  {
    KeyOrderTotal();
    forall x, y, z
      ensures !SiblingOrder(m)(x, x)
      ensures x != y ==> SiblingOrder(m)(x, y) || SiblingOrder(m)(y, x)
      ensures SiblingOrder(m)(x, y) && SiblingOrder(m)(y, z) ==> SiblingOrder(m)(x, z)
    {
      var kx, ky, kz := KeyOf(m, x), KeyOf(m, y), KeyOf(m, z);
      assert !KeyOrder()(kx, kx);
      assert x != y ==> KeyOrder()(kx, ky) || KeyOrder()(ky, kx);
      assert KeyOrder()(kx, ky) && KeyOrder()(ky, kz) ==> KeyOrder()(kx, kz);
    }
  }

  function ChildSet<T>(m: Elements<T>, parent: Option<OpId>): set<OpId> {
    set id | id in m && m[id].after == parent
  }

  /** The elements inserted directly after `parent`, newest first. */
  function ChildrenOf<T>(m: Elements<T>, parent: Option<OpId>): seq<OpId> {
    SiblingOrderTotal(m);
    Ascending(ChildSet(m, parent), SiblingOrder(m))
  }

  lemma ChildrenInMap<T>(m: Elements<T>, parent: Option<OpId>)
    ensures forall id :: id in ChildrenOf(m, parent) <==> id in m && m[id].after == parent
  {
    SiblingOrderTotal(m);
    AscendingSorted(ChildSet(m, parent), SiblingOrder(m));
  }

  /** Of two children, the one listed first was inserted later, or at the same time with the smaller id. */
  lemma NewestFirst<T>(m: Elements<T>, parent: Option<OpId>, i: nat, j: nat)
    requires i < j < |ChildrenOf(m, parent)|
    ensures var x, y := ChildrenOf(m, parent)[i], ChildrenOf(m, parent)[j];
            && x in m && y in m && m[x].after == m[y].after == parent
            && (m[y].time < m[x].time || (m[x].time == m[y].time && IdLess(x, y)))
  {
    var x, y := ChildrenOf(m, parent)[i], ChildrenOf(m, parent)[j];
    ChildrenInMap(m, parent);
    assert x in ChildrenOf(m, parent) && y in ChildrenOf(m, parent);
    ChildrenSorted(m, parent);
    assert SiblingOrder(m)(x, y);
  }

  lemma ChildrenSorted<T>(m: Elements<T>, parent: Option<OpId>)
    ensures Increasing(ChildrenOf(m, parent), SiblingOrder(m))
  {
    SiblingOrderTotal(m);
    AscendingSorted(ChildSet(m, parent), SiblingOrder(m));
  }

  ghost predicate IsMaxTime<T>(m: Elements<T>, t: nat) {
    && (forall id :: id in m ==> m[id].time <= t)
    && (t == 0 || exists id :: id in m && m[id].time == t)
  }

  lemma {:induction false} MaxTimeExists<T>(m: Elements<T>) returns (t: nat)
    ensures IsMaxTime(m, t)
  {
    if m == map[] {
      t := 0;
    } else {
      var id :| id in m;
      t := MaxTimeExists(m - {id});
      assert forall x :: x in m ==> x == id || x in m - {id};
      if t < m[id].time { t := m[id].time; }
    }
  }

  /** The largest logical time in use, 0 for the empty list. */
  ghost function MaxTime<T>(m: Elements<T>): (t: nat)
    ensures IsMaxTime(m, t)
  {
    assert exists t: nat :: IsMaxTime(m, t) by {
      var t := MaxTimeExists(m);
    }
    var t: nat :| IsMaxTime(m, t);
    t
  }

  lemma MaxTimeUnique<T>(m: Elements<T>, t: nat)
    requires IsMaxTime(m, t)
    ensures t == MaxTime(m)
  {
    var u := MaxTime(m);
    assert IsMaxTime(m, u);
  }
}
