/**
 The replicated list as it is: maps mutated in place, an iterative walk, and
 edits that allocate their ids from the change scope.
 */
module Lists {
  import opened Options
  import opened Orders
  import opened Ids
  import opened OpStore
  import opened ChangeScopes
  import opened ListElements
  import opened ListWalk
  import opened ListSiblings
  import opened ListEdits

  type ChildTable = map<Option<OpId>, seq<OpId>>

  /** The child lists of every anchor that has children. */
  ghost predicate IsChildTable<T>(m: Elements<T>, table: ChildTable) {
    && (forall p :: p in table <==> ChildSet(m, p) != {})
    && (forall p :: p in table ==> table[p] == ChildrenOf(m, p))
  }

  function Reversed<T>(s: seq<T>): (r: seq<T>)
    ensures |r| == |s|
  {
    seq(|s|, i requires 0 <= i < |s| => s[|s| - 1 - i])
  }

  lemma NoChildren<T>(m: Elements<T>, p: Option<OpId>)
    requires ChildSet(m, p) == {}
    ensures ChildrenOf(m, p) == []
  {
  }

  lemma PopReversed<T(!new)>(s: seq<T>)
    requires s != []
    ensures Reversed(s) == [s[|s| - 1]] + Reversed(s[..|s| - 1])
  {
  }

  lemma PushReversed<T(!new)>(s: seq<T>, t: seq<T>)
    ensures Reversed(s + Reversed(t)) == t + Reversed(s)
  {
  }

  ghost predicate Groups<T>(m: Elements<T>, table: ChildTable) {
    && (forall p :: p in table <==> ChildSet(m, p) != {})
    && (forall p :: p in table ==> Elems(table[p]) == ChildSet(m, p))
  }

  /** Elements by anchor, each group in key order. */
  method GroupByAnchor<T>(m: Elements<T>) returns (table: ChildTable)
    ensures Groups(m, table)
  {
    var keys := KeysOf(m);
    KeysAllIn(m);
    table := map[];
    for i := 0 to |keys|
      invariant forall p :: p in table ==> table[p] != []
      invariant forall p, id :: p in table && id in table[p] ==> id in m && m[id].after == p
      invariant forall k :: 0 <= k < i ==> m[keys[k]].after in table && keys[k] in table[m[keys[k]].after]
    {
      var id := keys[i];
      assert id in m;
      var after := m[id].after;
      table := table[after := (if after in table then table[after] else []) + [id]];
    }
    forall p ensures p in table ==> Elems(table[p]) == ChildSet(m, p)
             ensures p in table <==> ChildSet(m, p) != {}
    {
      if p in table { assert table[p][0] in ChildSet(m, p); }
      forall id | id in ChildSet(m, p) ensures p in table && id in table[p] {
        assert id in keys;
      }
    }
  }

  /** `x` and `y` are anchored to `parent`, and `x` is of a later time, or of the same time with the smaller id. */
  predicate Newer<T>(m: Elements<T>, parent: Option<OpId>, x: OpId, y: OpId) {
    && x in m && y in m && m[x].after == parent && m[y].after == parent
    && (m[y].time < m[x].time || (m[x].time == m[y].time && IdLess(x, y)))
  }

  /** Elements anchored to `parent`, the latest first and those of one time by id. */
  ghost predicate Siblings<T>(m: Elements<T>, parent: Option<OpId>, s: seq<OpId>) {
    forall i, j :: 0 <= i < j < |s| ==> Newer(m, parent, s[i], s[j])
  }

  lemma ChildrenAreSiblings<T>(m: Elements<T>, parent: Option<OpId>)
    ensures Siblings(m, parent, ChildrenOf(m, parent))
  {
    var s := ChildrenOf(m, parent);
    forall i, j | 0 <= i < j < |s| ensures Newer(m, parent, s[i], s[j]) { NewestFirst(m, parent, i, j); }
  }

  /** Grouping by anchor, then sorting each group: the child table. */
  method BuildChildTable<T>(m: Elements<T>) returns (table: ChildTable)
    ensures IsChildTable(m, table)
    ensures forall p :: p in table ==> Siblings(m, p, table[p])
  {
    table := GroupByAnchor(m);
    SiblingOrderTotal(m);
    var todo := table.Keys;
    ghost var groups := table;
    while todo != {}
      invariant todo <= table.Keys && table.Keys == groups.Keys
      invariant forall p :: p in table ==> table[p] == if p in todo then groups[p] else ChildrenOf(m, p)
    {
      var p :| p in todo;
      table := table[p := Ascending(Elems(table[p]), SiblingOrder(m))];
      todo := todo - {p};
    }
    forall p | p in table ensures Siblings(m, p, table[p]) { ChildrenAreSiblings(m, p); }
  }

  /** The worklist loop: `pending` is a stack with its top at the end. */
  method AppendDescendants<T>(ghost m: Elements<T>, parent: Option<OpId>, table: ChildTable,
                              visited0: set<OpId>, result0: seq<OpId>)
    returns (visited: set<OpId>, result: seq<OpId>)
    requires IsChildTable(m, table) && visited0 == Elems(result0)
    ensures AllIn(ChildrenOf(m, parent), m) && result == Walk(m, ChildrenOf(m, parent), result0)
    ensures visited == Elems(result)
  {
    visited, result := visited0, result0;
    ChildrenAllIn(m, parent);
    ghost var work := ChildrenOf(m, parent);
    var pending := [];
    if parent in table {
      PushReversed(pending, table[parent]);
      pending := pending + Reversed(table[parent]);
    } else {
      NoChildren(m, parent);
    }
    assert Reversed(pending) == work;
    while pending != []
      invariant visited == Elems(result)
      invariant work == Reversed(pending) && AllIn(work, m)
      invariant Walk(m, work, result) == Walk(m, ChildrenOf(m, parent), result0)
      decreases Left(m, result), |pending|
    {
      PopReversed(pending);
      var id := pending[|pending| - 1];
      pending := pending[..|pending| - 1];
      assert id == work[0] && work[1..] == Reversed(pending);
      work := work[1..];
      if id !in visited {
        OneLess(m, result, id);
        ChildrenAllIn(m, Some(id));
        work := ChildrenOf(m, Some(id)) + work;
        visited := visited + {id};
        result := result + [id];
        if Some(id) in table {
          PushReversed(pending, table[Some(id)]);
          pending := pending + Reversed(table[Some(id)]);
        } else {
          NoChildren(m, Some(id));
        }
      }
    }
  }

  class List<T(==)> {
    var elements: Elements<T>
    var removed: set<OpId>
    var field: Bytes

    ghost function View(): ListState<T> reads this { Store(elements, removed) }

    constructor (tag: Bytes)
      ensures View() == EmptyStore() && field == tag
    {
      elements, removed, field := map[], {}, tag;
    }

    constructor Clone(other: List<T>)
      ensures View() == other.View() && field == other.field
    {
      elements, removed, field := other.elements, other.removed, other.field;
    }

    method OrderedIds() returns (result: seq<OpId>)
      ensures result == Ordered(elements)
      ensures Anchored(elements) ==> NewestPrecede(elements, result)
    {
      var m := elements;
      var table := BuildChildTable(m);
      var visited;
      visited, result := AppendDescendants(m, None, table, {}, []);
      var keys := KeysOf(m);
      KeysAllIn(m);
      WalkAppend(m, ChildrenOf(m, None), keys, []);
      assert keys[0..] == keys;
      for i := 0 to |keys|
        invariant visited == Elems(result)
        invariant AllIn(keys[i..], m) && Walk(m, keys[i..], result) == Ordered(m)
      {
        var id := keys[i];
        assert id in keys && keys[i..] == [id] + keys[i + 1..];
        WalkHead(m, id, keys[i + 1..], result);
        if id !in visited {
          visited := visited + {id};
          ChildrenAllIn(m, Some(id));
          WalkAppend(m, ChildrenOf(m, Some(id)), keys[i + 1..], result + [id]);
          result := result + [id];
          visited, result := AppendDescendants(m, Some(id), table, visited, result);
        }
      }
      if Anchored(m) { OrderedNewestFirst(m); }
    }

    method VisibleList() returns (ids: seq<OpId>)
      ensures ids == VisibleIds(View())
    {
      var order := OrderedIds();
      ids := Filter(order, elements.Keys - removed);
    }

    method Get(index: nat) returns (v: Option<T>)
      ensures v == if index < |Values(View())| then Some(Values(View())[index]) else None
    {
      var ids := VisibleList();
      VisibleIn(View());
      if index < |ids| {
        assert ids[index] in ids;
        v := Some(elements[ids[index]].value);
      } else {
        v := None;
      }
    }

    method Len() returns (n: nat)
      ensures n == |Values(View())|
    {
      var ids := VisibleList();
      n := |ids|;
    }

    method InsertAfterWithId(id: OpId, after: Option<OpId>, value: T) returns (r: Result<()>)
      modifies this
      ensures field == old(field)
      ensures var t := InsertAfter(old(View()), id, after, value);
              if t.Ok? then r == Ok(()) && View() == t.value else r == Err(t.error) && View() == old(View())
    {
      if id in elements {
        if elements[id].after == after && elements[id].value == value { return Ok(()); }
        return Err(DivergentOperation(id));
      }
      var keys := KeysOf(elements);
      KeysAllIn(elements);
      var max := 0;
      for i := 0 to |keys|
        invariant forall k :: 0 <= k < i ==> elements[keys[k]].time <= max
        invariant max == 0 || exists k :: 0 <= k < i && elements[keys[k]].time == max
      {
        assert keys[i] in keys;
        if max < elements[keys[i]].time { max := elements[keys[i]].time; }
      }
      assert IsMaxTime(elements, max) by {
        assert forall x :: x in elements ==> x in keys;
        if max != 0 {
          var k :| 0 <= k < |keys| && elements[keys[k]].time == max;
          assert keys[k] in keys;
        }
      }
      MaxTimeUnique(elements, max);
      if max + 1 > U64_MAX { return Err(LogicalClockOverflow); }
      elements := elements[id := Element(after, max + 1, value)];
      r := Ok(());
    }

    method PushWithId(id: OpId, value: T) returns (r: Result<()>)
      modifies this
      ensures field == old(field)
      ensures var t := PushBack(old(View()), id, value);
              if t.Ok? then r == Ok(()) && View() == t.value else r == Err(t.error) && View() == old(View())
    {
      var order := OrderedIds();
      r := InsertAfterWithId(id, AnchorAt(order, |order|), value);
    }

    method InsertWithId(index: nat, id: OpId, value: T) returns (r: Result<()>)
      modifies this
      ensures field == old(field)
      ensures var t := InsertAt(old(View()), index, id, value);
              if t.Ok? then r == Ok(()) && View() == t.value else r == Err(t.error) && View() == old(View())
    {
      var visible := VisibleList();
      if index > |visible| { return Err(IndexOutOfBounds); }
      r := InsertAfterWithId(id, AnchorAt(visible, index), value);
    }

    method Push(scope: ChangeContext, value: T, encode: T -> Bytes) returns (r: Result<()>)
      modifies this, scope
      ensures field == old(field)
      ensures !old(CanAllocate(scope.View())) ==>
                r == Err(AllocationError(old(scope.View()))) && View() == old(View()) && scope.View() == old(scope.View())
      ensures old(CanAllocate(scope.View())) ==>
                var slots := old(scope.View());
                var t := PushBack(old(View()), NextId(slots), value);
                if t.Ok? then
                  && r == Ok(()) && View() == t.value
                  && scope.View() == Logged(slots, field, Payload(5,
                       [Anchor(t.value.entries[NextId(slots)].after), Encoded(encode(value))]))
                else r == Err(t.error) && View() == old(View()) && scope.View() == Allocated(slots)
    {
      var next := scope.NextOperation();
      if next.Err? { return Err(next.error); }
      var id := next.value;
      var order := OrderedIds();
      var after := AnchorAt(order, |order|);
      r := InsertAfterWithId(id, after, value);
      if r.Ok? {
        r := scope.RecordOperation(field, id, Payload(5, [Anchor(after), Encoded(encode(value))]));
      }
    }

    method Insert(scope: ChangeContext, index: nat, value: T, encode: T -> Bytes) returns (r: Result<()>)
      modifies this, scope
      ensures field == old(field)
      ensures index > |VisibleIds(old(View()))| ==>
                r == Err(IndexOutOfBounds) && View() == old(View()) && scope.View() == old(scope.View())
      ensures index <= |VisibleIds(old(View()))| && !old(CanAllocate(scope.View())) ==>
                r == Err(AllocationError(old(scope.View()))) && View() == old(View()) && scope.View() == old(scope.View())
      ensures index <= |VisibleIds(old(View()))| && old(CanAllocate(scope.View())) ==>
                var slots := old(scope.View());
                var t := InsertAt(old(View()), index, NextId(slots), value);
                if t.Ok? then
                  && r == Ok(()) && View() == t.value
                  && scope.View() == Logged(slots, field, Payload(5,
                       [Anchor(t.value.entries[NextId(slots)].after), Encoded(encode(value))]))
                else r == Err(t.error) && View() == old(View()) && scope.View() == Allocated(slots)
    {
      var visible := VisibleList();
      if index > |visible| { return Err(IndexOutOfBounds); }
      var next := scope.NextOperation();
      if next.Err? { return Err(next.error); }
      var id := next.value;
      var after := AnchorAt(visible, index);
      r := InsertAfterWithId(id, after, value);
      if r.Ok? {
        r := scope.RecordOperation(field, id, Payload(5, [Anchor(after), Encoded(encode(value))]));
      }
    }

    method Remove(scope: ChangeContext, index: nat) returns (r: Result<T>)
      modifies this, scope
      ensures field == old(field)
      ensures index >= |VisibleIds(old(View()))| ==>
                r == Err(IndexOutOfBounds) && View() == old(View()) && scope.View() == old(scope.View())
      ensures index < |VisibleIds(old(View()))| && !old(CanAllocate(scope.View())) ==>
                r == Err(AllocationError(old(scope.View()))) && View() == old(View()) && scope.View() == old(scope.View())
      ensures index < |VisibleIds(old(View()))| && old(CanAllocate(scope.View())) ==>
                && r == Ok(Values(old(View()))[index])
                && RemoveAt(old(View()), index) == Ok(View())
                && scope.View() == Logged(old(scope.View()), field,
                     Payload(6, [OpIds([VisibleIds(old(View()))[index]])]))
    {
      var visible := VisibleList();
      if index >= |visible| { return Err(IndexOutOfBounds); }
      var id := visible[index];
      VisibleIn(View());
      assert id in visible;
      var removal := scope.NextOperation();
      if removal.Err? { return Err(removal.error); }
      var value := elements[id].value;
      var rec := scope.RecordOperation(field, removal.value, Payload(6, [OpIds([id])]));
      assert rec.Ok?;  // the scope that allocated the id is still open
      removed := removed + {id};
      r := Ok(value);
    }

    /** Refused whole when the two sides disagree on an element, naming the first one. */
    method Merge(other: List<T>) returns (r: Result<()>)
      modifies this
      ensures field == old(field)
      ensures old(Compatible(View(), other.View())) ==>
                r == Ok(()) && View() == Join(old(View()), old(other.View()))
      ensures !old(Compatible(View(), other.View())) ==>
                && View() == old(View()) && r.Err? && r.error.DivergentOperation?
                && IsLeast(r.error.id, Conflicts(old(elements), old(other.elements)), IdOrder())
    {
      CompatibleIsNoConflict(View(), other.View());
      var conflict := FindConflict(elements, other.elements);
      if conflict.Some? { return Err(DivergentOperation(conflict.value)); }
      elements := elements + other.elements;
      removed := removed + other.removed;
      r := Ok(());
    }
  }
}
