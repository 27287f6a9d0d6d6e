/** The multi-value register and the add-wins set, over the shared operation store. */
module Registers {
  import opened Options
  import opened Orders
  import opened Ids
  import opened OpStore
  import opened ChangeScopes

  function InOrder(ids: set<OpId>): seq<OpId> {
    IdOrderTotal();
    Ascending(ids, IdOrder())
  }

  /** The version a register shows: the greatest visible id. */
  function Winner<T>(s: Store<T>): Option<OpId> {
    var ids := InOrder(Visible(s));
    if ids == [] then None else Some(ids[|ids| - 1])
  }

  lemma WinnerIsGreatest<T>(s: Store<T>)
    ensures Winner(s).None? <==> Visible(s) == {}
    ensures Winner(s).Some? ==>
              && Winner(s).value in Visible(s)
              && forall id :: id in Visible(s) ==> id == Winner(s).value || IdLess(id, Winner(s).value)
  {
    IdOrderTotal();
    AscendingSorted(Visible(s), IdOrder());
    var ids := InOrder(Visible(s));
    if ids != [] {
      var w := ids[|ids| - 1];
      assert w in ids;
      forall id | id in Visible(s) && id != w ensures IdLess(id, w) {
        var i :| 0 <= i < |ids| && ids[i] == id;
        assert IdOrder()(ids[i], w);
      }
    }
  }

  function RegisterSet<T(==)>(s: Store<T>, id: OpId, v: T): Result<Store<T>> {
    if id in s.entries then
      if s.entries[id] == v then Ok(s) else Err(DivergentOperation(id))
    else
      Ok(Store(s.entries[id := v], if id in s.removed then s.removed else s.removed + Visible(s)))
  }

  /** What a register issues: one value, superseding every version it shows. */
  ghost predicate RegisterRule<T>(s: Store<T>, id: OpId, op: Op<T>) {
    op.entry.Some? && op.observed == Visible(s)
  }

  /** An assignment that arrives after it was superseded is kept but changes nothing that is seen. */
  lemma LateAssignment<T>(s: Store<T>, id: OpId, v: T)
    requires id !in s.entries && id in s.removed
    ensures RegisterSet(s, id, v).Ok?
    ensures var t := RegisterSet(s, id, v).value;
            id in t.entries && t.entries[id] == v && t.removed == s.removed && Visible(t) == Visible(s)
  {
    assert Visible(RegisterSet(s, id, v).value) == Visible(s);
  }

  /** A fresh assignment is that operation, and leaves exactly the new version visible. */
  lemma RegisterSetIssues<T>(s: Store<T>, id: OpId, v: T)
    requires id !in s.entries && id !in s.removed
    ensures RegisterSet(s, id, v) == Ok(Apply(s, id, Op(Some(v), Visible(s))))
    ensures RegisterRule(s, id, Op(Some(v), Visible(s)))
    ensures Visible(RegisterSet(s, id, v).value) == {id}
    ensures Winner(RegisterSet(s, id, v).value) == Some(id)
  {
    var s' := RegisterSet(s, id, v).value;
    assert Visible(s') == {id};
    WinnerIsGreatest(s');
  }

  /**
   After two replicas assign concurrently and merge, both values are there: neither
   assignment observed the other.
   */
  lemma ConcurrentAssignmentsConflict<T>(p: Store<T>, q: Store<T>, id: OpId, id': OpId, v: T, v': T)
    requires id != id'
    requires id !in p.entries && id !in p.removed && id !in q.entries && id !in q.removed
    requires id' !in p.entries && id' !in p.removed && id' !in q.entries && id' !in q.removed
    requires p.removed <= p.entries.Keys && q.removed <= q.entries.Keys
    ensures var m := Join(RegisterSet(p, id, v).value, RegisterSet(q, id', v').value);
            Visible(m) == {id, id'} && m.entries[id] == v && m.entries[id'] == v'
  {
    var m := Join(RegisterSet(p, id, v).value, RegisterSet(q, id', v').value);
    assert m.removed == p.entries.Keys + q.entries.Keys;
    assert m.entries.Keys == p.entries.Keys + q.entries.Keys + {id, id'};
  }

  class Register<T(==)> {
    var values: map<OpId, T>
    var removed: set<OpId>
    var field: Bytes

    ghost function View(): Store<T> reads this { Store(values, removed) }

    constructor (tag: Bytes)
      ensures View() == EmptyStore() && field == tag
    {
      values, removed, field := map[], {}, tag;
    }

    function VisibleId(): (r: Option<OpId>)
      reads this
      ensures r.None? <==> Visible(View()) == {}
      ensures r.Some? ==> r.value in Visible(View()) && forall id :: id in Visible(View()) ==> id == r.value || IdLess(id, r.value)
    {
      WinnerIsGreatest(View());
      Winner(Store(values, removed))
    }

    function Get(): (r: Option<T>)
      reads this
      ensures r.Some? <==> Visible(View()) != {}
      ensures r.Some? ==> Winner(View()).Some? && Winner(View()).value in values && r.value == values[Winner(View()).value]
    {
      WinnerIsGreatest(View());
      if VisibleId().Some? then Some(values[VisibleId().value]) else None
    }

    /** The versions that lost: visible, and not the one shown. */
    function Losers(): (r: set<OpId>)
      reads this
      ensures Visible(View()) == r + (if Winner(View()).Some? then {Winner(View()).value} else {})
      ensures Winner(View()).Some? ==> Winner(View()).value !in r
    {
      WinnerIsGreatest(View());
      set id | id in values && id !in removed && Some(id) != VisibleId()
    }

    method SetWithId(id: OpId, value: T) returns (r: Result<()>)
      modifies this
      ensures field == old(field)
      ensures var t := RegisterSet(old(View()), id, value);
              if t.Ok? then r == Ok(()) && View() == t.value else r == Err(t.error) && View() == old(View())
    {
      if id in values {
        if values[id] == value { return Ok(()); }
        return Err(DivergentOperation(id));
      }
      if id !in removed {
        var observed := set x | x in values && x !in removed;
        removed := removed + observed;
        assert observed == Visible(old(View()));
      }
      values := values[id := value];
      r := Ok(());
    }

    method Set(scope: ChangeContext, value: T, encode: T -> Bytes) returns (r: Result<()>)
      modifies this, scope
      ensures field == old(field)
      ensures !old(CanAllocate(scope.View())) ==>
                r == Err(AllocationError(old(scope.View()))) && View() == old(View()) && scope.View() == old(scope.View())
      ensures old(CanAllocate(scope.View())) ==>
                var slots := old(scope.View());
                var t := RegisterSet(old(View()), NextId(slots), value);
                if t.Ok? then
                  && r == Ok(()) && View() == t.value
                  && scope.View() == Logged(slots, field, Payload(0,
                       [OpIds(InOrder(Visible(old(View())))), Encoded(encode(value))]))
                else r == Err(t.error) && View() == old(View()) && scope.View() == Allocated(slots)
    {
      var next := scope.NextOperation();
      if next.Err? { return Err(next.error); }
      var observed := InOrder(values.Keys - removed);
      r := SetWithId(next.value, value);
      if r.Ok? {
        r := scope.RecordOperation(field, next.value, Payload(0, [OpIds(observed), Encoded(encode(value))]));
      }
    }

    method Merge(other: Register<T>) returns (r: Result<()>)
      modifies this
      ensures field == old(field)
      ensures old(Compatible(View(), other.View())) ==>
                r == Ok(()) && View() == Join(old(View()), old(other.View()))
      ensures !old(Compatible(View(), other.View())) ==>
                && View() == old(View()) && r.Err? && r.error.DivergentOperation?
                && IsLeast(r.error.id, Conflicts(old(values), old(other.values)), IdOrder())
    {
      CompatibleIsNoConflict(View(), other.View());
      var conflict := FindConflict(values, other.values);
      if conflict.Some? { return Err(DivergentOperation(conflict.value)); }
      removed := removed + other.removed;
      var theirs, todo := other.values, other.values.Keys;
      var mine := values;
      while todo != {}
        invariant todo <= theirs.Keys && theirs == old(other.values) && mine == old(values)
        invariant values == mine + (map id | id in theirs && id !in todo :: theirs[id])
        invariant removed == old(removed) + old(other.removed) && field == old(field)
      {
        var id :| id in todo;
        todo := todo - {id};
        if id !in values { values := values[id := theirs[id]]; }
        assert id in mine ==> mine[id] == theirs[id] by {
          assert id !in Conflicts(mine, theirs);
        }
      }
      r := Ok(());
    }
  }

  // ---- Sets ----

  /** The visible insertions of a value. */
  function Holding<T(==)>(s: Store<T>, v: T): set<OpId> {
    set id | id in s.entries && id !in s.removed && s.entries[id] == v
  }

  function SetInsert<T(==)>(s: Store<T>, id: OpId, v: T): Result<(Store<T>, bool)> {
    if id in s.entries then
      if s.entries[id] == v then Ok((s, false)) else Err(DivergentOperation(id))
    else Ok((s.(entries := s.entries[id := v]), true))
  }

  /** A set operation adds one value, or supersedes the insertions it shows of one value. */
  ghost predicate SetRule<T(!new)>(s: Store<T>, id: OpId, op: Op<T>) {
    if op.entry.Some? then op.observed == {} else exists v :: op.observed == Holding(s, v)
  }

  lemma SetEditsIssue<T(!new)>(s: Store<T>, id: OpId, v: T)
    requires id !in s.entries && s.removed <= s.entries.Keys
    ensures SetInsert(s, id, v) == Ok((Apply(s, id, Op(Some(v), {})), true))
    ensures SetRule(s, id, Op(Some(v), {})) && SetRule(s, id, Op(None, Holding(s, v)))
    ensures id in Holding(Apply(s, id, Op(Some(v), {})), v)
    ensures Holding(Apply(s, id, Op(None, Holding(s, v))), v) == {}
    ensures Holding(s, v) <= Visible(s)
  {
    assert Apply(s, id, Op(Some(v), {})).removed == s.removed;
  }

  /**
   Add wins: a removal only supersedes insertions its replica had received, so an
   insertion it had not received survives the merge.
   */
  lemma AddWins<T(!new)>(issued: Issued<T>, p: Replica<T>, q: Replica<T>, rm: OpId, v: T, add: OpId)
    requires Faithful(issued, p) && Faithful(issued, q) && rm !in issued
    requires add in Holding(q.state, v) && add !in p.received
    ensures add in Holding(Join(Apply(p.state, rm, Op(None, Holding(p.state, v))), q.state), v)
  {
    assert add !in p.state.entries;
    assert add !in p.state.removed;
  }

  class OrSet<T(==)> {
    var operations: map<OpId, T>
    var removed: set<OpId>
    var field: Bytes

    ghost function View(): Store<T> reads this { Store(operations, removed) }

    constructor (tag: Bytes)
      ensures View() == EmptyStore() && field == tag
    {
      operations, removed, field := map[], {}, tag;
    }

    predicate Contains(v: T)
      reads this
      ensures Contains(v) <==> Holding(View(), v) != {}
    {
      assert (exists id :: id in operations && id !in removed && operations[id] == v) <==> Holding(View(), v) != {} by {
        if id :| id in operations && id !in removed && operations[id] == v { assert id in Holding(View(), v); }
      }
      exists id :: id in operations && id !in removed && operations[id] == v
    }

    method InsertWithId(id: OpId, value: T) returns (r: Result<bool>)
      modifies this
      ensures field == old(field)
      ensures var t := SetInsert(old(View()), id, value);
              if t.Ok? then r == Ok(t.value.1) && View() == t.value.0 else r == Err(t.error) && View() == old(View())
    {
      if id in operations {
        if operations[id] == value { return Ok(false); }
        return Err(DivergentOperation(id));
      }
      operations := operations[id := value];
      r := Ok(true);
    }

    method Insert(scope: ChangeContext, value: T, encode: T -> Bytes) returns (r: Result<bool>)
      modifies this, scope
      ensures !old(CanAllocate(scope.View())) ==>
                r == Err(AllocationError(old(scope.View()))) && View() == old(View()) && scope.View() == old(scope.View())
      ensures old(CanAllocate(scope.View())) ==>
                var slots := old(scope.View());
                var t := SetInsert(old(View()), NextId(slots), value);
                if t.Ok? then
                  && r == Ok(t.value.1) && View() == t.value.0
                  && scope.View() == Logged(slots, old(field), Payload(3, [Encoded(encode(value))]))
                else r == Err(t.error) && View() == old(View()) && scope.View() == Allocated(slots)
    {
      var next := scope.NextOperation();
      if next.Err? { return Err(next.error); }
      r := InsertWithId(next.value, value);
      if r.Ok? {
        var rec := scope.RecordOperation(field, next.value, Payload(3, [Encoded(encode(value))]));
        assert rec.Ok?;  // the scope that allocated the id is still open
      }
    }

    /** Nothing is allocated or recorded for a value that is not there. */
    method Remove(scope: ChangeContext, value: T, encode: T -> Bytes) returns (r: Result<bool>)
      modifies this, scope
      ensures Holding(old(View()), value) == {} ==>
                r == Ok(false) && View() == old(View()) && scope.View() == old(scope.View())
      ensures Holding(old(View()), value) != {} && !old(CanAllocate(scope.View())) ==>
                r == Err(AllocationError(old(scope.View()))) && View() == old(View()) && scope.View() == old(scope.View())
      ensures Holding(old(View()), value) != {} && old(CanAllocate(scope.View())) ==>
                var slots := old(scope.View());
                var observed := Holding(old(View()), value);
                && r == Ok(true) && View() == Apply(old(View()), NextId(slots), Op(None, observed))
                && scope.View() == Logged(slots, old(field),
                     Payload(4, [OpIds(InOrder(observed)), Encoded(encode(value))]))
    {
      var observed := set id | id in operations && id !in removed && operations[id] == value;
      assert observed == Holding(View(), value);
      if observed == {} { return Ok(false); }
      var next := scope.NextOperation();
      if next.Err? { return Err(next.error); }
      removed := removed + observed;
      var rec := scope.RecordOperation(field, next.value,
        Payload(4, [OpIds(InOrder(observed)), Encoded(encode(value))]));
      assert rec.Ok?;  // the scope that allocated the id is still open
      r := Ok(true);
    }

    method Merge(other: OrSet<T>) returns (r: Result<()>)
      modifies this
      ensures old(Compatible(View(), other.View())) ==>
                r == Ok(()) && View() == Join(old(View()), old(other.View()))
      ensures !old(Compatible(View(), other.View())) ==>
                && View() == old(View()) && r.Err? && r.error.DivergentOperation?
                && IsLeast(r.error.id, Conflicts(old(operations), old(other.operations)), IdOrder())
    {
      CompatibleIsNoConflict(View(), other.View());
      var conflict := FindConflict(operations, other.operations);
      if conflict.Some? { return Err(DivergentOperation(conflict.value)); }
      operations := operations + other.operations;
      removed := removed + other.removed;
      r := Ok(());
    }
  }
}
