/** The additive counter: signed amounts by operation id, summed with saturation. */
module Counters {
  import opened Options
  import opened Orders
  import opened Ids
  import opened OpStore
  import opened ChangeScopes

  const U128_MAX: nat := 0xFFFF_FFFF_FFFF_FFFF_FFFF_FFFF_FFFF_FFFF
  const I64_MAX: int := 0x7FFF_FFFF_FFFF_FFFF
  const I64_MIN: int := -0x8000_0000_0000_0000

  type Amounts = map<OpId, int>

  /** An amount, or only its positive or its negative part. */
  datatype Side = Whole | Plus | Minus

  function Of(f: Side, x: int): int {
    match f
    case Whole => x
    case Plus => if x >= 0 then x else 0
    case Minus => if x < 0 then -x else 0
  }

  function PickId(s: set<OpId>): OpId
    requires s != {}
  {
    IdOrderTotal();
    Least(s, IdOrder())
  }

  /** The sum of `f` over the amounts of some of the ids. */
  ghost function Sum(m: Amounts, s: set<OpId>, f: Side): int
    requires s <= m.Keys
    decreases |s|
  {
    if s == {} then 0
    else var x := PickId(s); Of(f, m[x]) + Sum(m, s - {x}, f)
  }

  /** Any id can be taken out first. */
  lemma {:induction false} SumTakes(m: Amounts, s: set<OpId>, f: Side, x: OpId)
    requires s <= m.Keys && x in s
    ensures Sum(m, s, f) == Of(f, m[x]) + Sum(m, s - {x}, f)
    decreases |s|
  {
    var y := PickId(s);
    if x != y {
      SumTakes(m, s - {y}, f, x);
      SumTakes(m, s - {x}, f, y);
      assert s - {y} - {x} == s - {x} - {y};
    }
  }

  lemma {:induction false} SumSplits(m: Amounts, s: set<OpId>, t: set<OpId>, f: Side)
    requires s <= m.Keys && t <= m.Keys && s !! t
    ensures Sum(m, s + t, f) == Sum(m, s, f) + Sum(m, t, f)
    decreases |s|
  {
    if s == {} {
      assert s + t == t;
    } else {
      var x := PickId(s);
      SumTakes(m, s + t, f, x);
      assert (s + t) - {x} == (s - {x}) + t;
      SumSplits(m, s - {x}, t, f);
    }
  }

  lemma {:induction false} SumAgrees(m: Amounts, n: Amounts, s: set<OpId>, f: Side)
    requires s <= m.Keys && s <= n.Keys
    requires forall id :: id in s ==> m[id] == n[id]
    ensures Sum(m, s, f) == Sum(n, s, f)
    decreases |s|
  {
    if s != {} { SumAgrees(m, n, s - {PickId(s)}, f); }
  }

  lemma {:induction false} SumBound(m: Amounts, s: set<OpId>, f: Side, bound: nat)
    requires s <= m.Keys
    requires forall id :: id in s ==> 0 <= Of(f, m[id]) <= bound
    ensures 0 <= Sum(m, s, f) <= |s| * bound
    decreases |s|
  {
    if s != {} {
      var x := PickId(s);
      SumBound(m, s - {x}, f, bound);
      assert |s - {x}| == |s| - 1;
      assert |s| * bound == (|s| - 1) * bound + bound;
    }
  }

  lemma {:induction false} SumDifference(m: Amounts, s: set<OpId>)
    requires s <= m.Keys
    ensures Sum(m, s, Whole) == Sum(m, s, Plus) - Sum(m, s, Minus)
    decreases |s|
  {
    if s != {} { SumDifference(m, s - {PickId(s)}); }
  }

  lemma {:induction false} SumNonNegative(m: Amounts, s: set<OpId>)
    requires s <= m.Keys
    ensures 0 <= Sum(m, s, Plus) && 0 <= Sum(m, s, Minus)
    decreases |s|
  {
    if s != {} { SumNonNegative(m, s - {PickId(s)}); }
  }

  /** The exact sum of all amounts. */
  ghost function Total(m: Amounts): int { Sum(m, m.Keys, Whole) }

  function Saturate(x: int): int { if x > U128_MAX then U128_MAX else x }

  function Clamp(x: int): int { if x > I64_MAX then I64_MAX else if x < I64_MIN then I64_MIN else x }

  /** Amounts that increments and decrements by at most a u64 leave behind. */
  ghost predicate Bounded(m: Amounts) {
    forall id :: id in m ==> -(U64 as int) < m[id] < U64
  }

  /** Merging counts every shared operation once. */
  lemma MergeTotal(a: Amounts, b: Amounts)
    requires forall id :: id in a && id in b ==> a[id] == b[id]
    ensures Total(a + b) == Total(a) + Total(b) - Sum(a, a.Keys * b.Keys, Whole)
  {
    var m := a + b;
    var onlyB := b.Keys - a.Keys;
    var shared := a.Keys * b.Keys;
    assert m.Keys == a.Keys + onlyB;
    SumSplits(m, a.Keys, onlyB, Whole);
    SumAgrees(m, a, a.Keys, Whole);
    SumAgrees(m, b, onlyB, Whole);
    assert b.Keys == shared + onlyB;
    SumSplits(b, shared, onlyB, Whole);
    SumAgrees(a, b, shared, Whole);
  }

  lemma SaturateStep(acc: int, x: int, rest: int)
    requires 0 <= acc <= U128_MAX && 0 <= x && 0 <= rest
    ensures 0 <= Saturate(acc + x) <= U128_MAX
    ensures Saturate(Saturate(acc + x) + rest) == Saturate(acc + (x + rest))
  {
  }

  /** An accumulator to which the amounts of `left` are still to be added. */
  ghost predicate Accumulating(m: Amounts, left: set<OpId>, side: Side, acc: int) {
    left <= m.Keys && 0 <= acc <= U128_MAX && Saturate(acc + Sum(m, left, side)) == Saturate(Sum(m, m.Keys, side))
  }

  lemma AccumulateStep(m: Amounts, left: set<OpId>, side: Side, acc: int, id: OpId)
    requires side != Whole && Accumulating(m, left, side, acc) && id in left
    ensures Accumulating(m, left - {id}, side, Saturate(acc + Of(side, m[id])))
    ensures Of(side, m[id]) == 0 ==> Saturate(acc + Of(side, m[id])) == acc
  {
    SumTakes(m, left, side, id);
    SumNonNegative(m, left - {id});
    SaturateStep(acc, Of(side, m[id]), Sum(m, left - {id}, side));
  }

  /** One pass with two saturating accumulators. */
  method Accumulate(m: Amounts) returns (positive: int, negative: int)
    ensures positive == Saturate(Sum(m, m.Keys, Plus)) && negative == Saturate(Sum(m, m.Keys, Minus))
  {
    positive, negative := 0, 0;
    var left := m.Keys;
    while left != {}
      invariant Accumulating(m, left, Plus, positive) && Accumulating(m, left, Minus, negative)
    {
      var id :| id in left;
      AccumulateStep(m, left, Plus, positive, id);
      AccumulateStep(m, left, Minus, negative, id);
      left := left - {id};
      var amount := m[id];
      if amount >= 0 {
        positive := Saturate(positive + amount);
      } else {
        negative := Saturate(negative - amount);
      }
    }
  }

  class Counter {
    var operations: Amounts
    var field: Bytes

    constructor (tag: Bytes)
      ensures operations == map[] && field == tag
    {
      operations, field := map[], tag;
    }

    method ApplyAmount(id: OpId, amount: int) returns (r: Result<()>)
      modifies this
      ensures field == old(field)
      ensures id in old(operations) ==>
                operations == old(operations) &&
                r == if old(operations)[id] == amount then Ok(()) else Err(DivergentOperation(id))
      ensures id !in old(operations) ==> r == Ok(()) && operations == old(operations)[id := amount]
    {
      if id in operations {
        if operations[id] == amount { return Ok(()); }
        return Err(DivergentOperation(id));
      }
      operations := operations[id := amount];
      r := Ok(());
    }

    /** Increment, decrement and add: one signed amount under a fresh id. */
    method Add(scope: ChangeContext, amount: int, encode: int -> Bytes) returns (r: Result<()>)
      modifies this, scope
      ensures !old(CanAllocate(scope.View())) ==>
                r == Err(AllocationError(old(scope.View()))) && operations == old(operations) && scope.View() == old(scope.View())
      ensures old(CanAllocate(scope.View())) && NextId(old(scope.View())) !in old(operations) ==>
                && r == Ok(()) && operations == old(operations)[NextId(old(scope.View())) := amount]
                && scope.View() == Logged(old(scope.View()), old(field), Payload(9, [Encoded(encode(amount))]))
                && Total(operations) == Total(old(operations)) + amount
      ensures old(CanAllocate(scope.View())) && NextId(old(scope.View())) in old(operations) ==>
                var slots := old(scope.View());
                && operations == old(operations)
                && if old(operations)[NextId(slots)] == amount
                   then r == Ok(()) && scope.View() == Logged(slots, old(field), Payload(9, [Encoded(encode(amount))]))
                   else r == Err(DivergentOperation(NextId(slots))) && scope.View() == Allocated(slots)
    {
      var next := scope.NextOperation();
      if next.Err? { return Err(next.error); }
      ghost var was := operations;
      r := ApplyAmount(next.value, amount);
      if r.Ok? {
        r := scope.RecordOperation(field, next.value, Payload(9, [Encoded(encode(amount))]));
        if next.value !in was {
          SumTakes(operations, operations.Keys, Whole, next.value);
          assert operations.Keys - {next.value} == was.Keys;
          SumAgrees(operations, was, was.Keys, Whole);
        }
      }
    }

    method Value() returns (r: int)
      ensures r == Clamp(Saturate(Sum(operations, operations.Keys, Plus))
                         - Saturate(Sum(operations, operations.Keys, Minus)))
    {
      var positive, negative := Accumulate(operations);
      if positive >= negative {
        r := if positive - negative > I64_MAX then I64_MAX else positive - negative;
      } else {
        r := if negative - positive >= I64_MAX + 1 then I64_MIN else -(negative - positive);
      }
    }

    method Merge(other: Counter) returns (r: Result<()>)
      modifies this
      ensures old(Conflicts(operations, other.operations)) == {} ==>
                && r == Ok(()) && operations == old(operations) + old(other.operations)
                && Total(operations) == Total(old(operations)) + Total(old(other.operations))
                     - Sum(old(operations), old(operations).Keys * old(other.operations).Keys, Whole)
      ensures old(Conflicts(operations, other.operations)) != {} ==>
                && operations == old(operations) && r.Err? && r.error.DivergentOperation?
                && IsLeast(r.error.id, Conflicts(old(operations), old(other.operations)), IdOrder())
    {
      var conflict := FindConflict(operations, other.operations);
      if conflict.Some? { return Err(DivergentOperation(conflict.value)); }
      forall id | id in operations && id in other.operations ensures operations[id] == other.operations[id] {
        assert id !in Conflicts(operations, other.operations);
      }
      MergeTotal(operations, other.operations);
      operations := operations + other.operations;
      r := Ok(());
    }
  }

  /** With at most 2^64 bounded operations nothing saturates: the value is the exact sum, clamped. */
  lemma ValueExact(m: Amounts)
    requires Bounded(m) && |m| <= U64
    ensures 0 <= Sum(m, m.Keys, Plus) <= U128_MAX && 0 <= Sum(m, m.Keys, Minus) <= U128_MAX
    ensures Clamp(Saturate(Sum(m, m.Keys, Plus)) - Saturate(Sum(m, m.Keys, Minus))) == Clamp(Total(m))
  {
    SumBound(m, m.Keys, Plus, U64 - 1);
    SumBound(m, m.Keys, Minus, U64 - 1);
    assert |m.Keys| == |m|;
    assert |m| * (U64 - 1) <= U64 * (U64 - 1);
    SumDifference(m, m.Keys);
  }

  /** So a counter shows the sum of its amounts, or the end of the signed 64-bit range the sum is beyond. */
  lemma ValueRange(m: Amounts)
    requires Bounded(m) && |m| <= U64
    ensures Clamp(Saturate(Sum(m, m.Keys, Plus)) - Saturate(Sum(m, m.Keys, Minus))) ==
            if Total(m) > 0x7FFF_FFFF_FFFF_FFFF then 0x7FFF_FFFF_FFFF_FFFF
            else if Total(m) < -0x8000_0000_0000_0000 then -0x8000_0000_0000_0000
            else Total(m)
  {
    ValueExact(m);
  }

  // ---- Runs of replicated counters ----

  /** A counter operation adds one amount and supersedes nothing. */
  ghost predicate CounterRule(s: Store<int>, id: OpId, op: Op<int>) { op.entry.Some? && op.observed == {} }

  lemma {:induction false} CounterIssues(ws: seq<World<int>>, es: seq<Event<int>>, i: nat)
    requires Run(ws, es, CounterRule) && i < |ws|
    ensures forall id :: id in ws[i].issued ==> ws[i].issued[id].entry.Some? && ws[i].issued[id].observed == {}
  {
    if i > 0 {
      CounterIssues(ws, es, i - 1);
      assert ws[i] == Next(ws[i - 1], es[i - 1], CounterRule);
    }
  }

  /**
   In every run a counter is the received amounts and nothing else, any two counters merge
   by uniting them, and counters that received the same operations have the same sum.
   */
  lemma CounterConverges(ws: seq<World<int>>, es: seq<Event<int>>, i: nat, p: Replica<int>, q: Replica<int>)
    requires Run(ws, es, CounterRule) && i < |ws|
    requires p in ws[i].replicas.Values + ws[i].sent && q in ws[i].replicas.Values + ws[i].sent
    ensures p.state == Store(p.state.entries, {}) && p.state.entries.Keys == p.received
    ensures Join(p.state, q.state) == Store(p.state.entries + q.state.entries, {})
    ensures Total(p.state.entries + q.state.entries) ==
            Total(p.state.entries) + Total(q.state.entries) - Sum(p.state.entries, p.received * q.received, Whole)
    ensures p.received == q.received ==> Total(p.state.entries) == Total(q.state.entries)
  {
    CounterReads(ws, es, i, p);
    CounterReads(ws, es, i, q);
    Convergence(ws, es, CounterRule, i, p, q);
    MergeTotal(p.state.entries, q.state.entries);
  }

  lemma CounterReads(ws: seq<World<int>>, es: seq<Event<int>>, i: nat, p: Replica<int>)
    requires Run(ws, es, CounterRule) && i < |ws| && p in ws[i].replicas.Values + ws[i].sent
    ensures p.state.removed == {} && p.state.entries.Keys == p.received
  {
    RunSound(ws, es, CounterRule, i);
    CounterIssues(ws, es, i);
  }
}
