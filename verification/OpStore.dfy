/**
 The state every convergent type is built from: entries by operation id, plus the ids
 that some operation superseded.  Registers, sets, lists and counters merge it the same
 way (`Join`), and a replicated run of any of them is a run of `Step`.
 */
module OpStore {
  import opened Options
  import opened Orders
  import opened Ids

  datatype Error =
    | DivergentOperation(id: OpId)
    | LogicalClockOverflow
    | IndexOutOfBounds
    | NoChangeScope
    | NestedChangeScope
    | OperationOverflow
    | NoCompletedChange
    | ChangeMismatch

  datatype Result<+T> = Ok(value: T) | Err(error: Error)

  datatype Store<T> = Store(entries: map<OpId, T>, removed: set<OpId>)

  function EmptyStore<T>(): Store<T> { Store(map[], {}) }

  function Visible<T>(s: Store<T>): set<OpId> { s.entries.Keys - s.removed }

  ghost predicate Compatible<T>(a: Store<T>, b: Store<T>) {
    forall id :: id in a.entries && id in b.entries ==> a.entries[id] == b.entries[id]
  }

  function Conflicts<T(==)>(a: map<OpId, T>, b: map<OpId, T>): set<OpId> {
    set id | id in a && id in b && a[id] != b[id]
  }

  function Join<T>(a: Store<T>, b: Store<T>): Store<T> {
    Store(a.entries + b.entries, a.removed + b.removed)
  }

  lemma JoinLaws<T>(a: Store<T>, b: Store<T>, c: Store<T>)
    requires Compatible(a, b) && Compatible(b, c) && Compatible(a, c)
    ensures Join(a, b) == Join(b, a)
    ensures Join(Join(a, b), c) == Join(a, Join(b, c))
    ensures Join(a, a) == a
    ensures Compatible(Join(a, b), c) && Compatible(a, Join(b, c))
  {
    assert (a.entries + b.entries) == (b.entries + a.entries);
    assert (a.entries + b.entries) + c.entries == a.entries + (b.entries + c.entries);
    assert a.entries + a.entries == a.entries;
  }

  lemma FirstConflict<T>(mine: map<OpId, T>, theirs: map<OpId, T>, keys: seq<OpId>, i: nat)
    requires Increasing(keys, IdOrder()) && (forall id :: id in theirs ==> id in keys)
    requires i < |keys| && keys[i] in Conflicts(mine, theirs)
    requires forall k :: 0 <= k < i ==> keys[k] !in Conflicts(mine, theirs)
    ensures IsLeast(keys[i], Conflicts(mine, theirs), IdOrder())
  {
    forall y | y in Conflicts(mine, theirs) && y != keys[i] ensures IdOrder()(keys[i], y) {
      assert y in keys;
      var k :| 0 <= k < |keys| && keys[k] == y;
      assert i < k;
    }
  }

  /** The check every merge starts with: the first id, in id order, the two sides disagree on. */
  method FindConflict<T(==)>(mine: map<OpId, T>, theirs: map<OpId, T>) returns (r: Option<OpId>)
    ensures r.None? <==> Conflicts(mine, theirs) == {}
    ensures r.Some? ==> IsLeast(r.value, Conflicts(mine, theirs), IdOrder())
  {
    IdOrderTotal();
    var keys := Ascending(theirs.Keys, IdOrder());
    AscendingSorted(theirs.Keys, IdOrder());
    for i := 0 to |keys|
      invariant forall k :: 0 <= k < i ==> keys[k] !in Conflicts(mine, theirs)
    {
      var id := keys[i];
      assert id in theirs;
      if id in mine && mine[id] != theirs[id] {
        FirstConflict(mine, theirs, keys, i);
        return Some(id);
      }
    }
    assert forall y :: y in theirs ==> y in keys;
    r := None;
  }

  lemma CompatibleIsNoConflict<T>(a: Store<T>, b: Store<T>)
    ensures Compatible(a, b) <==> Conflicts(a.entries, b.entries) == {}
  {
    if Compatible(a, b) {
      assert Conflicts(a.entries, b.entries) == {};
    } else {
      var id :| id in a.entries && id in b.entries && a.entries[id] != b.entries[id];
      assert id in Conflicts(a.entries, b.entries);
    }
  }

  // ---- Any order and any repetition of merges ----

  function JoinAll<T>(a: Store<T>, bs: seq<Store<T>>): Store<T>
    decreases |bs|
  {
    if bs == [] then a else JoinAll(Join(a, bs[0]), bs[1..])
  }

  ghost predicate PairwiseCompatible<T(!new)>(ss: set<Store<T>>) {
    forall a, b :: a in ss && b in ss ==> Compatible(a, b)
  }

  /** What a bag of merged states amounts to, whatever the order it was merged in. */
  ghost predicate IsUnionOf<T(!new)>(r: Store<T>, ss: set<Store<T>>) {
    && (forall id :: id in r.entries <==> exists s :: s in ss && id in s.entries)
    && (forall id, s :: s in ss && id in s.entries ==> id in r.entries && r.entries[id] == s.entries[id])
    && (forall id :: id in r.removed <==> exists s :: s in ss && id in s.removed)
  }

  lemma {:induction false} JoinAllIsUnion<T(!new)>(a: Store<T>, bs: seq<Store<T>>, ss: set<Store<T>>)
    requires IsUnionOf(a, ss)
    requires PairwiseCompatible(ss + Elems(bs))
    ensures IsUnionOf(JoinAll(a, bs), ss + Elems(bs))
    decreases |bs|
  {
    if bs == [] {
      assert ss + Elems(bs) == ss;
    } else {
      var b := bs[0];
      assert b in Elems(bs);
      assert Elems(bs) == {b} + Elems(bs[1..]) by { assert bs == [b] + bs[1..]; }
      forall id, s | s in ss && id in s.entries && id in b.entries
        ensures s.entries[id] == b.entries[id]
      {
        assert Compatible(s, b);
      }
      assert IsUnionOf(Join(a, b), ss + {b});
      assert (ss + {b}) + Elems(bs[1..]) == ss + Elems(bs);
      JoinAllIsUnion(Join(a, b), bs[1..], ss + {b});
    }
  }

  /** Replicas that have merged the same states, in any order and however often, are equal. */
  lemma MergeOrderIrrelevant<T(!new)>(a: Store<T>, b: Store<T>, as': seq<Store<T>>, bs: seq<Store<T>>)
    requires {a} + Elems(as') == {b} + Elems(bs)
    requires PairwiseCompatible({a} + Elems(as'))
    ensures JoinAll(a, as') == JoinAll(b, bs)
  {
    JoinAllIsUnion(a, as', {a});
    JoinAllIsUnion(b, bs, {b});
    var r, q := JoinAll(a, as'), JoinAll(b, bs);
    assert r.entries.Keys == q.entries.Keys;
    assert r.entries == q.entries;
    assert r.removed == q.removed;
  }

  // ---- Operations, and what a set of received operations means ----

  /** One issued operation: the entry it adds, if any, and the entries it supersedes. */
  datatype Op<T> = Op(entry: Option<T>, observed: set<OpId>)

  type Issued<T> = map<OpId, Op<T>>

  function Apply<T>(s: Store<T>, id: OpId, op: Op<T>): Store<T> {
    Store(if op.entry.Some? then s.entries[id := op.entry.value] else s.entries, s.removed + op.observed)
  }

  /** The state a set of received operations stands for. */
  function Reading<T>(issued: Issued<T>, received: set<OpId>): Store<T> {
    Store(map id | id in received && id in issued && issued[id].entry.Some? :: issued[id].entry.value,
          set id, x | id in received && id in issued && x in issued[id].observed :: x)
  }

  datatype Replica<T> = Replica(state: Store<T>, received: set<OpId>)

  /** Everything issued so far, the replicas, and every state ever sent. */
  datatype World<T(==)> = World(issued: Issued<T>, replicas: map<nat, Replica<T>>, sent: set<Replica<T>>)

  datatype Event<T> =
    | Create(r: nat)
    | Issue(r: nat, id: OpId, op: Op<T>)
    | Send(r: nat)
    | Deliver(r: nat, from: Replica<T>)

  /** What an operation of one of the types may issue in a given state. */
  type Rule<!T> = (Store<T>, OpId, Op<T>) -> bool

  ghost predicate Enabled<T>(w: World<T>, e: Event<T>, rule: Rule<T>) {
    match e
    case Create(r) => r !in w.replicas
    case Issue(r, id, op) =>
      && r in w.replicas
      && id !in w.issued
      && op.observed <= Visible(w.replicas[r].state)
      && rule(w.replicas[r].state, id, op)
    case Send(r) => r in w.replicas
    case Deliver(r, from) => r in w.replicas && from in w.sent
  }

  ghost function Next<T>(w: World<T>, e: Event<T>, rule: Rule<T>): World<T>
    requires Enabled(w, e, rule)
  {
    match e
    case Create(r) => w.(replicas := w.replicas[r := Replica(EmptyStore(), {})])
    case Issue(r, id, op) =>
      var p := w.replicas[r];
      w.(issued := w.issued[id := op],
         replicas := w.replicas[r := Replica(Apply(p.state, id, op), p.received + {id})])
    case Send(r) => w.(sent := w.sent + {w.replicas[r]})
    case Deliver(r, from) =>
      var p := w.replicas[r];
      // A divergent merge leaves the receiver as it was.
      if Compatible(p.state, from.state) then
        w.(replicas := w.replicas[r := Replica(Join(p.state, from.state), p.received + from.received)])
      else w
  }

  ghost predicate Run<T>(ws: seq<World<T>>, es: seq<Event<T>>, rule: Rule<T>) {
    && |ws| == |es| + 1
    && ws[0] == World(map[], map[], {})
    && forall i :: 0 <= i < |es| ==> Enabled(ws[i], es[i], rule) && ws[i + 1] == Next(ws[i], es[i], rule)
  }

  ghost predicate Faithful<T>(issued: Issued<T>, p: Replica<T>) {
    && p.received <= issued.Keys
    && p.state == Reading(issued, p.received)
    && (forall id, x :: id in p.received && x in issued[id].observed ==>
          x in p.received && issued[x].entry.Some?)
  }

  ghost predicate Sound<T(!new)>(w: World<T>) {
    && (forall r :: r in w.replicas ==> Faithful(w.issued, w.replicas[r]))
    && (forall p :: p in w.sent ==> Faithful(w.issued, p))
  }

  lemma FaithfulGrows<T>(issued: Issued<T>, id: OpId, op: Op<T>, p: Replica<T>)
    requires Faithful(issued, p) && id !in issued
    ensures Faithful(issued[id := op], p)
  {
    var more := issued[id := op];
    assert Reading(more, p.received).entries == p.state.entries;
    assert Reading(more, p.received).removed == p.state.removed;
  }

  lemma IssueFaithful<T>(issued: Issued<T>, id: OpId, op: Op<T>, p: Replica<T>)
    requires Faithful(issued, p) && id !in issued && op.observed <= Visible(p.state)
    ensures Faithful(issued[id := op], Replica(Apply(p.state, id, op), p.received + {id}))
  {
    var more := issued[id := op];
    var q := Replica(Apply(p.state, id, op), p.received + {id});
    FaithfulGrows(issued, id, op, p);
    assert Reading(more, q.received).entries == q.state.entries;
    forall x ensures x in q.state.removed <==> x in Reading(more, q.received).removed {
      if x in q.state.removed {
        if x in op.observed { assert id in q.received && x in more[id].observed; }
      }
    }
  }

  /** Replicas fed from one history never diverge, and a merge adds up what was received. */
  lemma MergeFaithful<T>(issued: Issued<T>, p: Replica<T>, q: Replica<T>)
    requires Faithful(issued, p) && Faithful(issued, q)
    ensures Compatible(p.state, q.state)
    ensures Faithful(issued, Replica(Join(p.state, q.state), p.received + q.received))
  {
    var j := Reading(issued, p.received + q.received);
    assert j.entries == p.state.entries + q.state.entries;
    forall x ensures x in j.removed <==> x in p.state.removed + q.state.removed {
      if x in j.removed {
        var id :| id in p.received + q.received && id in issued && x in issued[id].observed;
      }
    }
  }

  lemma StepSound<T(!new)>(w: World<T>, e: Event<T>, rule: Rule<T>)
    requires Sound(w) && Enabled(w, e, rule)
    ensures Sound(Next(w, e, rule))
  {
    var w' := Next(w, e, rule);
    match e
    case Create(r) =>
      assert Reading(w.issued, {}) == EmptyStore<T>();
    case Issue(r, id, op) =>
      IssueFaithful(w.issued, id, op, w.replicas[r]);
      forall q | q in w'.replicas && q != r ensures Faithful(w'.issued, w'.replicas[q]) {
        FaithfulGrows(w.issued, id, op, w.replicas[q]);
      }
      forall p | p in w'.sent ensures Faithful(w'.issued, p) {
        FaithfulGrows(w.issued, id, op, p);
      }
    case Send(r) =>
    case Deliver(r, from) =>
      MergeFaithful(w.issued, w.replicas[r], from);
  }

  /**
   In every run, the state of every replica is the declarative reading of the operations
   it received.
   */
  lemma {:induction false} RunSound<T(!new)>(ws: seq<World<T>>, es: seq<Event<T>>, rule: Rule<T>, i: nat)
    requires Run(ws, es, rule) && i < |ws|
    ensures Sound(ws[i])
  {
    if i > 0 {
      RunSound(ws, es, rule, i - 1);
      StepSound(ws[i - 1], es[i - 1], rule);
    }
  }

  /**
   Strong convergence: two states of any run, wherever and whenever taken, that reflect
   the same operations are the same state; any two of them can be merged; and an entry is
   visible exactly when its operation was received and no received operation observed it.
   */
  lemma Convergence<T(!new)>(ws: seq<World<T>>, es: seq<Event<T>>, rule: Rule<T>, i: nat, p: Replica<T>, q: Replica<T>)
    requires Run(ws, es, rule) && i < |ws|
    requires p in ws[i].replicas.Values + ws[i].sent && q in ws[i].replicas.Values + ws[i].sent
    ensures Compatible(p.state, q.state)
    ensures p.received == q.received ==> p.state == q.state
    ensures forall id :: id in Visible(p.state) <==>
              && id in p.received && id in ws[i].issued && ws[i].issued[id].entry.Some?
              && forall o :: o in p.received && o in ws[i].issued ==> id !in ws[i].issued[o].observed
    ensures p.state.removed <= p.state.entries.Keys
  {
    RunSound(ws, es, rule, i);
    MergeFaithful(ws[i].issued, p, q);
  }

  lemma {:induction false} IssuedGrows<T(!new)>(ws: seq<World<T>>, es: seq<Event<T>>, rule: Rule<T>, i: nat, j: nat)
    requires Run(ws, es, rule) && i <= j < |ws|
    ensures ws[i].issued.Keys <= ws[j].issued.Keys
    ensures forall id :: id in ws[i].issued ==> ws[i].issued[id] == ws[j].issued[id]
    decreases j
  {
    if i < j {
      IssuedGrows(ws, es, rule, i, j - 1);
      var e := es[j - 1];
      assert ws[j] == Next(ws[j - 1], e, rule);
    }
  }
}
