/**
 Replay order: Kahn's algorithm over the reachable nodes, with nodes of incomplete
 ancestry left out.  `KahnOrder` is the order as a function of the node table; the loop
 that computes it is in module `ReplayLoops`.
 */
module Replay {
  import opened Orders
  import opened Dags

  /** The nodes that become ready when `c` is the last of `done` to be emitted. */
  function Ready<P>(nodes: Dag<P>, done: set<Cid>, c: Cid): set<Cid> {
    set s | s in nodes && c in nodes[s].children && nodes[s].children <= done
  }

  function Origins<P>(nodes: Dag<P>): set<Cid> {
    set s | s in nodes && nodes[s].children == {}
  }

  /** Emitted so far, and ready to be emitted: exactly the nodes whose predecessors are emitted. */
  ghost predicate Frontier<P>(nodes: Dag<P>, done: seq<Cid>, queue: seq<Cid>) {
    && Distinct(done + queue)
    && (forall s {:trigger s in nodes} :: s in done + queue <==> s in nodes && nodes[s].children <= Elems(done))
  }

  lemma FrontierStep<P>(nodes: Dag<P>, done: seq<Cid>, queue: seq<Cid>, next: seq<Cid>)
    requires Frontier(nodes, done, queue) && queue != []
    requires next == CidsInOrder(Ready(nodes, Elems(done + [queue[0]]), queue[0]))
    ensures Frontier(nodes, done + [queue[0]], queue[1..] + next)
    ensures queue[0] in nodes && nodes[queue[0]].children <= Elems(done)
  {
    var c, done' := queue[0], done + [queue[0]];
    CidsInOrderLists(Ready(nodes, Elems(done'), c));
    assert Elems(done') == Elems(done) + {c};
    assert c == (done + queue)[|done|];
    assert c in done + queue && c in nodes;
    assert c !in done by {
      forall i | 0 <= i < |done| ensures done[i] != c { assert (done + queue)[i] == done[i]; }
    }
    assert done + queue == done' + queue[1..];
    forall s ensures s in next <==> s in nodes && s !in done + queue && nodes[s].children <= Elems(done') {
      if s in nodes && s !in done + queue && nodes[s].children <= Elems(done') {
        assert !(nodes[s].children <= Elems(done));
      }
    }
    assert done' + (queue[1..] + next) == (done + queue) + next;
    DistinctAppend(done + queue, next);
  }

  lemma DistinctAppend<T>(s: seq<T>, t: seq<T>)
    requires Distinct(s) && Distinct(t) && forall x :: x in t ==> x !in s
    ensures Distinct(s + t)
  {
    var r := s + t;
    forall i, j | 0 <= i < j < |r| ensures r[i] != r[j] {
      assert i < |s| ==> r[i] in s;
      assert |s| <= j ==> r[j] in t;
    }
  }

  lemma FrontierBound<P>(nodes: Dag<P>, done: seq<Cid>, queue: seq<Cid>)
    requires Frontier(nodes, done, queue)
    ensures |done| + |queue| <= |nodes|
  {
    DistinctCard(done + queue);
    assert Elems(done + queue) <= nodes.Keys by {
      forall s | s in Elems(done + queue) ensures s in nodes.Keys { assert s in done + queue; }
    }
    SubsetCard(Elems(done + queue), nodes.Keys);
    assert |nodes.Keys| == |nodes|;
  }

  lemma SubsetCard<T>(a: set<T>, b: set<T>)
    requires a <= b
    ensures |a| <= |b|
  {
    assert b == a + (b - a);
  }

  /** Emission order from a frontier: first in, first out, newly ready nodes in id order. */
  ghost function Kahn<P>(nodes: Dag<P>, done: seq<Cid>, queue: seq<Cid>): seq<Cid>
    requires Frontier(nodes, done, queue)
    decreases |nodes| - |done|
  {
    if queue == [] then done
    else
      var done' := done + [queue[0]];
      var next := CidsInOrder(Ready(nodes, Elems(done'), queue[0]));
      FrontierStep(nodes, done, queue, next);
      FrontierBound(nodes, done', queue[1..] + next);
      Kahn(nodes, done', queue[1..] + next)
  }

  lemma OriginsFrontier<P>(nodes: Dag<P>)
    ensures Frontier(nodes, [], CidsInOrder(Origins(nodes)))
  {
    CidsInOrderLists(Origins(nodes));
    var q := CidsInOrder(Origins(nodes));
    assert [] + q == q;
  }

  ghost function KahnOrder<P>(nodes: Dag<P>): seq<Cid> {
    OriginsFrontier(nodes);
    Kahn(nodes, [], CidsInOrder(Origins(nodes)))
  }

  /** Every emitted node comes after all its predecessors. */
  ghost predicate Causal<P>(nodes: Dag<P>, order: seq<Cid>) {
    forall i :: 0 <= i < |order| ==> order[i] in nodes && nodes[order[i]].children <= Elems(order[..i])
  }

  lemma {:induction false} KahnEmits<P>(nodes: Dag<P>, done: seq<Cid>, queue: seq<Cid>)
    requires Frontier(nodes, done, queue) && Causal(nodes, done)
    ensures var r := Kahn(nodes, done, queue);
            Frontier(nodes, r, []) && Causal(nodes, r)
    decreases |nodes| - |done|
  {
    if queue != [] {
      var done' := done + [queue[0]];
      var next := CidsInOrder(Ready(nodes, Elems(done'), queue[0]));
      FrontierStep(nodes, done, queue, next);
      FrontierBound(nodes, done', queue[1..] + next);
      forall i | 0 <= i < |done'| ensures done'[i] in nodes && nodes[done'[i]].children <= Elems(done'[..i]) {
        assert done'[..i] == done[..i];
        assert i == |done| ==> done[..i] == done;
      }
      KahnEmits(nodes, done', queue[1..] + next);
    }
  }

  lemma {:induction false} CausalGrounded<P>(nodes: Dag<P>, order: seq<Cid>, i: nat)
    requires Causal(nodes, order) && i < |order|
    ensures Grounded(nodes, order[i])
    decreases i
  {
    forall d | d in nodes[order[i]].children ensures Grounded(nodes, d) {
      assert d in Elems(order[..i]);
      var j :| 0 <= j < i && order[j] == d;
      CausalGrounded(nodes, order, j);
    }
    GroundedUp(nodes, order[i]);
  }

  /** Each node once, after its predecessors, and exactly the nodes with all their ancestors. */
  lemma KahnOrderEmits<P>(nodes: Dag<P>)
    ensures Distinct(KahnOrder(nodes)) && Causal(nodes, KahnOrder(nodes))
    ensures forall c :: c in KahnOrder(nodes) <==> Grounded(nodes, c)
  {
    OriginsFrontier(nodes);
    KahnEmits(nodes, [], CidsInOrder(Origins(nodes)));
    var r := KahnOrder(nodes);
    assert r + [] == r;
    forall c ensures c in r <==> Grounded(nodes, c) {
      if c in r {
        var i :| 0 <= i < |r| && r[i] == c;
        CausalGrounded(nodes, r, i);
      }
      assert Progressive(nodes, Elems(r)) by {
        forall s | s in nodes && nodes[s].children <= Elems(r) ensures s in Elems(r) { assert s in r + []; }
      }
      assert Grounded(nodes, c) ==> c in Elems(r);
    }
  }

  // ---- Convergence ----

  /** The nodes with all their ancestors. */
  ghost function GroundedPart<P>(nodes: Dag<P>): Dag<P> {
    map c | c in nodes && Grounded(nodes, c) :: nodes[c]
  }

  lemma ReadyAgrees<P>(a: Dag<P>, b: Dag<P>, done: set<Cid>, c: Cid)
    requires GroundedPart(a) == GroundedPart(b)
    requires forall d :: d in done ==> Grounded(a, d)
    ensures Ready(a, done, c) <= Ready(b, done, c)
  {
    forall s | s in Ready(a, done, c) ensures s in Ready(b, done, c) {
      GroundedUp(a, s);
      assert s in GroundedPart(a) && s in GroundedPart(b);
      assert GroundedPart(a)[s] == GroundedPart(b)[s];
    }
  }

  lemma SameGrounded<P>(a: Dag<P>, b: Dag<P>, c: Cid)
    requires GroundedPart(a) == GroundedPart(b) && Grounded(a, c)
    ensures Grounded(b, c)
  {
    GroundedStored(a, c);
    assert c in GroundedPart(a);
    assert c in GroundedPart(b);
  }

  ghost predicate AllGrounded<P>(nodes: Dag<P>, s: seq<Cid>) {
    forall c :: c in s ==> Grounded(nodes, c)
  }

  lemma StepGrounded<P>(nodes: Dag<P>, done: seq<Cid>, queue: seq<Cid>, next: seq<Cid>)
    requires queue != [] && AllGrounded(nodes, done + queue)
    requires next == CidsInOrder(Ready(nodes, Elems(done + [queue[0]]), queue[0]))
    ensures AllGrounded(nodes, (done + [queue[0]]) + (queue[1..] + next))
  {
    var done' := done + [queue[0]];
    CidsInOrderLists(Ready(nodes, Elems(done'), queue[0]));
    assert done + queue == done' + queue[1..];
    forall s | s in next ensures Grounded(nodes, s) {
      forall d | d in nodes[s].children ensures Grounded(nodes, d) {
        assert d in Elems(done') && d in done + queue;
      }
      GroundedUp(nodes, s);
    }
    assert done' + (queue[1..] + next) == (done + queue) + next;
  }

  lemma ReadySame<P>(a: Dag<P>, b: Dag<P>, done: seq<Cid>, queue: seq<Cid>)
    requires GroundedPart(a) == GroundedPart(b) && queue != []
    requires AllGrounded(a, done + queue) && AllGrounded(b, done + queue)
    ensures Ready(a, Elems(done + [queue[0]]), queue[0]) == Ready(b, Elems(done + [queue[0]]), queue[0])
  {
    assert done + queue == done + [queue[0]] + queue[1..];
    assert forall d :: d in Elems(done + [queue[0]]) ==> d in done + queue;
    ReadyAgrees(a, b, Elems(done + [queue[0]]), queue[0]);
    ReadyAgrees(b, a, Elems(done + [queue[0]]), queue[0]);
  }

  lemma {:induction false} KahnAgrees<P>(a: Dag<P>, b: Dag<P>, done: seq<Cid>, queue: seq<Cid>)
    requires GroundedPart(a) == GroundedPart(b)
    requires Frontier(a, done, queue) && Frontier(b, done, queue)
    requires AllGrounded(a, done + queue) && AllGrounded(b, done + queue)
    ensures Kahn(a, done, queue) == Kahn(b, done, queue)
    decreases |a| - |done|
  {
    if queue != [] {
      var done' := done + [queue[0]];
      var next := CidsInOrder(Ready(a, Elems(done'), queue[0]));
      ReadySame(a, b, done, queue);
      FrontierStep(a, done, queue, next);
      FrontierStep(b, done, queue, next);
      FrontierBound(a, done', queue[1..] + next);
      StepGrounded(a, done, queue, next);
      StepGrounded(b, done, queue, next);
      KahnAgrees(a, b, done', queue[1..] + next);
    }
  }

  /** Nodes of incomplete ancestry influence neither which nodes are emitted nor their order. */
  lemma OrderConverges<P>(a: Dag<P>, b: Dag<P>)
    requires GroundedPart(a) == GroundedPart(b)
    ensures KahnOrder(a) == KahnOrder(b)
  {
    assert Origins(a) == Origins(b) by {
      ReadyOrigins(a, b);
      ReadyOrigins(b, a);
    }
    var q := CidsInOrder(Origins(a));
    OriginsFrontier(a);
    OriginsFrontier(b);
    CidsInOrderLists(Origins(a));
    forall c | c in [] + q ensures Grounded(a, c) && Grounded(b, c) {
      GroundedUp(a, c);
      SameGrounded(a, b, c);
    }
    KahnAgrees(a, b, [], q);
  }

  lemma ReadyOrigins<P>(a: Dag<P>, b: Dag<P>)
    requires GroundedPart(a) == GroundedPart(b)
    ensures Origins(a) <= Origins(b)
  {
    forall s | s in Origins(a) ensures s in Origins(b) {
      GroundedUp(a, s);
      assert s in GroundedPart(a) && s in GroundedPart(b);
      assert GroundedPart(a)[s] == GroundedPart(b)[s];
    }
  }

  // ---- Replay from a set of roots ----

  /** The stored nodes below the roots. */
  ghost function Below<P(!new)>(dag: Dag<P>, roots: set<Cid>): Dag<P> {
    map c | c in dag && Reaches(dag, roots, c) :: dag[c]
  }

  /** A reached node has its ancestors among the reached ones exactly when it has them at all. */
  lemma GroundedBelow<P(!new)>(dag: Dag<P>, roots: set<Cid>, c: Cid)
    ensures Grounded(Below(dag, roots), c) <==> Reaches(dag, roots, c) && Grounded(dag, c)
  {
    var sub := Below(dag, roots);
    if Grounded(sub, c) {
      GroundedStored(sub, c);
      forall s: set<Cid> | Progressive(dag, s) ensures c in s { assert Progressive(sub, s); }
    }
    if Reaches(dag, roots, c) && Grounded(dag, c) {
      forall s: set<Cid> | Progressive(sub, s) ensures c in s {
        var t := set x | x in dag && (x in s || !Reaches(dag, roots, x));
        assert Progressive(dag, t) by {
          forall x | x in dag && dag[x].children <= t ensures x in t {
            if Reaches(dag, roots, x) {
              forall d | d in dag[x].children ensures d in s {
                assert d in Children(dag, x) && d in t;
                ReachesStep(dag, roots, x, d);
              }
              assert x in sub && sub[x].children <= s;
            }
          }
        }
        assert c in t;
      }
    }
  }

  /** The replayed events, in order. */
  ghost function ReplayOrder<P(!new)>(dag: Dag<P>, roots: set<Cid>): seq<Cid> {
    KahnOrder(Below(dag, roots))
  }

  /**
   Replay emits each event at most once, after all its causal predecessors, and emits
   exactly the reachable nodes whose whole ancestry is stored.
   */
  lemma ReplayEmits<P(!new)>(dag: Dag<P>, roots: set<Cid>)
    ensures var r := ReplayOrder(dag, roots);
            && Distinct(r)
            && (forall i :: 0 <= i < |r| ==> r[i] in dag && dag[r[i]].children <= Elems(r[..i]))
            && (forall c :: c in r <==> Reaches(dag, roots, c) && Grounded(dag, c))
  {
    var sub := Below(dag, roots);
    KahnOrderEmits(sub);
    forall c ensures c in ReplayOrder(dag, roots) <==> Reaches(dag, roots, c) && Grounded(dag, c) {
      GroundedBelow(dag, roots, c);
    }
  }

  /** What replay may depend on: the reachable nodes with their whole ancestry. */
  ghost function Complete<P(!new)>(dag: Dag<P>, roots: set<Cid>): Dag<P> {
    map c | c in dag && Reaches(dag, roots, c) && Grounded(dag, c) :: dag[c]
  }

  /**
   Replay convergence: two replicas whose reachable complete parts are the same replay the
   same events in the same order, whichever roots reach them and whatever else is stored.
   */
  lemma ReplayConverges<P(!new)>(dag: Dag<P>, roots: set<Cid>, dag': Dag<P>, roots': set<Cid>)
    requires Complete(dag, roots) == Complete(dag', roots')
    ensures ReplayOrder(dag, roots) == ReplayOrder(dag', roots')
    ensures forall c :: c in ReplayOrder(dag, roots) ==> c in dag && c in dag' && dag[c] == dag'[c]
  {
    CompleteIsGroundedPart(dag, roots);
    CompleteIsGroundedPart(dag', roots');
    OrderConverges(Below(dag, roots), Below(dag', roots'));
    forall c | c in ReplayOrder(dag, roots) ensures c in dag && c in dag' && dag[c] == dag'[c] {
      ReplayEmits(dag, roots);
      GroundedStored(dag, c);
      assert c in Complete(dag, roots) && c in Complete(dag', roots');
      assert Complete(dag, roots)[c] == Complete(dag', roots')[c];
    }
  }

  lemma CompleteIsGroundedPart<P(!new)>(dag: Dag<P>, roots: set<Cid>)
    ensures GroundedPart(Below(dag, roots)) == Complete(dag, roots)
  {
    forall c ensures c in GroundedPart(Below(dag, roots)) <==> c in Complete(dag, roots) {
      GroundedBelow(dag, roots, c);
    }
  }
}
