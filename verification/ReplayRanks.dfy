/**
 The replay order said without the queue that computes it: an event comes after another
 exactly if its last predecessor does, and among events with the same last predecessor
 their names decide.
 */
module ReplayRanks {
  import opened Orders
  import opened Ids
  import opened Dags
  import opened Replay

  /** One past the place of the last of `preds` in `order`; 0 if none is there. */
  function Rank(order: seq<Cid>, preds: set<Cid>): nat {
    if order == [] then 0
    else if order[|order| - 1] in preds then |order|
    else Rank(order[..|order| - 1], preds)
  }

  /** What ranks say: the place of the last predecessor. */
  lemma {:induction false} RankMeans(order: seq<Cid>, preds: set<Cid>)
    ensures Rank(order, preds) <= |order|
    ensures Rank(order, preds) > 0 ==> order[Rank(order, preds) - 1] in preds
    ensures forall i :: Rank(order, preds) <= i < |order| ==> order[i] !in preds
  {
    if order != [] && order[|order| - 1] !in preds { RankMeans(order[..|order| - 1], preds); }
  }

  function PredsOf<P>(nodes: Dag<P>, c: Cid): set<Cid> { if c in nodes then nodes[c].children else {} }

  /** Earlier last predecessor first; with the same one, smaller name first. */
  predicate RankLess<P>(nodes: Dag<P>, order: seq<Cid>, a: Cid, b: Cid) {
    var m, n := Rank(order, PredsOf(nodes, a)), Rank(order, PredsOf(nodes, b));
    m < n || (m == n && BytesOrder()(a, b))
  }

  ghost predicate Ranked<P>(nodes: Dag<P>, order: seq<Cid>, s: seq<Cid>) {
    forall i, j :: 0 <= i < j < |s| ==> RankLess(nodes, order, s[i], s[j])
  }

  /** One more emitted: old ranks stay, and the nodes it makes ready get the next one. */
  lemma RankStep(order: seq<Cid>, c: Cid, preds: set<Cid>)
    ensures c !in preds ==> Rank(order + [c], preds) == Rank(order, preds) <= |order|
    ensures c in preds ==> Rank(order + [c], preds) == |order| + 1
  {
    assert (order + [c])[..|order|] == order;
    RankMeans(order, preds);
  }

  lemma RankedStep<P>(nodes: Dag<P>, done: seq<Cid>, queue: seq<Cid>, next: seq<Cid>)
    requires Frontier(nodes, done, queue) && queue != [] && Ranked(nodes, done, done + queue)
    requires next == CidsInOrder(Ready(nodes, Elems(done + [queue[0]]), queue[0]))
    ensures Ranked(nodes, done + [queue[0]], done + queue + next)
  {
    var c, s := queue[0], done + queue;
    var done', all := done + [c], s + next;
    CidsInOrderLists(Ready(nodes, Elems(done'), c));
    assert c !in done by {
      assert s[|done|] == c;
      forall i | 0 <= i < |done| ensures done[i] != c { assert s[i] == done[i]; }
    }
    forall i | 0 <= i < |all|
      ensures i < |s| ==> all[i] == s[i] && Rank(done', PredsOf(nodes, all[i])) == Rank(done, PredsOf(nodes, all[i])) <= |done|
      ensures |s| <= i ==> all[i] == next[i - |s|] && Rank(done', PredsOf(nodes, all[i])) == |done| + 1
    {
      RankStep(done, c, PredsOf(nodes, all[i]));
      if i < |s| { assert s[i] in s; } else { assert next[i - |s|] in next; }
    }
    forall i, j | 0 <= i < j < |all| ensures RankLess(nodes, done', all[i], all[j]) {
      if j < |s| {
        assert RankLess(nodes, done, s[i], s[j]);
      } else if |s| <= i {
        CidsAscend(Ready(nodes, Elems(done'), c), i - |s|, j - |s|);
      }
    }
  }

  lemma {:induction false} KahnRanked<P>(nodes: Dag<P>, done: seq<Cid>, queue: seq<Cid>)
    requires Frontier(nodes, done, queue) && Ranked(nodes, done, done + queue)
    ensures var r := Kahn(nodes, done, queue); Ranked(nodes, r, r)
    decreases |nodes| - |done|
  {
    if queue == [] {
      assert done + queue == done;
    } else {
      var done' := done + [queue[0]];
      var next := CidsInOrder(Ready(nodes, Elems(done'), queue[0]));
      FrontierStep(nodes, done, queue, next);
      FrontierBound(nodes, done', queue[1..] + next);
      RankedStep(nodes, done, queue, next);
      assert done' + (queue[1..] + next) == done + queue + next;
      KahnRanked(nodes, done', queue[1..] + next);
    }
  }

  lemma OriginsRanked<P>(nodes: Dag<P>)
    ensures Ranked(nodes, [], [] + CidsInOrder(Origins(nodes)))
  {
    var q := CidsInOrder(Origins(nodes));
    CidsInOrderLists(Origins(nodes));
    assert [] + q == q;
    forall i, j | 0 <= i < j < |q| ensures RankLess(nodes, [], q[i], q[j]) { CidsAscend(Origins(nodes), i, j); }
  }

  /**
   Of two replayed events the one whose last predecessor was replayed earlier comes first;
   with the same last predecessor, or with none, the one with the smaller name.
   */
  lemma ReplayRanked<P(!new)>(dag: Dag<P>, roots: set<Cid>)
    ensures var r := ReplayOrder(dag, roots);
            forall i, j :: 0 <= i < j < |r| ==>
              && r[i] in dag && r[j] in dag
              && var m, n := Rank(r, dag[r[i]].children), Rank(r, dag[r[j]].children);
                 m < n || (m == n && BytesOrder()(r[i], r[j]))
  {
    var sub := Below(dag, roots);
    OriginsFrontier(sub);
    OriginsRanked(sub);
    KahnRanked(sub, [], CidsInOrder(Origins(sub)));
    ReplayEmits(dag, roots);
    var r := ReplayOrder(dag, roots);
    assert forall i :: 0 <= i < |r| ==> r[i] in r;
    forall i, j | 0 <= i < j < |r|
      ensures r[i] in dag && r[j] in dag
      ensures var m, n := Rank(r, dag[r[i]].children), Rank(r, dag[r[j]].children); m < n || (m == n && BytesOrder()(r[i], r[j]))
    {
      assert RankLess(sub, r, r[i], r[j]);
      assert r[i] in r && r[j] in r;
    }
  }

  // ---- The only such order ----

  /** Predecessors before successors, and otherwise by rank. */
  ghost predicate Replays<P>(dag: Dag<P>, t: seq<Cid>) {
    && Distinct(t)
    && (forall i :: 0 <= i < |t| ==> t[i] in dag && dag[t[i]].children <= Elems(t[..i]))
    && (forall i, j :: 0 <= i < j < |t| ==>
          && t[i] in dag && t[j] in dag
          && var m, n := Rank(t, dag[t[i]].children), Rank(t, dag[t[j]].children);
             m < n || (m == n && BytesOrder()(t[i], t[j])))
  }

  /** The rank of an event is decided by what comes before it. */
  lemma {:induction false} RankOfPrefix(t: seq<Cid>, n: nat, preds: set<Cid>)
    requires Distinct(t) && n <= |t| && preds <= Elems(t[..n])
    ensures Rank(t, preds) == Rank(t[..n], preds)
    decreases |t|
  {
    if n == |t| {
      assert t[..n] == t;
    } else {
      var k := |t| - 1;
      assert t[..k][..n] == t[..n];
      assert t[k] !in preds by {
        forall i | 0 <= i < n ensures t[..n][i] != t[k] {}
      }
      RankOfPrefix(t[..k], n, preds);
    }
  }

  lemma PlaceAfter(t: seq<Cid>, u: seq<Cid>, n: nat) returns (i: nat)
    requires Distinct(t) && n < |t| && n < |u| && t[..n] == u[..n] && Elems(t) == Elems(u) && Distinct(u)
    ensures n <= i < |u| && u[i] == t[n]
  {
    assert t[n] in Elems(u);
    i :| 0 <= i < |u| && u[i] == t[n];
    assert forall k :: 0 <= k < n ==> u[k] == t[..n][k];
  }

  lemma RanksAgree<P>(dag: Dag<P>, t: seq<Cid>, u: seq<Cid>, n: nat)
    requires Replays(dag, t) && Replays(dag, u) && n < |t| && n < |u| && t[..n] == u[..n]
    ensures Rank(t, dag[t[n]].children) == Rank(u, dag[t[n]].children)
  {
    RankOfPrefix(t, n, dag[t[n]].children);
    RankOfPrefix(u, n, dag[t[n]].children);
  }

  lemma NextAgrees<P>(dag: Dag<P>, t: seq<Cid>, u: seq<Cid>, n: nat)
    requires Replays(dag, t) && Replays(dag, u) && Elems(t) == Elems(u)
    requires n < |t| && n < |u| && t[..n] == u[..n]
    ensures t[n] == u[n]
  {
    var i := PlaceAfter(t, u, n);
    var j := PlaceAfter(u, t, n);
    BytesOrderTotal();
    var x, y := t[n], u[n];
    RanksAgree(dag, t, u, n);
    RanksAgree(dag, u, t, n);
    assert !BytesOrder()(x, x) && (BytesOrder()(x, y) && BytesOrder()(y, x) ==> BytesOrder()(x, x));
    assert n < i ==> RankLess(dag, u, y, x);
    assert n < j ==> RankLess(dag, t, x, y);
  }

  lemma {:induction false} PrefixAgrees<P>(dag: Dag<P>, t: seq<Cid>, u: seq<Cid>, n: nat)
    requires Replays(dag, t) && Replays(dag, u) && Elems(t) == Elems(u) && |t| == |u| && n <= |t|
    ensures t[..n] == u[..n]
  {
    if n > 0 {
      PrefixAgrees(dag, t, u, n - 1);
      NextAgrees(dag, t, u, n - 1);
      assert t[..n] == t[..n - 1] + [t[n - 1]] && u[..n] == u[..n - 1] + [u[n - 1]];
    }
  }

  /** The replay order is the only one that lists the reachable events with all their ancestors in this way. */
  lemma ReplayUnique<P(!new)>(dag: Dag<P>, roots: set<Cid>, t: seq<Cid>)
    ensures t == ReplayOrder(dag, roots) <==> Replays(dag, t) && forall c :: c in t <==> Reaches(dag, roots, c) && Grounded(dag, c)
  {
    var r := ReplayOrder(dag, roots);
    ReplayEmits(dag, roots);
    ReplayRanked(dag, roots);
    assert Replays(dag, r);
    if Replays(dag, t) && forall c :: c in t <==> Reaches(dag, roots, c) && Grounded(dag, c) {
      assert Elems(t) == Elems(r);
      DistinctCard(t);
      DistinctCard(r);
      PrefixAgrees(dag, t, r, |t|);
      assert t[..|t|] == t && r[..|t|] == r;
    }
  }
}
