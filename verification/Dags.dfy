/**
 The Merkle DAG as a table of nodes: what a set of roots reaches, which nodes have their
 whole ancestry, and how a set of candidate roots is compacted.
 */
module Dags {
  import opened Orders
  import opened Ids

  /** A content id: the hash of a node's bytes. */
  type Cid = Bytes

  /** A set of ids in the order its keys are iterated. */
  function CidsInOrder(s: set<Cid>): seq<Cid> {
    BytesOrderTotal();
    Ascending(s, BytesOrder())
  }

  lemma CidsInOrderLists(s: set<Cid>)
    ensures forall c :: c in CidsInOrder(s) <==> c in s
    ensures Distinct(CidsInOrder(s))
  {
    BytesOrderTotal();
    AscendingSorted(s, BytesOrder());
  }

  lemma CidsAscend(s: set<Cid>, i: nat, j: nat)
    requires i < j < |CidsInOrder(s)|
    ensures BytesOrder()(CidsInOrder(s)[i], CidsInOrder(s)[j])
  {
    BytesOrderTotal();
    AscendingSorted(s, BytesOrder());
  }

  /** `children` are the causal predecessors of the event. */
  datatype Node<P> = Node(event: P, children: set<Cid>)

  /** The nodes that are stored and decode. */
  type Dag<P> = map<Cid, Node<P>>

  function Children<P>(dag: Dag<P>, c: Cid): set<Cid> {
    if c in dag then dag[c].children else {}
  }

  // ---- Reachability ----

  ghost predicate IsPath<P>(dag: Dag<P>, path: seq<Cid>) {
    path != [] && forall i :: 0 <= i < |path| - 1 ==> path[i + 1] in Children(dag, path[i])
  }

  ghost predicate PathTo<P>(dag: Dag<P>, roots: set<Cid>, path: seq<Cid>, c: Cid) {
    IsPath(dag, path) && path[0] in roots && path[|path| - 1] == c
  }

  /** `c` is one of the roots or below one of them, through stored nodes. */
  ghost predicate Reaches<P(!new)>(dag: Dag<P>, roots: set<Cid>, c: Cid) {
    exists path :: PathTo(dag, roots, path, c)
  }

  lemma ReachesRoot<P(!new)>(dag: Dag<P>, roots: set<Cid>, c: Cid)
    requires c in roots
    ensures Reaches(dag, roots, c)
  {
    assert PathTo(dag, roots, [c], c);
  }

  lemma ReachesStep<P(!new)>(dag: Dag<P>, roots: set<Cid>, c: Cid, d: Cid)
    requires Reaches(dag, roots, c) && d in Children(dag, c)
    ensures Reaches(dag, roots, d)
  {
    var path :| PathTo(dag, roots, path, c);
    assert PathTo(dag, roots, path + [d], d);
  }

  ghost predicate ClosedUnder<P>(dag: Dag<P>, s: iset<Cid>) {
    forall c :: c in s ==> forall d :: d in Children(dag, c) ==> d in s
  }

  lemma {:induction false} PathStays<P>(dag: Dag<P>, path: seq<Cid>, s: iset<Cid>)
    requires IsPath(dag, path) && path[0] in s && ClosedUnder(dag, s)
    ensures path[|path| - 1] in s
  {
    if |path| > 1 {
      assert path[1] in Children(dag, path[0]);
      PathStays(dag, path[1..], s);
    }
  }

  /** Reachability is the least set that holds the roots and is closed under children. */
  lemma ReachesLeast<P(!new)>(dag: Dag<P>, roots: set<Cid>, c: Cid, s: iset<Cid>)
    requires Reaches(dag, roots, c)
    requires ClosedUnder(dag, s) && forall r :: r in roots ==> r in s
    ensures c in s
  {
    var path :| PathTo(dag, roots, path, c);
    PathStays(dag, path, s);
  }

  ghost function Reached<P(!new)>(dag: Dag<P>, roots: set<Cid>): iset<Cid> {
    iset c | Reaches(dag, roots, c)
  }

  lemma ReachedClosed<P(!new)>(dag: Dag<P>, roots: set<Cid>)
    ensures ClosedUnder(dag, Reached(dag, roots))
  {
    forall c, d | c in Reached(dag, roots) && d in Children(dag, c) ensures d in Reached(dag, roots) {
      ReachesStep(dag, roots, c, d);
    }
  }

  ghost predicate Grows<P>(dag: Dag<P>, dag': Dag<P>) {
    forall c :: c in dag ==> c in dag' && dag'[c] == dag[c]
  }

  /** A larger table and roots that reach the old ones reach everything they did. */
  lemma ReachesMono<P(!new)>(dag: Dag<P>, roots: set<Cid>, dag': Dag<P>, roots': set<Cid>, c: Cid)
    requires Grows(dag, dag') && forall r :: r in roots ==> Reaches(dag', roots', r)
    requires Reaches(dag, roots, c)
    ensures Reaches(dag', roots', c)
  {
    ReachedClosed(dag', roots');
    assert ClosedUnder(dag, Reached(dag', roots')) by {
      forall x, d | x in Reached(dag', roots') && d in Children(dag, x) ensures d in Reached(dag', roots') {
        assert d in Children(dag', x);
      }
    }
    ReachesLeast(dag, roots, c, Reached(dag', roots'));
  }

  /** Following children descends: what the hash of a node's own bytes guarantees. */
  ghost predicate Acyclic<P>(dag: Dag<P>, rank: Cid -> nat) {
    forall c, d :: d in Children(dag, c) ==> rank(d) < rank(c)
  }

  lemma {:induction false} PathDescends<P>(dag: Dag<P>, path: seq<Cid>, rank: Cid -> nat)
    requires IsPath(dag, path) && Acyclic(dag, rank)
    ensures rank(path[|path| - 1]) <= rank(path[0])
    ensures |path| > 1 ==> rank(path[|path| - 1]) < rank(path[0])
  {
    if |path| > 1 {
      assert path[1] in Children(dag, path[0]);
      PathDescends(dag, path[1..], rank);
    }
  }

  // ---- Whole ancestry ----

  /** `s` holds every node all of whose children it holds. */
  ghost predicate Progressive<P>(dag: Dag<P>, s: set<Cid>) {
    forall c :: c in dag && dag[c].children <= s ==> c in s
  }

  /** Built up from nodes without predecessors: the node and all its ancestors are there. */
  ghost predicate Grounded<P>(dag: Dag<P>, c: Cid) {
    forall s: set<Cid> :: Progressive(dag, s) ==> c in s
  }

  lemma GroundedStored<P>(dag: Dag<P>, c: Cid)
    requires Grounded(dag, c)
    ensures c in dag
  {
    assert Progressive(dag, dag.Keys);
  }

  lemma GroundedUp<P>(dag: Dag<P>, c: Cid)
    requires c in dag && forall d :: d in dag[c].children ==> Grounded(dag, d)
    ensures Grounded(dag, c)
  {
    forall s: set<Cid> | Progressive(dag, s) ensures c in s {
      forall d | d in dag[c].children ensures d in s { assert Grounded(dag, d); }
    }
  }

  lemma GroundedDown<P>(dag: Dag<P>, c: Cid, d: Cid)
    requires Grounded(dag, c) && d in Children(dag, c)
    ensures Grounded(dag, d)
  {
    forall s: set<Cid> | Progressive(dag, s) ensures d in s {
      // The nodes of `s` all of whose children are in `s` are progressive too.
      var t := set x | x in dag && x in s && dag[x].children <= s;
      assert Progressive(dag, t);
      assert c in t;
    }
  }

  /** In an acyclic table, grounded means exactly that every ancestor is stored. */
  lemma GroundedIsWholeAncestry<P(!new)>(dag: Dag<P>, rank: Cid -> nat, c: Cid)
    requires Acyclic(dag, rank)
    ensures Grounded(dag, c) <==> forall d :: Reaches(dag, {c}, d) ==> d in dag
  {
    if Grounded(dag, c) {
      forall d | Reaches(dag, {c}, d) ensures d in dag {
        var g := iset x | Grounded(dag, x);
        assert ClosedUnder(dag, g) by {
          forall x, y | x in g && y in Children(dag, x) ensures y in g { GroundedDown(dag, x, y); }
        }
        ReachesLeast(dag, {c}, d, g);
        GroundedStored(dag, d);
      }
    }
    if forall d :: Reaches(dag, {c}, d) ==> d in dag {
      AncestryGrounds(dag, rank, c);
    }
  }

  lemma {:induction false} AncestryGrounds<P(!new)>(dag: Dag<P>, rank: Cid -> nat, c: Cid)
    requires Acyclic(dag, rank)
    requires forall d :: Reaches(dag, {c}, d) ==> d in dag
    ensures Grounded(dag, c)
    decreases rank(c)
  {
    ReachesRoot(dag, {c}, c);
    forall d | d in dag[c].children ensures Grounded(dag, d) {
      assert d in Children(dag, c);
      forall x | Reaches(dag, {d}, x) ensures x in dag {
        ReachesStep(dag, {c}, c, d);
        ReachesMono(dag, {d}, dag, {c}, x);
      }
      AncestryGrounds(dag, rank, d);
    }
    GroundedUp(dag, c);
  }

  // ---- Compaction ----

  /** The candidates that some reached, stored node names as a predecessor. */
  ghost predicate Subsumed<P(!new)>(dag: Dag<P>, candidates: set<Cid>, c: Cid) {
    exists p :: Reaches(dag, candidates, p) && c in Children(dag, p)
  }

  ghost predicate IsCompaction<P(!new)>(dag: Dag<P>, candidates: set<Cid>, roots: set<Cid>) {
    roots <= candidates && forall c :: c in candidates ==> (c in roots <==> !Subsumed(dag, candidates, c))
  }

  lemma ReachedFromOne<P(!new)>(dag: Dag<P>, roots: set<Cid>, c: Cid) returns (r: Cid)
    requires Reaches(dag, roots, c)
    ensures r in roots && Reaches(dag, {r}, c)
  {
    var path :| PathTo(dag, roots, path, c);
    r := path[0];
    assert PathTo(dag, {r}, path, c);
  }

  lemma ReachDescends<P(!new)>(dag: Dag<P>, rank: Cid -> nat, r: Cid, c: Cid)
    requires Acyclic(dag, rank) && Reaches(dag, {r}, c)
    ensures rank(c) <= rank(r)
  {
    var path :| PathTo(dag, {r}, path, c);
    PathDescends(dag, path, rank);
  }

  /** Above a subsumed candidate there is another one. */
  lemma SubsumedAbove<P(!new)>(dag: Dag<P>, rank: Cid -> nat, candidates: set<Cid>, c: Cid) returns (r: Cid)
    requires Acyclic(dag, rank) && Subsumed(dag, candidates, c)
    ensures r in candidates && rank(c) < rank(r) && Reaches(dag, {r}, c)
  {
    var p :| Reaches(dag, candidates, p) && c in Children(dag, p);
    r := ReachedFromOne(dag, candidates, p);
    ReachDescends(dag, rank, r, p);
    ReachesStep(dag, {r}, p, c);
  }

  ghost function Above(candidates: set<Cid>, rank: Cid -> nat, c: Cid): set<Cid> {
    set x | x in candidates && rank(x) > rank(c)
  }

  lemma ReachesVia<P(!new)>(dag: Dag<P>, roots: set<Cid>, r: Cid, c: Cid)
    requires Reaches(dag, roots, r) && Reaches(dag, {r}, c)
    ensures Reaches(dag, roots, c)
  {
    ReachesMono(dag, {r}, dag, roots, c);
  }

  /** Every candidate is still reached: climb from a subsumed one to one above it. */
  lemma {:induction false} CompactionReaches<P(!new)>(dag: Dag<P>, rank: Cid -> nat, candidates: set<Cid>, roots: set<Cid>, c: Cid)
    requires Acyclic(dag, rank) && IsCompaction(dag, candidates, roots) && c in candidates
    ensures Reaches(dag, roots, c)
    decreases Above(candidates, rank, c)
  {
    if c in roots {
      ReachesRoot(dag, roots, c);
    } else {
      var r := SubsumedAbove(dag, rank, candidates, c);
      assert r in Above(candidates, rank, c) && r !in Above(candidates, rank, r);
      CompactionReaches(dag, rank, candidates, roots, r);
      ReachesVia(dag, roots, r, c);
    }
  }

  lemma SameReach<P(!new)>(dag: Dag<P>, a: set<Cid>, b: set<Cid>)
    requires forall c :: c in a ==> Reaches(dag, b, c)
    requires forall c :: c in b ==> Reaches(dag, a, c)
    ensures Reached(dag, a) == Reached(dag, b)
  {
    forall c ensures Reaches(dag, a, c) <==> Reaches(dag, b, c) {
      if Reaches(dag, a, c) { ReachesMono(dag, a, dag, b, c); }
      if Reaches(dag, b, c) { ReachesMono(dag, b, dag, a, c); }
    }
  }

  /** A compaction reaches exactly what the candidates reached. */
  lemma CompactionExact<P(!new)>(dag: Dag<P>, rank: Cid -> nat, candidates: set<Cid>, roots: set<Cid>)
    requires Acyclic(dag, rank) && IsCompaction(dag, candidates, roots)
    ensures Reached(dag, roots) == Reached(dag, candidates)
  {
    forall c | c in candidates ensures Reaches(dag, roots, c) { CompactionReaches(dag, rank, candidates, roots, c); }
    forall c | c in roots ensures Reaches(dag, candidates, c) { ReachesRoot(dag, candidates, c); }
    SameReach(dag, roots, candidates);
  }

  lemma BelowIsSubsumed<P(!new)>(dag: Dag<P>, candidates: set<Cid>, r: Cid, q: Cid)
    requires r in candidates && Reaches(dag, {r}, q)
    ensures r == q || Subsumed(dag, candidates, q)
  {
    var path :| PathTo(dag, {r}, path, q);
    if |path| > 1 {
      var p := path[|path| - 2];
      assert PathTo(dag, candidates, path[..|path| - 1], p);
      assert q == path[|path| - 2 + 1] && q in Children(dag, p);
    }
  }

  /** No root of a compaction is reachable from another through stored nodes. */
  lemma CompactionAntichain<P(!new)>(dag: Dag<P>, candidates: set<Cid>, roots: set<Cid>)
    requires IsCompaction(dag, candidates, roots)
    ensures forall r, q :: r in roots && q in roots && Reaches(dag, {r}, q) ==> r == q
  {
    forall r, q | r in roots && q in roots && Reaches(dag, {r}, q) ensures r == q {
      BelowIsSubsumed(dag, candidates, r, q);
    }
  }
}
