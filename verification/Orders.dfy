/**
 Strict total orders, and the finite collections the source keeps sorted by them.

 The source iterates `BTreeMap`s and `BTreeSet`s in key order and sorts vectors with
 total comparators.  `Ascending` is that iteration order as a function of the key set;
 `IncreasingUnique` says it is the only one, which is what makes replicas agree.
 */
module Orders {

  ghost predicate Irreflexive<T(!new)>(less: (T, T) -> bool) {
    forall x :: !less(x, x)
  }

  ghost predicate Connected<T(!new)>(less: (T, T) -> bool) {
    forall x, y :: x != y ==> less(x, y) || less(y, x)
  }

  ghost predicate Transitive<T(!new)>(less: (T, T) -> bool) {
    forall x, y, z :: less(x, y) && less(y, z) ==> less(x, z)
  }

  ghost predicate StrictTotal<T(!new)>(less: (T, T) -> bool) {
    Irreflexive(less) && Connected(less) && Transitive(less)
  }

  function Elems<T>(s: seq<T>): set<T> {
    set x | x in s
  }

  ghost predicate Increasing<T>(s: seq<T>, less: (T, T) -> bool) {
    forall i, j :: 0 <= i < j < |s| ==> less(s[i], s[j])
  }

  ghost predicate Distinct<T>(s: seq<T>) {
    forall i, j :: 0 <= i < j < |s| ==> s[i] != s[j]
  }

  /** `a` comes before `b` in `s`. */
  ghost predicate Precedes<T>(s: seq<T>, a: T, b: T) {
    exists i, j :: 0 <= i < j < |s| && s[i] == a && s[j] == b
  }

  /** The elements of `s` that are in `keep`, in order. */
  function Filter<T>(s: seq<T>, keep: set<T>): seq<T> {
    if s == [] then []
    else if s[0] in keep then [s[0]] + Filter(s[1..], keep)
    else Filter(s[1..], keep)
  }

  lemma {:induction false} FilterMembers<T(!new)>(s: seq<T>, keep: set<T>)
    ensures forall x :: x in Filter(s, keep) <==> x in s && x in keep
  {
    if s != [] { FilterMembers(s[1..], keep); }
  }

  lemma {:induction false} FilterAppend<T(!new)>(s: seq<T>, t: seq<T>, keep: set<T>)
    ensures Filter(s + t, keep) == Filter(s, keep) + Filter(t, keep)
  {
    if s == [] {
      assert s + t == t;
    } else {
      assert (s + t)[1..] == s[1..] + t;
      FilterAppend(s[1..], t, keep);
    }
  }

  lemma {:induction false} FilterDistinct<T(!new)>(s: seq<T>, keep: set<T>)
    requires Distinct(s)
    ensures Distinct(Filter(s, keep))
  {
    if s != [] {
      FilterDistinct(s[1..], keep);
      FilterMembers(s[1..], keep);
      assert s[0] !in s[1..];
    }
  }

  lemma {:induction false} FilterIncreasing<T(!new)>(s: seq<T>, keep: set<T>, less: (T, T) -> bool)
    requires Increasing(s, less)
    ensures Increasing(Filter(s, keep), less)
  {
    if s != [] {
      FilterIncreasing(s[1..], keep, less);
      FilterMembers(s[1..], keep);
      assert forall x :: x in Filter(s[1..], keep) ==> less(s[0], x);
    }
  }

  lemma {:induction false} FilterAll<T(!new)>(s: seq<T>, keep: set<T>)
    requires Elems(s) <= keep
    ensures Filter(s, keep) == s
  {
    if s != [] {
      assert forall x :: x in s[1..] ==> x in Elems(s);
      FilterAll(s[1..], keep);
    }
  }

  /** Filtering only looks at the elements of the sequence. */
  lemma {:induction false} FilterSame<T(!new)>(s: seq<T>, keep: set<T>, keep': set<T>)
    requires forall x :: x in s ==> (x in keep <==> x in keep')
    ensures Filter(s, keep) == Filter(s, keep')
  {
    if s != [] { FilterSame(s[1..], keep, keep'); }
  }

  lemma {:induction false} FilterTwice<T(!new)>(s: seq<T>, keep: set<T>, keep': set<T>)
    ensures Filter(Filter(s, keep), keep') == Filter(s, keep * keep')
  {
    if s != [] { FilterTwice(s[1..], keep, keep'); }
  }

  lemma IncreasingDistinct<T(!new)>(s: seq<T>, less: (T, T) -> bool)
    requires StrictTotal(less) && Increasing(s, less)
    ensures Distinct(s)
  {
    forall i, j | 0 <= i < j < |s| ensures s[i] != s[j] {
      assert less(s[i], s[j]);
    }
  }

  /** In an increasing sequence the smaller element comes first. */
  lemma SmallerFirst<T(!new)>(s: seq<T>, less: (T, T) -> bool, a: T, b: T)
    requires StrictTotal(less) && Increasing(s, less)
    requires a in s && b in s && less(a, b)
    ensures Precedes(s, a, b)
  {
    var i :| 0 <= i < |s| && s[i] == a;
    var j :| 0 <= j < |s| && s[j] == b;
    assert !less(a, a) && (less(a, b) && less(b, a) ==> less(a, a));
    assert j <= i ==> j == i || less(b, a);
  }

  lemma DistinctCard<T>(s: seq<T>)
    requires Distinct(s)
    ensures |Elems(s)| == |s|
  {
    if s == [] {
      assert Elems(s) == {};
    } else {
      DistinctCard(s[1..]);
      assert s == [s[0]] + s[1..];
      assert Elems(s) == {s[0]} + Elems(s[1..]);
      assert s[0] !in s[1..];
    }
  }

  lemma TailElems<T>(s: seq<T>)
    requires s != [] && Distinct(s)
    ensures Elems(s[1..]) == Elems(s) - {s[0]}
  {
    assert s == [s[0]] + s[1..];
    assert s[0] !in s[1..];
  }

  ghost predicate IsLeast<T>(x: T, s: set<T>, less: (T, T) -> bool) {
    x in s && forall y :: y in s ==> y == x || less(x, y)
  }

  lemma LeastUnique<T(!new)>(x: T, y: T, s: set<T>, less: (T, T) -> bool)
    requires StrictTotal(less)
    requires IsLeast(x, s, less) && IsLeast(y, s, less)
    ensures x == y
  {
    assert x != y ==> !(less(x, y) && less(y, x));
  }

  lemma HeadIsLeast<T(!new)>(s: seq<T>, less: (T, T) -> bool)
    requires s != [] && Increasing(s, less)
    ensures IsLeast(s[0], Elems(s), less)
  {
    forall y | y in Elems(s) ensures y == s[0] || less(s[0], y) {
      var i :| 0 <= i < |s| && s[i] == y;
    }
  }

  /** A finite set has exactly one increasing enumeration. */
  lemma {:induction false} IncreasingUnique<T(!new)>(s: seq<T>, t: seq<T>, less: (T, T) -> bool)
    requires StrictTotal(less)
    requires Increasing(s, less) && Increasing(t, less)
    requires Elems(s) == Elems(t)
    ensures s == t
  {
    IncreasingDistinct(s, less);
    IncreasingDistinct(t, less);
    DistinctCard(s);
    DistinctCard(t);
    if s != [] {
      HeadIsLeast(s, less);
      HeadIsLeast(t, less);
      LeastUnique(s[0], t[0], Elems(s), less);
      TailElems(s);
      TailElems(t);
      IncreasingUnique(s[1..], t[1..], less);
      assert s == [s[0]] + s[1..] && t == [t[0]] + t[1..];
    }
  }

  lemma {:induction false} LeastExists<T(!new)>(s: set<T>, less: (T, T) -> bool) returns (x: T)
    requires StrictTotal(less) && s != {}
    ensures IsLeast(x, s, less)
  {
    x :| x in s;
    if s != {x} {
      var y := LeastExists(s - {x}, less);
      if less(y, x) {
        x := y;
      } else {
        forall z | z in s && z != x ensures less(x, z) {
          assert z in s - {x};
          assert less(x, y);
        }
      }
    }
  }

  function Least<T(!new)>(s: set<T>, less: (T, T) -> bool): (x: T)
    requires StrictTotal(less) && s != {}
    ensures IsLeast(x, s, less)
  {
    assert exists x :: IsLeast(x, s, less) by {
      var x := LeastExists(s, less);
    }
    assert forall x, y :: IsLeast(x, s, less) && IsLeast(y, s, less) ==> x == y by {
      forall x, y | IsLeast(x, s, less) && IsLeast(y, s, less) ensures x == y {
        LeastUnique(x, y, s, less);
      }
    }
    var x :| x in s && forall y :: y in s ==> y == x || less(x, y);
    x
  }

  lemma ConsIncreasing<T(!new)>(x: T, t: seq<T>, less: (T, T) -> bool)
    requires StrictTotal(less) && Increasing(t, less)
    requires IsLeast(x, {x} + Elems(t), less) && x !in t
    ensures Increasing([x] + t, less) && Elems([x] + t) == {x} + Elems(t)
  {
    forall i | 0 <= i < |t| ensures less(x, t[i]) {
      assert t[i] in Elems(t);
    }
  }

  /** The elements of `s` in the order of `less`: key-order iteration, and `sort_by`. */
  function Ascending<T(!new)>(s: set<T>, less: (T, T) -> bool): seq<T>
    requires StrictTotal(less)
    decreases |s|
  {
    if s == {} then []
    else
      var x := Least(s, less);
      [x] + Ascending(s - {x}, less)
  }

  lemma {:induction false} AscendingSorted<T(!new)>(s: set<T>, less: (T, T) -> bool)
    requires StrictTotal(less)
    ensures Increasing(Ascending(s, less), less)
    ensures forall x :: x in Ascending(s, less) <==> x in s
    ensures Elems(Ascending(s, less)) == s
    ensures Distinct(Ascending(s, less)) && |Ascending(s, less)| == |s|
    decreases |s|
  {
    var r := Ascending(s, less);
    if s != {} {
      var x := Least(s, less);
      AscendingSorted(s - {x}, less);
      ConsIncreasing(x, Ascending(s - {x}, less), less);
    }
    IncreasingDistinct(r, less);
    DistinctCard(r);
  }

  lemma AppendIncreasing<T(!new)>(s: seq<T>, t: seq<T>, less: (T, T) -> bool)
    requires Increasing(s, less) && Increasing(t, less)
    requires forall x, y :: x in s && y in t ==> less(x, y)
    ensures Increasing(s + t, less)
  {
    var r := s + t;
    forall i, j | 0 <= i < j < |r| ensures less(r[i], r[j]) {
      assert i < |s| ==> r[i] in s;
      assert |s| <= j ==> r[j] in t;
    }
  }

  /** Inserting an element at its place keeps an enumeration increasing. */
  lemma SpliceIncreasing<T(!new)>(s: seq<T>, n: nat, x: T, less: (T, T) -> bool)
    requires n <= |s| && Increasing(s, less)
    requires forall i :: 0 <= i < n ==> less(s[i], x)
    requires forall i :: n <= i < |s| ==> less(x, s[i])
    ensures Increasing(s[..n] + [x] + s[n..], less)
    ensures Elems(s[..n] + [x] + s[n..]) == Elems(s) + {x}
  {
    var r := s[..n] + [x] + s[n..];
    forall i, j | 0 <= i < j < |r| ensures less(r[i], r[j]) {
      assert i < n ==> r[i] == s[i];
      assert n < i ==> r[i] == s[i - 1];
      assert j < n ==> r[j] == s[j];
      assert n < j ==> r[j] == s[j - 1];
    }
    assert s == s[..n] + s[n..];
  }

  /** Lexicographic order on sequences: a proper prefix comes first. */
  predicate LexLess<T(==)>(less: (T, T) -> bool, a: seq<T>, b: seq<T>) {
    if b == [] then false
    else if a == [] then true
    else if a[0] == b[0] then LexLess(less, a[1..], b[1..])
    else less(a[0], b[0])
  }

  function Lex<T(==)>(less: (T, T) -> bool): (seq<T>, seq<T>) -> bool {
    (a, b) => LexLess(less, a, b)
  }

  lemma {:induction false} LexIrreflexive<T(!new)>(less: (T, T) -> bool, a: seq<T>)
    ensures !LexLess(less, a, a)
  {
    if a != [] { LexIrreflexive(less, a[1..]); }
  }

  lemma {:induction false} LexConnected<T(!new)>(less: (T, T) -> bool, a: seq<T>, b: seq<T>)
    requires StrictTotal(less) && a != b
    ensures LexLess(less, a, b) || LexLess(less, b, a)
  {
    if a != [] && b != [] && a[0] == b[0] {
      assert a == [a[0]] + a[1..] && b == [b[0]] + b[1..];
      LexConnected(less, a[1..], b[1..]);
    }
  }

  lemma {:induction false} LexTransitive<T(!new)>(less: (T, T) -> bool, a: seq<T>, b: seq<T>, c: seq<T>)
    requires StrictTotal(less)
    requires LexLess(less, a, b) && LexLess(less, b, c)
    ensures LexLess(less, a, c)
  {
    if a != [] && a[0] == b[0] && b[0] == c[0] {
      LexTransitive(less, a[1..], b[1..], c[1..]);
    } else if a != [] && a[0] != b[0] && b[0] != c[0] {
      assert less(a[0], c[0]);
    }
  }

  lemma LexStrictTotal<T(!new)>(less: (T, T) -> bool)
    requires StrictTotal(less)
    ensures StrictTotal(Lex(less))
  {
    forall a, b, c
      ensures !Lex(less)(a, a)
      ensures a != b ==> Lex(less)(a, b) || Lex(less)(b, a)
      ensures Lex(less)(a, b) && Lex(less)(b, c) ==> Lex(less)(a, c)
    {
      LexIrreflexive(less, a);
      if a != b { LexConnected(less, a, b); }
      if LexLess(less, a, b) && LexLess(less, b, c) { LexTransitive(less, a, b, c); }
    }
  }

  /** A common prefix does not matter. */
  lemma {:induction false} LexCommonPrefix<T>(less: (T, T) -> bool, p: seq<T>, a: seq<T>, b: seq<T>)
    ensures LexLess(less, p + a, p + b) <==> LexLess(less, a, b)
  {
    if p == [] {
      assert p + a == a && p + b == b;
    } else {
      assert (p + a)[1..] == p[1..] + a && (p + b)[1..] == p[1..] + b;
      LexCommonPrefix(less, p[1..], a, b);
    }
  }
}
