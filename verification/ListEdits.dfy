/**
 Edits of a replicated list as functions of its state, what they do to the visible
 values, and what every run of replicas editing and merging lists preserves.
 */
module ListEdits {
  import opened Options
  import opened Orders
  import opened Ids
  import opened OpStore
  import opened ListElements
  import opened ListTrees
  import opened ListOrder
  import opened ListWalk

  type ListState<T> = Store<Element<T>>

  const U64_MAX: nat := U64 - 1

  function VisibleIds<T>(s: ListState<T>): seq<OpId> {
    Filter(Ordered(s.entries), Visible(s))
  }

  lemma VisibleIn<T>(s: ListState<T>)
    ensures forall id :: id in VisibleIds(s) <==> id in Visible(s)
  {
    OrderedListsAll(s.entries);
    FilterMembers(Ordered(s.entries), Visible(s));
  }

  function ValuesOf<T>(m: Elements<T>, ids: seq<OpId>): (r: seq<T>)
    requires AllIn(ids, m)
    ensures |r| == |ids|
  {
    seq(|ids|, i requires 0 <= i < |ids| => assert ids[i] in ids; m[ids[i]].value)
  }

  /** The list a caller sees. */
  function Values<T>(s: ListState<T>): (r: seq<T>)
    ensures |r| == |VisibleIds(s)|
  {
    VisibleIn(s);
    ValuesOf(s.entries, VisibleIds(s))
  }

  /** The anchor for an insertion before position `k`. */
  function AnchorAt(ids: seq<OpId>, k: nat): Option<OpId> {
    if 0 < k <= |ids| then Some(ids[k - 1]) else None
  }

  ghost function InsertAfter<T>(s: ListState<T>, id: OpId, after: Option<OpId>, v: T): Result<ListState<T>> {
    if id in s.entries then
      if s.entries[id].after == after && s.entries[id].value == v then Ok(s)
      else Err(DivergentOperation(id))
    else if MaxTime(s.entries) + 1 > U64_MAX then Err(LogicalClockOverflow)
    else Ok(s.(entries := s.entries[id := Element(after, MaxTime(s.entries) + 1, v)]))
  }

  ghost function InsertAt<T>(s: ListState<T>, index: nat, id: OpId, v: T): Result<ListState<T>> {
    if index > |VisibleIds(s)| then Err(IndexOutOfBounds)
    else InsertAfter(s, id, AnchorAt(VisibleIds(s), index), v)
  }

  ghost function PushBack<T>(s: ListState<T>, id: OpId, v: T): Result<ListState<T>> {
    InsertAfter(s, id, AnchorAt(Ordered(s.entries), |Ordered(s.entries)|), v)
  }

  function RemoveAt<T>(s: ListState<T>, index: nat): Result<ListState<T>> {
    if index >= |VisibleIds(s)| then Err(IndexOutOfBounds)
    else Ok(s.(removed := s.removed + {VisibleIds(s)[index]}))
  }

  /** Inserting a text one character at a time, each with its own id. */
  ghost function InsertText(s: ListState<char>, index: nat, ids: seq<OpId>, text: seq<char>): Result<ListState<char>>
    requires |ids| == |text|
    decreases |text|
  {
    if text == [] then Ok(s)
    else
      match InsertAfter(s, ids[0], AnchorAt(VisibleIds(s), index), text[0])
      case Err(e) => Err(e)
      case Ok(s') => InsertText(s', index + 1, ids[1..], text[1..])
  }

  function RemoveRange<T>(s: ListState<T>, index: nat, count: nat): Result<ListState<T>>
    decreases count
  {
    if count == 0 then Ok(s)
    else
      match RemoveAt(s, index)
      case Err(e) => Err(e)
      case Ok(s') => RemoveRange(s', index, count - 1)
  }

  // ---- What edits do to the visible values ----

  ghost predicate ValidList<T>(s: ListState<T>) {
    Anchored(s.entries) && s.removed <= s.entries.Keys
  }

  /** Cutting an order just after its visible element `i - 1` cuts the visible ids at `i`. */
  lemma CutVisible(order: seq<OpId>, keep: set<OpId>, n: nat, i: nat)
    requires Distinct(order) && 0 < n <= |order| && 0 < i <= |Filter(order, keep)|
    requires order[n - 1] == Filter(order, keep)[i - 1]
    ensures Filter(order[..n], keep) == Filter(order, keep)[..i]
    ensures Filter(order[n..], keep) == Filter(order, keep)[i..]
  {
    var vis, x := Filter(order, keep), order[n - 1];
    var a, b := Filter(order[..n - 1], keep), Filter(order[n..], keep);
    FilterMembers(order, keep);
    assert x in vis;
    assert order == order[..n - 1] + [x] + order[n..] && order[..n] == order[..n - 1] + [x];
    FilterAppend(order[..n - 1] + [x], order[n..], keep);
    FilterAppend(order[..n - 1], [x], keep);
    FilterAll([x], keep);
    assert vis == a + [x] + b;
    FilterDistinct(order, keep);
    assert vis[|a|] == x == vis[i - 1];
  }

  lemma PositionOf<T>(s: seq<T>, x: T) returns (n: nat)
    requires x in s
    ensures 0 < n <= |s| && s[n - 1] == x
  {
    var i :| 0 <= i < |s| && s[i] == x;
    n := i + 1;
  }

  /** The order is split at `n` where the visible ids are split at `i`. */
  ghost predicate SplitAt(order: seq<OpId>, keep: set<OpId>, n: nat, i: nat) {
    && n <= |order| && i <= |Filter(order, keep)|
    && Filter(order[..n], keep) == Filter(order, keep)[..i]
    && Filter(order[n..], keep) == Filter(order, keep)[i..]
  }

  /** A fresh element put at `n` in the order appears at `i` in the visible ids. */
  lemma SpliceVisible(order: seq<OpId>, keep: set<OpId>, n: nat, i: nat, id: OpId)
    requires SplitAt(order, keep, n, i) && id !in order
    ensures Filter(order[..n] + [id] + order[n..], keep + {id}) ==
            Filter(order, keep)[..i] + [id] + Filter(order, keep)[i..]
  {
    var k := keep + {id};
    FilterAppend(order[..n] + [id], order[n..], k);
    FilterAppend(order[..n], [id], k);
    FilterSame(order[..n], keep, k);
    FilterSame(order[n..], keep, k);
    FilterAll([id], k);
  }

  /** `m'` holds `m` and gives each of `ids` the value at the same place in `vs`. */
  ghost predicate Extends<T>(m: Elements<T>, m': Elements<T>, ids: seq<OpId>, vs: seq<T>) {
    && SubMap(m, m') && |ids| == |vs|
    && forall k :: 0 <= k < |ids| ==> ids[k] in m' && m'[ids[k]].value == vs[k]
  }

  lemma ValuesSplice<T>(m: Elements<T>, m': Elements<T>, vis: seq<OpId>, i: nat, ids: seq<OpId>, vs: seq<T>)
    requires AllIn(vis, m) && i <= |vis| && Extends(m, m', ids, vs)
    ensures AllIn(vis[..i] + ids + vis[i..], m')
    ensures ValuesOf(m', vis[..i] + ids + vis[i..]) == ValuesOf(m, vis)[..i] + vs + ValuesOf(m, vis)[i..]
  {
    var r := vis[..i] + ids + vis[i..];
    forall j | 0 <= j < |r|
      ensures r[j] in m'
      ensures m'[r[j]].value == (ValuesOf(m, vis)[..i] + vs + ValuesOf(m, vis)[i..])[j]
    {
      if j < i {
        assert r[j] == vis[j] && vis[j] in vis;
      } else if j < i + |ids| {
        assert r[j] == ids[j - i];
      } else {
        assert r[j] == vis[j - |ids|] && vis[j - |ids|] in vis;
      }
    }
  }

  lemma InsertionOrdered<T>(m: Elements<T>, m': Elements<T>, id: OpId, after: Option<OpId>, v: T, n: nat)
    requires Anchored(m) && IsInsertion(m, m', id, after, v) && IsPosition(Ordered(m), after, n)
    ensures Anchored(m') && n <= |Ordered(m)| && Ordered(m') == Ordered(m)[..n] + [id] + Ordered(m)[n..]
  {
    OrderedIsPreorder(m);
    InsertionPosition(m, m', id, after, v, n);
    OrderedIsPreorder(m');
  }

  /** Inserting after an element puts the new id right behind it, wherever hidden elements are. */
  lemma InsertionVisible<T>(s: ListState<T>, s': ListState<T>, id: OpId, after: Option<OpId>, v: T, n: nat, i: nat)
    requires ValidList(s) && s'.removed == s.removed
    requires IsInsertion(s.entries, s'.entries, id, after, v)
    requires IsPosition(Ordered(s.entries), after, n)
    requires SplitAt(Ordered(s.entries), Visible(s), n, i)
    ensures ValidList(s') && i <= |VisibleIds(s)|
    ensures VisibleIds(s') == VisibleIds(s)[..i] + [id] + VisibleIds(s)[i..]
  {
    InsertionOrdered(s.entries, s'.entries, id, after, v, n);
    OrderedListsAll(s.entries);
    assert Visible(s') == Visible(s) + {id};
    SpliceVisible(Ordered(s.entries), Visible(s), n, i, id);
  }

  /** Where an insertion at a visible index goes in the whole order. */
  lemma PlaceOf<T>(s: ListState<T>, index: nat) returns (n: nat)
    requires index <= |VisibleIds(s)|
    ensures IsPosition(Ordered(s.entries), AnchorAt(VisibleIds(s), index), n)
    ensures SplitAt(Ordered(s.entries), Visible(s), n, index)
  {
    var order, vis := Ordered(s.entries), VisibleIds(s);
    OrderedListsAll(s.entries);
    if index == 0 {
      n := 0;
      assert order[..0] == [] && order[0..] == order;
    } else {
      VisibleIn(s);
      assert vis[index - 1] in vis;
      n := PositionOf(order, vis[index - 1]);
      CutVisible(order, Visible(s), n, index);
    }
  }

  lemma InsertAtVisible<T>(s: ListState<T>, index: nat, id: OpId, v: T)
    requires ValidList(s) && id !in s.entries && MaxTime(s.entries) < U64_MAX
    requires index <= |VisibleIds(s)|
    ensures InsertAt(s, index, id, v).Ok?
    ensures var s' := InsertAt(s, index, id, v).value;
            && ValidList(s') && Extends(s.entries, s'.entries, [id], [v])
            && s'.entries.Keys == s.entries.Keys + {id}
            && VisibleIds(s') == VisibleIds(s)[..index] + [id] + VisibleIds(s)[index..]
            && MaxTime(s'.entries) == MaxTime(s.entries) + 1
  {
    var s' := InsertAt(s, index, id, v).value;
    assert IsMaxTime(s'.entries, MaxTime(s.entries) + 1) by {
      assert s'.entries[id].time == MaxTime(s.entries) + 1;
    }
    MaxTimeUnique(s'.entries, MaxTime(s.entries) + 1);
    var n := PlaceOf(s, index);
    OrderedListsAll(s.entries);
    assert n > 0 ==> Ordered(s.entries)[n - 1] in Ordered(s.entries);
    InsertionVisible(s, s', id, AnchorAt(VisibleIds(s), index), v, n, index);
  }

  /** Insertion at `index` does exactly that to the visible values. */
  lemma InsertAtEffect<T>(s: ListState<T>, index: nat, id: OpId, v: T)
    requires ValidList(s) && id !in s.entries && MaxTime(s.entries) < U64_MAX
    requires index <= |VisibleIds(s)|
    ensures InsertAt(s, index, id, v).Ok?
    ensures var s' := InsertAt(s, index, id, v).value;
            ValidList(s') && Values(s') == Values(s)[..index] + [v] + Values(s)[index..]
  {
    InsertAtVisible(s, index, id, v);
    VisibleIn(s);
    ValuesSplice(s.entries, InsertAt(s, index, id, v).value.entries, VisibleIds(s), index, [id], [v]);
  }

  lemma PushBackVisible<T>(s: ListState<T>, id: OpId, v: T)
    requires ValidList(s) && id !in s.entries && MaxTime(s.entries) < U64_MAX
    ensures PushBack(s, id, v).Ok?
    ensures var s' := PushBack(s, id, v).value;
            && ValidList(s') && Extends(s.entries, s'.entries, [id], [v])
            && VisibleIds(s') == VisibleIds(s)[..|VisibleIds(s)|] + [id] + VisibleIds(s)[|VisibleIds(s)|..]
  {
    var s', order, vis := PushBack(s, id, v).value, Ordered(s.entries), VisibleIds(s);
    OrderedListsAll(s.entries);
    assert order[..|order|] == order && order[|order|..] == [];
    InsertionVisible(s, s', id, AnchorAt(order, |order|), v, |order|, |vis|);
  }

  lemma PushBackEffect<T>(s: ListState<T>, id: OpId, v: T)
    requires ValidList(s) && id !in s.entries && MaxTime(s.entries) < U64_MAX
    ensures PushBack(s, id, v).Ok?
    ensures var s' := PushBack(s, id, v).value; ValidList(s') && Values(s') == Values(s) + [v]
  {
    PushBackVisible(s, id, v);
    VisibleIn(s);
    ValuesSplice(s.entries, PushBack(s, id, v).value.entries, VisibleIds(s), |VisibleIds(s)|, [id], [v]);
    assert Values(s)[..|VisibleIds(s)|] == Values(s);
  }

  lemma {:induction false} FilterOut(s: seq<OpId>, keep: set<OpId>, i: nat)
    requires Distinct(s) && i < |Filter(s, keep)|
    ensures Filter(s, keep - {Filter(s, keep)[i]}) == Filter(s, keep)[..i] + Filter(s, keep)[i + 1..]
  {
    var vis, tail := Filter(s, keep), Filter(s[1..], keep);
    var k := keep - {vis[i]};
    FilterMembers(s[1..], keep);
    assert s[0] !in s[1..];
    if s[0] !in keep {
      FilterOut(s[1..], keep, i);
    } else if i == 0 {
      FilterSame(s[1..], keep, k);
    } else {
      assert vis[i] == tail[i - 1] && tail[i - 1] in tail;
      FilterOut(s[1..], keep, i - 1);
      assert Filter(s, k) == [s[0]] + Filter(s[1..], k);
      assert [s[0]] + tail[..i - 1] == vis[..i] && tail[i..] == vis[i + 1..];
    }
  }

  lemma RemoveAtVisible<T>(s: ListState<T>, index: nat)
    requires ValidList(s) && index < |VisibleIds(s)|
    ensures var s' := RemoveAt(s, index).value;
            ValidList(s') && VisibleIds(s') == VisibleIds(s)[..index] + VisibleIds(s)[index + 1..]
  {
    var s', x := RemoveAt(s, index).value, VisibleIds(s)[index];
    VisibleIn(s);
    assert x in VisibleIds(s);
    OrderedListsAll(s.entries);
    assert Visible(s') == Visible(s) - {x};
    FilterOut(Ordered(s.entries), Visible(s), index);
  }

  lemma RemoveAtEffect<T>(s: ListState<T>, index: nat)
    requires ValidList(s) && index < |VisibleIds(s)|
    ensures var s' := RemoveAt(s, index).value;
            ValidList(s') && Values(s') == Values(s)[..index] + Values(s)[index + 1..]
  {
    RemoveAtVisible(s, index);
  }

  ghost predicate FreshIds<T>(s: ListState<T>, ids: seq<OpId>) {
    Distinct(ids) && forall id :: id in ids ==> id !in s.entries
  }

  lemma SpliceNext<T>(vis: seq<T>, vis1: seq<T>, i: nat, ids: seq<T>)
    requires i <= |vis| && ids != [] && vis1 == vis[..i] + [ids[0]] + vis[i..]
    ensures vis1[..i + 1] + ids[1..] + vis1[i + 1..] == vis[..i] + ids + vis[i..]
  {
    assert ids == [ids[0]] + ids[1..];
    assert vis1[..i + 1] == vis[..i] + [ids[0]] && vis1[i + 1..] == vis[i..];
  }

  lemma ExtendsNext<T>(m: Elements<T>, m1: Elements<T>, m2: Elements<T>, ids: seq<OpId>, vs: seq<T>)
    requires |ids| == |vs| > 0
    requires Extends(m, m1, [ids[0]], [vs[0]]) && Extends(m1, m2, ids[1..], vs[1..])
    ensures Extends(m, m2, ids, vs)
  {
    forall k | 0 <= k < |ids| ensures ids[k] in m2 && m2[ids[k]].value == vs[k] {
      if k == 0 { assert [ids[0]][0] in m1; } else { assert ids[k] == ids[1..][k - 1] && vs[k] == vs[1..][k - 1]; }
    }
  }

  lemma FreshTail<T>(s: ListState<T>, s1: ListState<T>, ids: seq<OpId>)
    requires ids != [] && FreshIds(s, ids) && s1.entries.Keys == s.entries.Keys + {ids[0]}
    ensures FreshIds(s1, ids[1..])
  {
    assert forall j :: 1 <= j < |ids| ==> ids[j] in ids && ids[j] != ids[0];
  }

  lemma {:induction false} InsertTextVisible(s: ListState<char>, index: nat, ids: seq<OpId>, text: seq<char>)
    requires |ids| == |text| && ValidList(s) && FreshIds(s, ids) && index <= |VisibleIds(s)|
    ensures InsertText(s, index, ids, text).Ok? <==> text == [] || MaxTime(s.entries) + |text| <= U64_MAX
    ensures InsertText(s, index, ids, text).Err? ==> InsertText(s, index, ids, text).error.LogicalClockOverflow?
    ensures InsertText(s, index, ids, text).Ok? ==>
              var s' := InsertText(s, index, ids, text).value;
              && ValidList(s') && Extends(s.entries, s'.entries, ids, text)
              && VisibleIds(s') == VisibleIds(s)[..index] + ids + VisibleIds(s)[index..]
    decreases |text|
  {
    if text == [] {
      assert VisibleIds(s)[..index] + ids + VisibleIds(s)[index..] == VisibleIds(s);
    } else if MaxTime(s.entries) < U64_MAX {
      assert ids[0] in ids;
      InsertAtVisible(s, index, ids[0], text[0]);
      var s1 := InsertAt(s, index, ids[0], text[0]).value;
      FreshTail(s, s1, ids);
      InsertTextVisible(s1, index + 1, ids[1..], text[1..]);
      SpliceNext(VisibleIds(s), VisibleIds(s1), index, ids);
      var r := InsertText(s, index, ids, text);
      assert r == InsertText(s1, index + 1, ids[1..], text[1..]);
      if r.Ok? { ExtendsNext(s.entries, s1.entries, r.value.entries, ids, text); }
    }
  }

  /** Inserting a text splices it in whole, or fails on clock overflow. */
  lemma InsertTextEffect(s: ListState<char>, index: nat, ids: seq<OpId>, text: seq<char>)
    requires |ids| == |text| && ValidList(s) && FreshIds(s, ids) && index <= |VisibleIds(s)|
    ensures InsertText(s, index, ids, text).Ok? <==> text == [] || MaxTime(s.entries) + |text| <= U64_MAX
    ensures InsertText(s, index, ids, text).Err? ==> InsertText(s, index, ids, text).error.LogicalClockOverflow?
    ensures InsertText(s, index, ids, text).Ok? ==>
              var s' := InsertText(s, index, ids, text).value;
              ValidList(s') && Values(s') == Values(s)[..index] + text + Values(s)[index..]
  {
    InsertTextVisible(s, index, ids, text);
    var r := InsertText(s, index, ids, text);
    if r.Ok? {
      VisibleIn(s);
      ValuesSplice(s.entries, r.value.entries, VisibleIds(s), index, ids, text);
    }
  }

  /** Deleting a range that is there removes exactly that range. */
  lemma {:induction false} RemoveRangeEffect<T>(s: ListState<T>, index: nat, count: nat)
    requires ValidList(s)
    requires index + count <= |VisibleIds(s)|
    ensures RemoveRange(s, index, count).Ok?
    ensures var s' := RemoveRange(s, index, count).value;
            ValidList(s') && Values(s') == Values(s)[..index] + Values(s)[index + count..]
    decreases count
  {
    if count == 0 {
      assert Values(s)[..index] + Values(s)[index..] == Values(s);
    } else {
      RemoveAtEffect(s, index);
      RemoveRangeEffect(RemoveAt(s, index).value, index, count - 1);
    }
  }

  // ---- Runs of replicated lists ----

  /** A list operation inserts one element after one it holds, or removes one it shows. */
  ghost predicate ListRule<T>(s: ListState<T>, id: OpId, op: Op<Element<T>>) {
    if op.entry.Some? then
      && op.observed == {}
      && (op.entry.value.after.Some? ==> op.entry.value.after.value in s.entries)
      && op.entry.value.time == MaxTime(s.entries) + 1
    else exists x :: op.observed == {x}
  }

  /** Every element issued so far, as if one replica had received everything. */
  ghost function AllElements<T>(w: World<Element<T>>): Elements<T> {
    Reading(w.issued, w.issued.Keys).entries
  }

  ghost predicate ListsAnchored<T(!new)>(w: World<Element<T>>) {
    && Anchored(AllElements(w))
    && (forall r :: r in w.replicas ==> Anchored(w.replicas[r].state.entries))
    && (forall p :: p in w.sent ==> Anchored(p.state.entries))
  }

  lemma FaithfulSubMap<T>(w: World<Element<T>>, p: Replica<Element<T>>)
    requires Faithful(w.issued, p)
    ensures SubMap(p.state.entries, AllElements(w))
  {
  }

  lemma InsertKeepsAnchors<T>(m: Elements<T>, id: OpId, e: Element<T>)
    requires Anchored(m) && id !in m
    requires e.after.Some? ==> e.after.value in m && m[e.after.value].time < e.time
    ensures Anchored(m[id := e])
  {
    var m' := m[id := e];
    forall x | x in m' ensures HasAnchor(m', x) {
      assert x in m ==> HasAnchor(m, x);
    }
  }

  lemma UnionKeepsAnchors<T>(a: Elements<T>, b: Elements<T>)
    requires Anchored(a) && Anchored(b)
    requires forall id :: id in a && id in b ==> a[id] == b[id]
    ensures Anchored(a + b)
  {
    forall x | x in a + b ensures HasAnchor(a + b, x) {
      assert x in a ==> HasAnchor(a, x);
      assert x in b ==> HasAnchor(b, x);
    }
  }

  lemma AfterIssues<T>(s: ListState<T>, id: OpId, after: Option<OpId>, v: T)
    requires id !in s.entries && (after.Some? ==> after.value in s.entries)
    ensures InsertAfter(s, id, after, v).Ok? ==>
              var op := Op(Some(Element(after, MaxTime(s.entries) + 1, v)), {});
              ListRule(s, id, op) && InsertAfter(s, id, after, v).value == Apply(s, id, op)
  {
    assert s.removed + {} == s.removed;
  }

  lemma AnchorHeld<T>(s: ListState<T>, ids: seq<OpId>, k: nat)
    requires AllIn(ids, s.entries)
    ensures AnchorAt(ids, k).Some? ==> AnchorAt(ids, k).value in s.entries
  {
    if 0 < k <= |ids| { assert ids[k - 1] in ids; }
  }

  lemma RemovalIssues<T>(s: ListState<T>, id: OpId, index: nat)
    requires index < |VisibleIds(s)|
    ensures var op: Op<Element<T>> := Op(None, {VisibleIds(s)[index]});
            ListRule(s, id, op) && op.observed <= Visible(s) && RemoveAt(s, index) == Ok(Apply(s, id, op))
  {
    VisibleIn(s);
    assert VisibleIds(s)[index] in VisibleIds(s);
  }

  /** Every edit that succeeds with a fresh id issues one operation the rule admits. */
  lemma ListEditsIssue<T>(s: ListState<T>, id: OpId, index: nat, v: T)
    requires id !in s.entries
    ensures InsertAt(s, index, id, v).Ok? ==>
              var op := Op(Some(Element(AnchorAt(VisibleIds(s), index), MaxTime(s.entries) + 1, v)), {});
              ListRule(s, id, op) && InsertAt(s, index, id, v).value == Apply(s, id, op)
    ensures PushBack(s, id, v).Ok? ==>
              var op := Op(Some(Element(AnchorAt(Ordered(s.entries), |Ordered(s.entries)|), MaxTime(s.entries) + 1, v)), {});
              ListRule(s, id, op) && PushBack(s, id, v).value == Apply(s, id, op)
    ensures RemoveAt(s, index).Ok? ==>
              var op: Op<Element<T>> := Op(None, {VisibleIds(s)[index]});
              ListRule(s, id, op) && op.observed <= Visible(s) && RemoveAt(s, index) == Ok(Apply(s, id, op))
  {
    var vis, all := VisibleIds(s), Ordered(s.entries);
    VisibleIn(s);
    OrderedListsAll(s.entries);
    AnchorHeld(s, vis, index);
    AnchorHeld(s, all, |all|);
    AfterIssues(s, id, AnchorAt(vis, index), v);
    AfterIssues(s, id, AnchorAt(all, |all|), v);
    if index < |vis| { RemovalIssues(s, id, index); }
  }

  lemma IssueKeepsAnchors<T(!new)>(w: World<Element<T>>, r: nat, id: OpId, op: Op<Element<T>>)
    requires Sound(w) && ListsAnchored(w) && Enabled(w, Issue(r, id, op), ListRule)
    ensures Anchored(AllElements(Next(w, Issue(r, id, op), ListRule)))
    ensures Anchored(Apply(w.replicas[r].state, id, op).entries)
  {
    var p, all := w.replicas[r], AllElements(w);
    FaithfulSubMap(w, p);
    if op.entry.Some? {
      InsertKeepsAnchors(all, id, op.entry.value);
      InsertKeepsAnchors(p.state.entries, id, op.entry.value);
    }
    IssuedElements(w.issued, id, op);
  }

  lemma IssuedElements<T>(issued: Issued<Element<T>>, id: OpId, op: Op<Element<T>>)
    requires id !in issued
    ensures var all, more := Reading(issued, issued.Keys).entries, issued[id := op];
            Reading(more, more.Keys).entries == if op.entry.Some? then all[id := op.entry.value] else all
  {
  }

  lemma ListStepAnchored<T(!new)>(w: World<Element<T>>, e: Event<Element<T>>)
    requires Sound(w) && ListsAnchored(w) && Enabled(w, e, ListRule)
    ensures ListsAnchored(Next(w, e, ListRule))
  {
    match e
    case Create(r) =>
      assert Anchored<T>(map[]);
    case Issue(r, id, op) =>
      IssueKeepsAnchors(w, r, id, op);
    case Send(r) =>
    case Deliver(r, from) =>
      MergeFaithful(w.issued, w.replicas[r], from);
      UnionKeepsAnchors(w.replicas[r].state.entries, from.state.entries);
  }

  lemma {:induction false} ListRunAnchored<T(!new)>(ws: seq<World<Element<T>>>, es: seq<Event<Element<T>>>, i: nat)
    requires Run(ws, es, ListRule) && i < |ws|
    ensures Sound(ws[i]) && ListsAnchored(ws[i])
  {
    RunSound(ws, es, ListRule, i);
    if i > 0 {
      ListRunAnchored(ws, es, i - 1);
      ListStepAnchored(ws[i - 1], es[i - 1]);
    }
  }

  /**
   In every run there is one order of everything ever inserted, and each replica shows
   exactly that order restricted to the elements it has and has not seen removed.  So two
   replicas never disagree on the order of two elements, before or after any merge.
   */
  lemma OneOrder<T(!new)>(ws: seq<World<Element<T>>>, es: seq<Event<Element<T>>>, i: nat, j: nat, p: Replica<Element<T>>)
    requires Run(ws, es, ListRule) && i <= j < |ws|
    requires p in ws[i].replicas.Values + ws[i].sent
    ensures ValidList(p.state) && Anchored(AllElements(ws[j]))
    ensures Ordered(p.state.entries) == Filter(Ordered(AllElements(ws[j])), p.state.entries.Keys)
    ensures VisibleIds(p.state) == Filter(Ordered(AllElements(ws[j])), Visible(p.state))
    ensures Ordered(p.state.entries) == Preorder(p.state.entries)
  {
    ListRunAnchored(ws, es, i);
    ListRunAnchored(ws, es, j);
    Convergence(ws, es, ListRule, i, p, p);
    FaithfulSubMap(ws[i], p);
    IssuedGrows(ws, es, ListRule, i, j);
    var m, all := p.state.entries, AllElements(ws[j]);
    assert SubMap(AllElements(ws[i]), all);
    OrderStability(m, all);
    OrderedIsPreorder(m);
    OrderedIsPreorder(all);
    FilterTwice(Ordered(all), m.Keys, Visible(p.state));
    assert m.Keys * Visible(p.state) == Visible(p.state);
  }
}
