/**
 The observed-remove map: a register per key, plus an index from operation id to key.
 It refines one flat operation store whose entries are key-value pairs (`Flat`), so the
 convergence of that store is the convergence of the map.
 */
module Maps {
  import opened Options
  import opened Orders
  import opened Ids
  import opened OpStore
  import opened ChangeScopes
  import opened Registers

  datatype MapState<K, V> = MapState(entries: map<K, Store<V>>, keys: map<OpId, K>)

  ghost predicate At<K, V>(s: MapState<K, V>, k: K, id: OpId) {
    k in s.entries && id in s.entries[k].entries
  }

  ghost predicate Tidy<K, V>(s: MapState<K, V>, k: K)
    requires k in s.entries
  {
    s.entries[k].entries != map[] && s.entries[k].removed <= s.entries[k].entries.Keys
  }

  /** Each operation lives under exactly one key, the one the index says. */
  ghost predicate Valid<K(!new), V>(s: MapState<K, V>) {
    && (forall k, id {:trigger At(s, k, id)} :: At(s, k, id) <==> id in s.keys && s.keys[id] == k)
    && (forall k {:trigger Tidy(s, k)} :: k in s.entries ==> Tidy(s, k))
  }

  ghost function EntryOf<K(!new), V>(s: MapState<K, V>, id: OpId): V
    requires Valid(s) && id in s.keys
  {
    assert At(s, s.keys[id], id);
    s.entries[s.keys[id]].entries[id]
  }

  ghost predicate RemovedIn<K(!new), V>(s: MapState<K, V>, id: OpId) {
    id in s.keys && s.keys[id] in s.entries && id in s.entries[s.keys[id]].removed
  }

  /** The map as one store of key-value pairs. */
  ghost function Flat<K(!new), V>(s: MapState<K, V>): Store<(K, V)>
    requires Valid(s)
  {
    Store(map id | id in s.keys :: (s.keys[id], EntryOf(s, id)), set id | id in s.keys && RemovedIn(s, id))
  }

  /** The visible operations of one key. */
  ghost function VisibleAt<K, V>(s: Store<(K, V)>, k: K): set<OpId> {
    set id | id in s.entries && id !in s.removed && s.entries[id].0 == k
  }

  function ValueAt<K, V>(s: MapState<K, V>, k: K): Store<V> {
    if k in s.entries then s.entries[k] else EmptyStore()
  }

  function MapInsert<K(==), V(==)>(s: MapState<K, V>, id: OpId, k: K, v: V): Result<MapState<K, V>> {
    if id in s.keys && s.keys[id] != k then Err(DivergentOperation(id))
    else
      match RegisterSet(ValueAt(s, k), id, v)
      case Err(e) => Err(e)
      case Ok(reg) => Ok(MapState(s.entries[k := reg], s.keys[id := k]))
  }

  function MapRemove<K, V>(s: MapState<K, V>, k: K): MapState<K, V> {
    if k in s.entries then
      s.(entries := s.entries[k := s.entries[k].(removed := s.entries[k].removed + s.entries[k].entries.Keys)])
    else s
  }

  ghost predicate Mergeable<K, V>(a: MapState<K, V>, b: MapState<K, V>) {
    && (forall id :: id in a.keys && id in b.keys ==> a.keys[id] == b.keys[id])
    && (forall k :: k in a.entries && k in b.entries ==> Compatible(a.entries[k], b.entries[k]))
  }

  function MapJoin<K, V>(a: MapState<K, V>, b: MapState<K, V>): MapState<K, V> {
    MapState(map k | k in a.entries.Keys + b.entries.Keys :: Join(ValueAt(a, k), ValueAt(b, k)), a.keys + b.keys)
  }

  /** What a map issues: one value at a key, or a removal, superseding what it shows there. */
  ghost predicate MapRule<K(!new), V>(s: Store<(K, V)>, id: OpId, op: Op<(K, V)>) {
    if op.entry.Some? then op.observed == VisibleAt(s, op.entry.value.0)
    else exists k :: op.observed == VisibleAt(s, k)
  }

  /** Under a key, the register holds the flat entries of that key. */
  lemma FlatHas<K(!new), V>(s: MapState<K, V>, k: K, id: OpId)
    requires Valid(s)
    ensures At(s, k, id) <==> id in Flat(s).entries && Flat(s).entries[id].0 == k
    ensures At(s, k, id) ==> Flat(s).entries[id] == (k, s.entries[k].entries[id])
    ensures id in ValueAt(s, k).removed <==> At(s, k, id) && id in Flat(s).removed
  {
    assert k in s.entries ==> Tidy(s, k);
  }

  lemma VisibleAtIsVisible<K(!new), V>(s: MapState<K, V>, k: K)
    requires Valid(s)
    ensures VisibleAt(Flat(s), k) == Visible(ValueAt(s, k)) && VisibleAt(Flat(s), k) <= Visible(Flat(s))
  {
    forall id ensures id in VisibleAt(Flat(s), k) <==> id in Visible(ValueAt(s, k)) {
      FlatHas(s, k, id);
    }
  }

  /** A valid map is determined register by register from a flat store. */
  ghost predicate Presents<K(!new), V>(s: MapState<K, V>, f: Store<(K, V)>) {
    && s.keys.Keys == f.entries.Keys
    && (forall id :: id in s.keys ==> s.keys[id] == f.entries[id].0)
    && (forall k, id {:trigger At(s, k, id)} :: At(s, k, id) ==> id in f.entries && f.entries[id] == (k, s.entries[k].entries[id]))
    && (forall k, id {:trigger At(s, k, id)} :: At(s, k, id) ==> (id in s.entries[k].removed <==> id in f.removed))
    && f.removed <= f.entries.Keys
  }

  lemma PresentsIsFlat<K(!new), V>(s: MapState<K, V>, f: Store<(K, V)>)
    requires Valid(s) && Presents(s, f)
    ensures Flat(s) == f
  {
    forall id | id in s.keys ensures Flat(s).entries[id] == f.entries[id] && (RemovedIn(s, id) <==> id in f.removed) {
      assert At(s, s.keys[id], id);
    }
    assert Flat(s).entries == f.entries && Flat(s).removed == f.removed;
  }

  lemma InsertValid<K(!new), V>(s: MapState<K, V>, s': MapState<K, V>, id: OpId, k: K, v: V)
    requires Valid(s) && id !in s.keys
    requires s' == MapState(s.entries[k := Apply(ValueAt(s, k), id, Op(Some(v), Visible(ValueAt(s, k))))], s.keys[id := k])
    ensures Valid(s')
    ensures Presents(s', Apply(Flat(s), id, Op(Some((k, v)), VisibleAt(Flat(s), k))))
  {
    VisibleAtIsVisible(s, k);
    assert !At(s, k, id);
    assert k in s.entries ==> Tidy(s, k);
    assert id in s'.entries[k].entries;
    forall k', x ensures At(s', k', x) <==> x in s'.keys && s'.keys[x] == k'
                 ensures At(s', k', x) && x != id ==> At(s, k', x)
    {
      assert At(s, k', x) <==> x in s.keys && s.keys[x] == k';
    }
    forall k' | k' in s'.entries ensures Tidy(s', k') { assert k' in s.entries ==> Tidy(s, k'); }
    forall k', x | At(s', k', x)
      ensures x in s'.entries[k'].removed <==> x in Flat(s).removed + VisibleAt(Flat(s), k)
    {
      FlatHas(s, k', x);
      FlatHas(s, k, x);
    }
    forall k', x | At(s', k', x) && x != id ensures Flat(s).entries[x] == (k', s'.entries[k'].entries[x]) {
      FlatHas(s, k', x);
    }
  }

  lemma InsertRefines<K(!new), V>(s: MapState<K, V>, id: OpId, k: K, v: V)
    requires Valid(s) && id !in s.keys
    ensures MapInsert(s, id, k, v).Ok?
    ensures var s' := MapInsert(s, id, k, v).value;
            && Valid(s')
            && Flat(s') == Apply(Flat(s), id, Op(Some((k, v)), VisibleAt(Flat(s), k)))
            && MapRule(Flat(s), id, Op(Some((k, v)), VisibleAt(Flat(s), k)))
  {
    var reg := ValueAt(s, k);
    assert !At(s, k, id);
    assert k in s.entries ==> Tidy(s, k);
    RegisterSetIssues(reg, id, v);
    var s' := MapInsert(s, id, k, v).value;
    InsertValid(s, s', id, k, v);
    PresentsIsFlat(s', Apply(Flat(s), id, Op(Some((k, v)), VisibleAt(Flat(s), k))));
  }

  /** An insertion keeps every operation under one key, a repeated one by changing nothing. */
  lemma MapInsertValid<K(!new), V>(s: MapState<K, V>, id: OpId, k: K, v: V)
    requires Valid(s)
    ensures MapInsert(s, id, k, v).Ok? ==> Valid(MapInsert(s, id, k, v).value)
    ensures MapInsert(s, id, k, v).Ok? && id in s.keys ==> MapInsert(s, id, k, v).value == s
    ensures MapInsert(s, id, k, v).Ok? <==> id in s.keys ==> s.keys[id] == k && EntryOf(s, id) == v
  {
    if id !in s.keys {
      InsertRefines(s, id, k, v);
    } else {
      assert At(s, s.keys[id], id);
      if s.keys[id] == k && EntryOf(s, id) == v {
        assert s.entries[k := s.entries[k]] == s.entries && s.keys[id := k] == s.keys;
      }
    }
  }

  lemma RemoveRefines<K(!new), V>(s: MapState<K, V>, id: OpId, k: K)
    requires Valid(s)
    ensures Valid(MapRemove(s, k))
    ensures Flat(MapRemove(s, k)) == Apply(Flat(s), id, Op(None, VisibleAt(Flat(s), k)))
    ensures MapRule(Flat(s), id, Op(None, VisibleAt(Flat(s), k)))
    ensures Visible(ValueAt(MapRemove(s, k), k)) == {}
  {
    var s', f := MapRemove(s, k), Apply(Flat(s), id, Op(None, VisibleAt(Flat(s), k)));
    forall k', x ensures At(s', k', x) <==> At(s, k', x) {
    }
    forall k' | k' in s'.entries ensures Tidy(s', k') { assert Tidy(s, k'); }
    forall k', x | At(s', k', x)
      ensures x in f.entries && f.entries[x] == (k', s'.entries[k'].entries[x])
      ensures x in s'.entries[k'].removed <==> x in f.removed
    {
      FlatHas(s, k', x);
      FlatHas(s, k, x);
    }
    PresentsIsFlat(s', f);
  }

  lemma MergeableIsCompatible<K(!new), V>(a: MapState<K, V>, b: MapState<K, V>)
    requires Valid(a) && Valid(b)
    ensures Mergeable(a, b) <==> Compatible(Flat(a), Flat(b))
  {
    var fa, fb := Flat(a), Flat(b);
    if Compatible(fa, fb) {
      forall id | id in a.keys && id in b.keys ensures a.keys[id] == b.keys[id] {
        assert id in fa.entries && id in fb.entries;
      }
      forall k | k in a.entries && k in b.entries ensures Compatible(a.entries[k], b.entries[k]) {
        forall id | id in a.entries[k].entries && id in b.entries[k].entries
          ensures a.entries[k].entries[id] == b.entries[k].entries[id]
        {
          FlatHas(a, k, id);
          FlatHas(b, k, id);
          assert At(a, k, id) && At(b, k, id);
        }
      }
    }
    if Mergeable(a, b) {
      forall id | id in fa.entries && id in fb.entries ensures fa.entries[id] == fb.entries[id] {
        var k := a.keys[id];
        assert At(a, k, id) && At(b, k, id);
        assert Compatible(a.entries[k], b.entries[k]);
      }
    }
  }

  lemma JoinAt<K, V>(a: MapState<K, V>, b: MapState<K, V>, k: K, id: OpId)
    ensures At(MapJoin(a, b), k, id) <==> At(a, k, id) || At(b, k, id)
  {
  }

  lemma JoinValid<K(!new), V>(a: MapState<K, V>, b: MapState<K, V>)
    requires Valid(a) && Valid(b) && Mergeable(a, b)
    ensures Valid(MapJoin(a, b))
  {
    var j := MapJoin(a, b);
    forall k, id ensures At(j, k, id) <==> id in j.keys && j.keys[id] == k {
      JoinAt(a, b, k, id);
      assert At(a, k, id) <==> id in a.keys && a.keys[id] == k;
      assert At(b, k, id) <==> id in b.keys && b.keys[id] == k;
    }
    forall k | k in j.entries ensures Tidy(j, k) {
      assert k in a.entries ==> Tidy(a, k);
      assert k in b.entries ==> Tidy(b, k);
      var id :| id in ValueAt(a, k).entries || id in ValueAt(b, k).entries;
      assert id in j.entries[k].entries;
    }
  }

  lemma JoinPresents<K(!new), V>(a: MapState<K, V>, b: MapState<K, V>, k: K, id: OpId)
    requires Valid(a) && Valid(b) && Mergeable(a, b)
    requires At(MapJoin(a, b), k, id)
    ensures var f, e := Join(Flat(a), Flat(b)), MapJoin(a, b).entries[k];
            && id in f.entries && f.entries[id] == (k, e.entries[id])
            && (id in e.removed <==> id in f.removed)
  {
    JoinAt(a, b, k, id);
    FlatHas(a, k, id);
    FlatHas(b, k, id);
    assert id in a.keys ==> a.keys[id] == k by { if At(b, k, id) && id in a.keys { assert id in b.keys; } }
    assert id in b.keys ==> b.keys[id] == k by { if At(a, k, id) && id in b.keys { assert id in a.keys; } }
  }

  /** Merging maps is merging their flat stores. */
  lemma MergeRefines<K(!new), V>(a: MapState<K, V>, b: MapState<K, V>)
    requires Valid(a) && Valid(b) && Mergeable(a, b)
    ensures Valid(MapJoin(a, b))
    ensures Flat(MapJoin(a, b)) == Join(Flat(a), Flat(b))
  {
    JoinValid(a, b);
    var j, f := MapJoin(a, b), Join(Flat(a), Flat(b));
    forall k, id | At(j, k, id)
      ensures id in f.entries && f.entries[id] == (k, j.entries[k].entries[id])
      ensures id in j.entries[k].removed <==> id in f.removed
    {
      JoinPresents(a, b, k, id);
    }
    PresentsIsFlat(j, f);
  }

  /** Nothing in a valid map is lost in its flat store: equal stores, equal maps. */
  lemma FlatInjective<K(!new), V>(a: MapState<K, V>, b: MapState<K, V>)
    requires Valid(a) && Valid(b) && Flat(a) == Flat(b)
    ensures a == b
  {
    assert a.keys.Keys == Flat(a).entries.Keys == b.keys.Keys;
    forall id | id in a.keys ensures a.keys[id] == b.keys[id] {
      assert Flat(a).entries[id] == Flat(b).entries[id];
    }
    assert a.keys == b.keys;
    forall k ensures k in a.entries <==> k in b.entries
             ensures k in a.entries ==> ValueAt(a, k) == ValueAt(b, k)
    {
      FlatAt(a, b, k);
    }
    assert a.entries == b.entries by {
      forall k | k in a.entries ensures a.entries[k] == b.entries[k] {
        assert ValueAt(a, k) == ValueAt(b, k);
      }
    }
  }

  lemma FlatAt<K(!new), V>(a: MapState<K, V>, b: MapState<K, V>, k: K)
    requires Valid(a) && Valid(b) && Flat(a) == Flat(b)
    ensures k in a.entries <==> k in b.entries
    ensures ValueAt(a, k) == ValueAt(b, k)
  {
    var x, y := ValueAt(a, k), ValueAt(b, k);
    forall id
      ensures id in x.entries <==> id in y.entries
      ensures id in x.entries ==> x.entries[id] == y.entries[id]
      ensures id in x.removed <==> id in y.removed
    {
      FlatHas(a, k, id);
      FlatHas(b, k, id);
    }
    assert x.entries == y.entries && x.removed == y.removed;
    assert k in a.entries ==> Tidy(a, k);
    assert k in b.entries ==> Tidy(b, k);
  }

  lemma JoinEmpty<V>(s: Store<V>)
    ensures Join(EmptyStore(), s) == s && Join(s, EmptyStore()) == s
  {
    assert map[] + s.entries == s.entries && {} + s.removed == s.removed;
    assert s.entries + map[] == s.entries && s.removed + {} == s.removed;
  }

  /** One register of a staged merge: joined where both sides have it, copied where one does. */
  function MergedAt<K, V>(mine: map<K, Store<V>>, theirs: map<K, Store<V>>, k: K): Store<V>
    requires k in mine.Keys + theirs.Keys
  {
    if k !in theirs then mine[k] else if k in mine then Join(mine[k], theirs[k]) else theirs[k]
  }

  lemma MergedIsJoin<K, V>(a: MapState<K, V>, b: MapState<K, V>, k: K)
    requires k in a.entries.Keys + b.entries.Keys
    ensures MergedAt(a.entries, b.entries, k) == Join(ValueAt(a, k), ValueAt(b, k))
  {
    JoinEmpty(ValueAt(a, k));
    JoinEmpty(ValueAt(b, k));
  }

  lemma StagedIsJoin<K, V>(a: MapState<K, V>, b: MapState<K, V>, staged: map<K, Store<V>>)
    requires staged.Keys == a.entries.Keys + b.entries.Keys
    requires forall k :: k in staged ==> staged[k] == MergedAt(a.entries, b.entries, k)
    ensures staged == MapJoin(a, b).entries
  {
    forall k | k in staged ensures staged[k] == MapJoin(a, b).entries[k] {
      MergedIsJoin(a, b, k);
    }
  }

  ghost predicate RegistersAgree<K, V>(mine: map<K, Store<V>>, theirs: map<K, Store<V>>) {
    forall k :: k in mine && k in theirs ==> Compatible(mine[k], theirs[k])
  }

  /** The keys under which the two sides disagree. */
  ghost function DivergentKeys<K, V>(mine: map<K, Store<V>>, theirs: map<K, Store<V>>): set<K> {
    set k | k in mine && k in theirs && !Compatible(mine[k], theirs[k])
  }

  /** The first id, in id order, on which the two sides disagree under the first key, in key order, where they do. */
  ghost predicate DivergesIn<K(!new), V>(mine: map<K, Store<V>>, theirs: map<K, Store<V>>, id: OpId, less: (K, K) -> bool) {
    exists k :: IsLeast(k, DivergentKeys(mine, theirs), less) && IsLeast(id, Conflicts(mine[k].entries, theirs[k].entries), IdOrder())
  }

  lemma FirstDivergence<K(!new), V>(mine: map<K, Store<V>>, theirs: map<K, Store<V>>, keys: seq<K>, i: nat, less: (K, K) -> bool, id: OpId)
    requires Increasing(keys, less) && (forall k :: k in theirs ==> k in keys)
    requires i < |keys| && keys[i] in mine && keys[i] in theirs
    requires forall j :: 0 <= j < i ==> keys[j] !in DivergentKeys(mine, theirs)
    requires IsLeast(id, Conflicts(mine[keys[i]].entries, theirs[keys[i]].entries), IdOrder())
    ensures DivergesIn(mine, theirs, id, less) && !RegistersAgree(mine, theirs)
  {
    CompatibleIsNoConflict(mine[keys[i]], theirs[keys[i]]);
    assert keys[i] in DivergentKeys(mine, theirs);
    forall y | y in DivergentKeys(mine, theirs) && y != keys[i] ensures less(keys[i], y) {
      assert y in keys;
      var j :| 0 <= j < |keys| && keys[j] == y;
      assert i < j;
    }
    assert IsLeast(keys[i], DivergentKeys(mine, theirs), less);
  }

  lemma NoDivergence<K, V>(mine: map<K, Store<V>>, theirs: map<K, Store<V>>, k: K)
    requires k in theirs && (k in mine ==> Conflicts(mine[k].entries, theirs[k].entries) == {})
    ensures k !in DivergentKeys(mine, theirs)
  {
    if k in mine { CompatibleIsNoConflict(mine[k], theirs[k]); }
  }

  /** The staged entries with the first `i` keys merged. */
  ghost predicate Staging<K, V>(mine: map<K, Store<V>>, theirs: map<K, Store<V>>, staged: map<K, Store<V>>, keys: seq<K>, i: nat)
    requires i <= |keys|
  {
    && staged.Keys == mine.Keys + Elems(keys[..i]) && Elems(keys[..i]) <= theirs.Keys
    && (forall k :: k in staged ==> staged[k] == if k in Elems(keys[..i]) then MergedAt(mine, theirs, k) else mine[k])
    && (forall j :: 0 <= j < i ==> keys[j] !in DivergentKeys(mine, theirs))
  }

  lemma StagingStep<K, V>(mine: map<K, Store<V>>, theirs: map<K, Store<V>>, staged: map<K, Store<V>>, keys: seq<K>, i: nat)
    requires i < |keys| && Distinct(keys) && Staging(mine, theirs, staged, keys, i) && keys[i] in theirs
    ensures keys[i] in staged <==> keys[i] in mine
    ensures keys[i] in mine ==> staged[keys[i]] == mine[keys[i]]
    ensures keys[i] !in DivergentKeys(mine, theirs) ==>
              Staging(mine, theirs, staged[keys[i] := MergedAt(mine, theirs, keys[i])], keys, i + 1)
  {
    assert keys[..i + 1] == keys[..i] + [keys[i]];
    assert keys[i] !in keys[..i];
  }

  /** The keys of `theirs` in key order. */
  ghost predicate KeyList<K(!new), V>(theirs: map<K, Store<V>>, keys: seq<K>, less: (K, K) -> bool) {
    Increasing(keys, less) && Distinct(keys) && forall k :: k in keys <==> k in theirs
  }

  /** One key of the merge. */
  method MergeKey<K(==,!new), V(==)>(ghost mine: map<K, Store<V>>, theirs: map<K, Store<V>>, staged: map<K, Store<V>>, keys: seq<K>, i: nat, ghost less: (K, K) -> bool)
    returns (r: Result<map<K, Store<V>>>)
    requires i < |keys| && KeyList(theirs, keys, less) && Staging(mine, theirs, staged, keys, i)
    ensures r.Ok? ==> Staging(mine, theirs, r.value, keys, i + 1)
    ensures r.Err? ==> r.error.DivergentOperation? && DivergesIn(mine, theirs, r.error.id, less) && !RegistersAgree(mine, theirs)
  {
    var k := keys[i];
    assert k in keys;
    StagingStep(mine, theirs, staged, keys, i);
    if k in staged {
      var c := FindConflict(staged[k].entries, theirs[k].entries);
      if c.Some? {
        FirstDivergence(mine, theirs, keys, i, less, c.value);
        return Err(DivergentOperation(c.value));
      }
      NoDivergence(mine, theirs, k);
      r := Ok(staged[k := Join(staged[k], theirs[k])]);
    } else {
      NoDivergence(mine, theirs, k);
      r := Ok(staged[k := theirs[k]]);
    }
  }

  lemma KeysListed<K(!new), V>(theirs: map<K, Store<V>>, less: (K, K) -> bool)
    requires StrictTotal(less)
    ensures KeyList(theirs, Ascending(theirs.Keys, less), less)
  {
    AscendingSorted(theirs.Keys, less);
    IncreasingDistinct(Ascending(theirs.Keys, less), less);
  }

  /** The per-key merge, in key order, on a staged copy of the entries. */
  method MergeEntries<K(==,!new), V(==)>(mine: map<K, Store<V>>, theirs: map<K, Store<V>>, less: (K, K) -> bool) returns (r: Result<map<K, Store<V>>>)
    requires StrictTotal(less)
    ensures r.Ok? <==> RegistersAgree(mine, theirs)
    ensures r.Ok? ==> forall keys, keys' :: r.value == MapJoin(MapState(mine, keys), MapState(theirs, keys')).entries
    ensures r.Err? ==> r.error.DivergentOperation? && DivergesIn(mine, theirs, r.error.id, less)
  {
    var keys := Ascending(theirs.Keys, less);
    KeysListed(theirs, less);
    r := Ok(mine);
    for i := 0 to |keys|
      invariant r.Ok? && Staging(mine, theirs, r.value, keys, i)
    {
      r := MergeKey(mine, theirs, r.value, keys, i, less);
      if r.Err? { return; }
    }
    Merged(mine, theirs, r.value, keys);
  }

  lemma Merged<K(!new), V>(mine: map<K, Store<V>>, theirs: map<K, Store<V>>, staged: map<K, Store<V>>, keys: seq<K>)
    requires Staging(mine, theirs, staged, keys, |keys|) && (forall k :: k in keys <==> k in theirs)
    ensures RegistersAgree(mine, theirs)
    ensures forall ks, ks' :: staged == MapJoin(MapState(mine, ks), MapState(theirs, ks')).entries
  {
    assert keys[..|keys|] == keys;
    forall k | k in mine && k in theirs ensures Compatible(mine[k], theirs[k]) {
      assert k in keys;
      assert k !in DivergentKeys(mine, theirs);
    }
    forall ks, ks' ensures staged == MapJoin(MapState(mine, ks), MapState(theirs, ks')).entries {
      StagedIsJoin(MapState(mine, ks), MapState(theirs, ks'), staged);
    }
  }

  /** The id a merge is refused with: one that has two keys, else the first one in conflict under the first divergent key. */
  ghost predicate RefusedWith<K(!new), V>(a: MapState<K, V>, b: MapState<K, V>, id: OpId, less: (K, K) -> bool) {
    if Conflicts(a.keys, b.keys) != {} then IsLeast(id, Conflicts(a.keys, b.keys), IdOrder())
    else DivergesIn(a.entries, b.entries, id, less)
  }

  lemma MergeableParts<K, V>(a: MapState<K, V>, b: MapState<K, V>)
    ensures Mergeable(a, b) <==> Conflicts(a.keys, b.keys) == {} && RegistersAgree(a.entries, b.entries)
  {
    if Conflicts(a.keys, b.keys) == {} {
      forall id | id in a.keys && id in b.keys ensures a.keys[id] == b.keys[id] { assert id !in Conflicts(a.keys, b.keys); }
    }
  }

  /** A merge of two maps: the index first, then the entries on a staged copy. */
  method MergeMaps<K(==,!new), V(==)>(a: MapState<K, V>, b: MapState<K, V>, less: (K, K) -> bool) returns (r: Result<MapState<K, V>>)
    requires StrictTotal(less)
    ensures Mergeable(a, b) ==> r == Ok(MapJoin(a, b))
    ensures !Mergeable(a, b) ==> r.Err? && r.error.DivergentOperation? && RefusedWith(a, b, r.error.id, less)
  {
    MergeableParts(a, b);
    var conflict := FindConflict(a.keys, b.keys);
    if conflict.Some? { return Err(DivergentOperation(conflict.value)); }
    var staged := MergeEntries(a.entries, b.entries, less);
    if staged.Err? { return Err(staged.error); }
    r := Ok(MapState(staged.value, a.keys + b.keys));
  }

  class OrMap<K(==,!new), V(==)> {
    var entries: map<K, Store<V>>
    var operationKeys: map<OpId, K>
    var field: Bytes

    ghost function View(): MapState<K, V> reads this { MapState(entries, operationKeys) }

    constructor (tag: Bytes)
      ensures View() == MapState(map[], map[]) && field == tag
    {
      entries, operationKeys, field := map[], map[], tag;
    }

    function Get(k: K): (r: Option<V>)
      reads this
      ensures r.Some? <==> Visible(ValueAt(View(), k)) != {}
      ensures r.Some? ==> var w := Winner(ValueAt(View(), k));
                w.Some? && k in entries && w.value in entries[k].entries && r.value == entries[k].entries[w.value]
    {
      if k in entries then
        var s := entries[k];
        WinnerIsGreatest(s);
        if Winner(s).Some? then Some(s.entries[Winner(s).value]) else None
      else None
    }

    method InsertWithId(id: OpId, k: K, v: V) returns (r: Result<()>)
      modifies this
      ensures field == old(field)
      ensures var t := MapInsert(old(View()), id, k, v);
              if t.Ok? then r == Ok(()) && View() == t.value else r == Err(t.error) && View() == old(View())
      ensures old(Valid(View())) ==> Valid(View())
    {
      if Valid(View()) { MapInsertValid(View(), id, k, v); }
      if id in operationKeys && operationKeys[id] != k { return Err(DivergentOperation(id)); }
      if k in entries {
        var reg := RegisterSet(entries[k], id, v);
        if reg.Err? { return Err(reg.error); }
        entries := entries[k := reg.value];
      } else {
        var reg := Store(map[id := v], {});
        assert RegisterSet(EmptyStore(), id, v) == Ok(reg) by {
          assert reg.entries == map[][id := v] && reg.removed == {} + Visible(EmptyStore<V>());
        }
        entries := entries[k := reg];
      }
      operationKeys := operationKeys[id := k];
      r := Ok(());
    }

    method Insert(scope: ChangeContext, k: K, v: V, encodeKey: K -> Bytes, encode: V -> Bytes) returns (r: Result<()>)
      modifies this, scope
      ensures !old(CanAllocate(scope.View())) ==>
                r == Err(AllocationError(old(scope.View()))) && View() == old(View()) && scope.View() == old(scope.View())
      ensures old(CanAllocate(scope.View())) ==>
                var slots := old(scope.View());
                var t := MapInsert(old(View()), NextId(slots), k, v);
                if t.Ok? then
                  && r == Ok(()) && View() == t.value
                  && scope.View() == Logged(slots, old(field), Payload(1,
                       [OpIds(InOrder(Visible(ValueAt(old(View()), k)))), Encoded(encodeKey(k)), Encoded(encode(v))]))
                else r == Err(t.error) && View() == old(View()) && scope.View() == Allocated(slots)
      ensures old(Valid(View())) ==> Valid(View())
    {
      var next := scope.NextOperation();
      if next.Err? { return Err(next.error); }
      var observed := InOrder(Visible(ValueAt(MapState(entries, operationKeys), k)));
      r := InsertWithId(next.value, k, v);
      if r.Ok? {
        r := scope.RecordOperation(field, next.value,
          Payload(1, [OpIds(observed), Encoded(encodeKey(k)), Encoded(encode(v))]));
      }
    }

    method Remove(scope: ChangeContext, k: K, encodeKey: K -> Bytes) returns (r: Result<bool>)
      modifies this, scope
      ensures Visible(ValueAt(old(View()), k)) == {} ==>
                r == Ok(false) && View() == old(View()) && scope.View() == old(scope.View())
      ensures Visible(ValueAt(old(View()), k)) != {} && !old(CanAllocate(scope.View())) ==>
                r == Err(AllocationError(old(scope.View()))) && View() == old(View()) && scope.View() == old(scope.View())
      ensures Visible(ValueAt(old(View()), k)) != {} && old(CanAllocate(scope.View())) ==>
                && r == Ok(true) && View() == MapRemove(old(View()), k)
                && scope.View() == Logged(old(scope.View()), old(field),
                     Payload(2, [OpIds(InOrder(Visible(ValueAt(old(View()), k)))), Encoded(encodeKey(k))]))
      ensures old(Valid(View())) ==> Valid(View())
    {
      if k !in entries { return Ok(false); }
      if Valid(View()) { RemoveRefines(View(), OpId([], 0), k); }
      var observed := Visible(entries[k]);
      if observed == {} { return Ok(false); }
      var next := scope.NextOperation();
      if next.Err? { return Err(next.error); }
      var reg := entries[k];
      entries := entries[k := reg.(removed := reg.removed + reg.entries.Keys)];
      var rec := scope.RecordOperation(field, next.value,
        Payload(2, [OpIds(InOrder(observed)), Encoded(encodeKey(k))]));
      assert rec.Ok?;  // the scope that allocated the id is still open
      r := Ok(true);
    }

    /** Merged in key order on a staged copy: a divergence found halfway leaves the receiver as it was. */
    method Merge(other: OrMap<K, V>, less: (K, K) -> bool) returns (r: Result<()>)
      requires StrictTotal(less)
      modifies this
      ensures field == old(field)
      ensures old(Mergeable(View(), other.View())) ==>
                r == Ok(()) && View() == MapJoin(old(View()), old(other.View()))
      ensures !old(Mergeable(View(), other.View())) ==>
                && View() == old(View()) && r.Err? && r.error.DivergentOperation?
                && RefusedWith(old(View()), old(other.View()), r.error.id, less)
      ensures old(Valid(View())) && old(Valid(other.View())) ==> Valid(View())
    {
      var staged := MergeMaps(MapState(entries, operationKeys), MapState(other.entries, other.operationKeys), less);
      if staged.Err? { return Err(staged.error); }
      if Valid(View()) && Valid(other.View()) { MergeRefines(View(), other.View()); }
      entries, operationKeys := staged.value.entries, staged.value.keys;
      r := Ok(());
    }
  }
}
