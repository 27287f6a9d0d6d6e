/**
 Runs of replicated maps: replicas insert, remove, send and merge.  Every run is, step by
 step, a run of the flat stores the maps present, so maps converge as those do.
 */
module MapRuns {
  import opened Options
  import opened Ids
  import opened OpStore
  import opened Maps

  datatype MapReplica<K, V> = MapReplica(state: MapState<K, V>, received: set<OpId>)

  datatype MapWorld<K(==), V(==)> =
    MapWorld(issued: Issued<(K, V)>, replicas: map<nat, MapReplica<K, V>>, sent: set<MapReplica<K, V>>)

  datatype MapEvent<K, V> =
    | Create(r: nat)
    | Put(r: nat, id: OpId, k: K, v: V)
    | Drop(r: nat, id: OpId, k: K)
    | Send(r: nat)
    | Deliver(r: nat, from: MapReplica<K, V>)

  /** Only new ids are used; removing a key that shows nothing issues no operation. */
  ghost predicate MapEnabled<K, V>(w: MapWorld<K, V>, e: MapEvent<K, V>) {
    match e
    case Create(r) => r !in w.replicas
    case Put(r, id, k, v) => r in w.replicas && id !in w.issued
    case Drop(r, id, k) => r in w.replicas && id !in w.issued && Visible(ValueAt(w.replicas[r].state, k)) != {}
    case Send(r) => r in w.replicas
    case Deliver(r, from) => r in w.replicas && from in w.sent
  }

  /** What the operation records: the entry it makes, and the versions its replica showed at the key. */
  ghost function OpOf<K, V>(s: MapState<K, V>, k: K, v: Option<V>): Op<(K, V)> {
    Op(if v.Some? then Some((k, v.value)) else None, Visible(ValueAt(s, k)))
  }

  /** A refused insertion or merge leaves the replica as it was. */
  ghost function MapNext<K, V>(w: MapWorld<K, V>, e: MapEvent<K, V>): MapWorld<K, V>
    requires MapEnabled(w, e)
  {
    match e
    case Create(r) => w.(replicas := w.replicas[r := MapReplica(MapState(map[], map[]), {})])
    case Put(r, id, k, v) =>
      var p := w.replicas[r];
      var t := MapInsert(p.state, id, k, v);
      if t.Err? then w
      else w.(issued := w.issued[id := OpOf(p.state, k, Some(v))],
              replicas := w.replicas[r := MapReplica(t.value, p.received + {id})])
    case Drop(r, id, k) =>
      var p := w.replicas[r];
      w.(issued := w.issued[id := OpOf(p.state, k, None)],
         replicas := w.replicas[r := MapReplica(MapRemove(p.state, k), p.received + {id})])
    case Send(r) => w.(sent := w.sent + {w.replicas[r]})
    case Deliver(r, from) =>
      var p := w.replicas[r];
      if Mergeable(p.state, from.state) then
        w.(replicas := w.replicas[r := MapReplica(MapJoin(p.state, from.state), p.received + from.received)])
      else w
  }

  ghost predicate MapRun<K, V>(ws: seq<MapWorld<K, V>>, es: seq<MapEvent<K, V>>) {
    && |ws| == |es| + 1
    && ws[0] == MapWorld(map[], map[], {})
    && forall i :: 0 <= i < |es| ==> MapEnabled(ws[i], es[i]) && ws[i + 1] == MapNext(ws[i], es[i])
  }

  // ---- The flat run ----

  ghost function FlatReplica<K(!new), V>(p: MapReplica<K, V>): Replica<(K, V)> {
    Replica(if Valid(p.state) then Flat(p.state) else EmptyStore(), p.received)
  }

  ghost function FlatWorld<K(!new), V>(w: MapWorld<K, V>): World<(K, V)> {
    World(w.issued, map r | r in w.replicas :: FlatReplica(w.replicas[r]), set p | p in w.sent :: FlatReplica(p))
  }

  ghost function FlatEvent<K(!new), V>(w: MapWorld<K, V>, e: MapEvent<K, V>): Event<(K, V)>
    requires MapEnabled(w, e)
  {
    match e
    case Create(r) => Event.Create(r)
    case Put(r, id, k, v) => Issue(r, id, OpOf(w.replicas[r].state, k, Some(v)))
    case Drop(r, id, k) => Issue(r, id, OpOf(w.replicas[r].state, k, None))
    case Send(r) => Event.Send(r)
    case Deliver(r, from) => Event.Deliver(r, FlatReplica(from))
  }

  ghost predicate AllValid<K(!new), V(!new)>(w: MapWorld<K, V>) {
    && (forall r :: r in w.replicas ==> Valid(w.replicas[r].state))
    && (forall p :: p in w.sent ==> Valid(p.state))
  }

  /** Every map is valid, and its flat store is the reading of what it received. */
  ghost predicate MapSound<K(!new), V(!new)>(w: MapWorld<K, V>) { AllValid(w) && Sound(FlatWorld(w)) }

  lemma FlatSet<K(!new), V>(w: MapWorld<K, V>, r: nat, p: MapReplica<K, V>)
    ensures FlatWorld(w.(replicas := w.replicas[r := p])) ==
            FlatWorld(w).(replicas := FlatWorld(w).replicas[r := FlatReplica(p)])
  {
  }

  lemma NewIdUnused<K(!new), V(!new)>(w: MapWorld<K, V>, r: nat, id: OpId)
    requires MapSound(w) && r in w.replicas && id !in w.issued
    ensures id !in w.replicas[r].state.keys
  {
    var p := w.replicas[r];
    assert FlatWorld(w).replicas[r] == FlatReplica(p);
    assert Faithful(w.issued, FlatReplica(p));
    assert Flat(p.state).entries.Keys == p.state.keys.Keys;
  }

  /** The flat event of `e` is enabled, and does to the flat world what `e` does to the maps. */
  ghost predicate Follows<K(!new), V(!new)>(w: MapWorld<K, V>, e: MapEvent<K, V>)
    requires MapEnabled(w, e)
  {
    && Enabled(FlatWorld(w), FlatEvent(w, e), MapRule)
    && FlatWorld(MapNext(w, e)) == Next(FlatWorld(w), FlatEvent(w, e), MapRule)
    && AllValid(MapNext(w, e))
  }

  lemma CreateStep<K(!new), V(!new)>(w: MapWorld<K, V>, r: nat)
    requires MapSound(w) && MapEnabled(w, MapEvent.Create(r))
    ensures Follows(w, MapEvent.Create(r))
  {
    EmptyIsFlat<K, V>();
    FlatSet(w, r, MapReplica(MapState(map[], map[]), {}));
  }

  lemma SendStep<K(!new), V(!new)>(w: MapWorld<K, V>, r: nat)
    requires MapSound(w) && MapEnabled(w, MapEvent.Send(r))
    ensures Follows(w, MapEvent.Send(r))
  {
    assert FlatWorld(MapNext(w, MapEvent.Send(r))).sent == FlatWorld(w).sent + {FlatReplica(w.replicas[r])};
  }

  lemma PutStep<K(!new), V(!new)>(w: MapWorld<K, V>, r: nat, id: OpId, k: K, v: V)
    requires MapSound(w) && MapEnabled(w, Put(r, id, k, v))
    ensures Follows(w, Put(r, id, k, v))
  {
    var p := w.replicas[r];
    NewIdUnused(w, r, id);
    VisibleAtIsVisible(p.state, k);
    InsertRefines(p.state, id, k, v);
    FlatSet(w, r, MapReplica(MapInsert(p.state, id, k, v).value, p.received + {id}));
  }

  lemma DropStep<K(!new), V(!new)>(w: MapWorld<K, V>, r: nat, id: OpId, k: K)
    requires MapSound(w) && MapEnabled(w, Drop(r, id, k))
    ensures Follows(w, Drop(r, id, k))
  {
    var p := w.replicas[r];
    VisibleAtIsVisible(p.state, k);
    RemoveRefines(p.state, id, k);
    FlatSet(w, r, MapReplica(MapRemove(p.state, k), p.received + {id}));
  }

  lemma DeliverStep<K(!new), V(!new)>(w: MapWorld<K, V>, r: nat, from: MapReplica<K, V>)
    requires MapSound(w) && MapEnabled(w, MapEvent.Deliver(r, from))
    ensures Follows(w, MapEvent.Deliver(r, from))
  {
    var p := w.replicas[r];
    MergeableIsCompatible(p.state, from.state);
    if Mergeable(p.state, from.state) {
      MergeRefines(p.state, from.state);
      FlatSet(w, r, MapReplica(MapJoin(p.state, from.state), p.received + from.received));
    }
  }

  lemma EmptyIsFlat<K(!new), V>()
    ensures var s: MapState<K, V> := MapState(map[], map[]); Valid(s) && Flat(s) == EmptyStore()
  {
  }

  /** Each step of a map run is the step its flat event makes. */
  lemma FlatStep<K(!new), V(!new)>(w: MapWorld<K, V>, e: MapEvent<K, V>)
    requires MapSound(w) && MapEnabled(w, e)
    ensures Follows(w, e)
  {
    match e
    case Create(r) => CreateStep(w, r);
    case Put(r, id, k, v) => PutStep(w, r, id, k, v);
    case Drop(r, id, k) => DropStep(w, r, id, k);
    case Send(r) => SendStep(w, r);
    case Deliver(r, from) => DeliverStep(w, r, from);
  }

  lemma {:induction false} MapRunSound<K(!new), V(!new)>(ws: seq<MapWorld<K, V>>, es: seq<MapEvent<K, V>>, i: nat)
    requires MapRun(ws, es) && i < |ws|
    ensures MapSound(ws[i])
  {
    if i > 0 {
      MapRunSound(ws, es, i - 1);
      FlatStep(ws[i - 1], es[i - 1]);
      StepSound(FlatWorld(ws[i - 1]), FlatEvent(ws[i - 1], es[i - 1]), MapRule);
    }
  }

  /**
   In every run, any two maps held or sent can be merged, and are equal if they received the
   same operations.  In each of them every operation lives under one key, and is visible there
   exactly if it was received, made that entry, and nothing received observed it.
   */
  lemma MapConvergence<K(!new), V(!new)>(ws: seq<MapWorld<K, V>>, es: seq<MapEvent<K, V>>, i: nat, p: MapReplica<K, V>, q: MapReplica<K, V>)
    requires MapRun(ws, es) && i < |ws|
    requires p in ws[i].replicas.Values + ws[i].sent && q in ws[i].replicas.Values + ws[i].sent
    ensures Valid(p.state) && Mergeable(p.state, q.state)
    ensures p.received == q.received ==> p.state == q.state
    ensures p.received <= ws[i].issued.Keys
    ensures forall k, id :: id in Visible(ValueAt(p.state, k)) <==>
              && id in p.received && ws[i].issued[id].entry.Some? && ws[i].issued[id].entry.value.0 == k
              && forall o :: o in p.received ==> id !in ws[i].issued[o].observed
    ensures forall k, id :: id in ValueAt(p.state, k).entries ==>
              id in p.received && ws[i].issued[id].entry == Some((k, ValueAt(p.state, k).entries[id]))
  {
    MapRunSound(ws, es, i);
    var issued, fp, fq := ws[i].issued, FlatReplica(p), FlatReplica(q);
    HeldFaithful(ws[i], p);
    HeldFaithful(ws[i], q);
    MergeFaithful(issued, fp, fq);
    MergeableIsCompatible(p.state, q.state);
    if p.received == q.received { FlatInjective(p.state, q.state); }
    forall k, id
      ensures id in Visible(ValueAt(p.state, k)) <==>
              && id in p.received && issued[id].entry.Some? && issued[id].entry.value.0 == k
              && forall o :: o in p.received ==> id !in issued[o].observed
    {
      VisibleAtIsVisible(p.state, k);
      assert fp.state == Reading(issued, p.received);
    }
    forall k, id | id in ValueAt(p.state, k).entries
      ensures id in p.received && issued[id].entry == Some((k, ValueAt(p.state, k).entries[id]))
    {
      FlatHas(p.state, k, id);
      assert fp.state == Reading(issued, p.received);
    }
  }

  lemma HeldFaithful<K(!new), V(!new)>(w: MapWorld<K, V>, p: MapReplica<K, V>)
    requires MapSound(w) && p in w.replicas.Values + w.sent
    ensures Valid(p.state) && Faithful(w.issued, FlatReplica(p))
  {
    if p in w.sent {
      assert FlatReplica(p) in FlatWorld(w).sent;
    } else {
      var r :| r in w.replicas && w.replicas[r] == p;
      assert FlatWorld(w).replicas[r] == FlatReplica(p);
    }
  }
}
