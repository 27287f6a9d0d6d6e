/**
 The execution-local slot that numbers the operations of one actor slice and collects
 what they recorded, and why the numbers never repeat.
 */
module ChangeScopes {
  import opened Options
  import opened Orders
  import opened Ids
  import opened OpStore

  const U32_MAX: nat := U32 - 1

  /** What an operation records beside its id: a tag and its operands, not yet as bytes. */
  datatype Part = OpIds(ids: seq<OpId>) | Anchor(after: Option<OpId>) | Encoded(bytes: Bytes)

  datatype Payload = Payload(tag: byte, parts: seq<Part>)

  datatype Pending = Pending(field: Bytes, id: OpId, payload: Payload)

  datatype Scope = Scope(change: ChangeId, nextOrdinal: nat, operations: seq<Pending>)

  datatype Completed = Completed(change: ChangeId, operations: seq<Pending>)

  datatype Slots = Slots(active: Option<Scope>, completed: Option<Completed>)

  // ---- The slot operations on values ----

  function Begun(s: Slots, change: ChangeId): Slots {
    if s.active.Some? then s else Slots(Some(Scope(change, 0, [])), None)
  }

  function Rebound(s: Slots, change: ChangeId): Slots {
    if s.active.None? then s else Slots(Some(Scope(change, 0, [])), None)
  }

  function Finished(s: Slots): Slots {
    if s.active.None? then s
    else Slots(None, Some(Completed(s.active.value.change, s.active.value.operations)))
  }

  predicate CanAllocate(s: Slots) { s.active.Some? && s.active.value.nextOrdinal < U32_MAX }

  function Allocated(s: Slots): Slots
    requires CanAllocate(s)
  {
    s.(active := Some(s.active.value.(nextOrdinal := s.active.value.nextOrdinal + 1)))
  }

  function NextId(s: Slots): OpId
    requires s.active.Some?
  {
    OpId(s.active.value.change, s.active.value.nextOrdinal)
  }

  /** Why nothing can be allocated. */
  function AllocationError(s: Slots): Error { if s.active.None? then NoChangeScope else OperationOverflow }

  /** What the open scope has recorded. */
  function OperationsOf(s: Slots): seq<Pending> { if s.active.Some? then s.active.value.operations else [] }

  predicate CanRecord(s: Slots, id: OpId) { s.active.Some? && id.change == s.active.value.change }

  function Recorded(s: Slots, p: Pending): Slots
    requires CanRecord(s, p.id)
  {
    s.(active := Some(s.active.value.(operations := s.active.value.operations + [p])))
  }

  /** The slot after one mutator allocated an id and recorded its operation. */
  function Logged(s: Slots, field: Bytes, payload: Payload): Slots
    requires CanAllocate(s)
  {
    Recorded(Allocated(s), Pending(field, NextId(s), payload))
  }

  /** Recorded operations carry ordinals 0, 1, 2, ... in the order they were emitted. */
  predicate Contiguous(operations: seq<Pending>) {
    forall i :: 0 <= i < |operations| ==> operations[i].id.ordinal == i
  }

  /** The dispatch a slice ran for. */
  datatype Origin = Origin(actor: Bytes, change: Bytes, ordinal: nat)

  /** How a dispatch names its scope and its operations. */
  datatype Names = Names(scope: Origin -> ChangeId, operation: (Origin, Bytes, nat) -> Bytes)

  /** A recorded operation as handed to consensus. */
  datatype Published = Published(origin: Origin, field: Bytes, ordinal: nat, id: Bytes, payload: Payload)

  function Publish(names: Names, origin: Origin, p: Pending): Published {
    Published(origin, p.field, p.id.ordinal, names.operation(origin, p.field, p.id.ordinal), p.payload)
  }

  function PublishAll(names: Names, origin: Origin, ps: seq<Pending>): (r: seq<Published>)
    ensures |r| == |ps|
  {
    seq(|ps|, i requires 0 <= i < |ps| => Publish(names, origin, ps[i]))
  }

  /** What can be taken of a completed change: its operations, if it is the dispatch's own and has no gap. */
  function Taken(s: Slots, names: Names, origin: Origin): Result<seq<Published>> {
    if s.completed.None? then Err(NoCompletedChange)
    else if s.completed.value.change != names.scope(origin) || !Contiguous(s.completed.value.operations) then Err(ChangeMismatch)
    else Ok(PublishAll(names, origin, s.completed.value.operations))
  }

  /** The slot itself: one per thread, mutated in place by every replicated field. */
  class ChangeContext {
    var active: Option<Scope>
    var completed: Option<Completed>

    ghost function View(): Slots reads this { Slots(active, completed) }

    constructor ()
      ensures View() == Slots(None, None)
    {
      active, completed := None, None;
    }

    method ResetActorSlice()
      modifies this
      ensures View() == Slots(None, None)
    {
      active, completed := None, None;
    }

    method BeginChange(change: ChangeId) returns (r: Result<()>)
      modifies this
      ensures View() == Begun(old(View()), change)
      ensures r == if old(active).Some? then Err(NestedChangeScope) else Ok(())
    {
      if active.Some? { return Err(NestedChangeScope); }
      active := Some(Scope(change, 0, []));
      completed := None;
      r := Ok(());
    }

    method RebindChange(change: ChangeId) returns (r: Result<()>)
      modifies this
      ensures View() == Rebound(old(View()), change)
      ensures r == if old(active).None? then Err(NoChangeScope) else Ok(())
    {
      if active.None? { return Err(NoChangeScope); }
      active := Some(Scope(change, 0, []));
      completed := None;
      r := Ok(());
    }

    method CompleteChange()
      modifies this
      ensures View() == Finished(old(View()))
    {
      if active.Some? {
        completed := Some(Completed(active.value.change, active.value.operations));
        active := None;
      }
    }

    method EndChange()
      modifies this
      ensures View() == old(View()).(active := None)
    {
      active := None;
    }

    method NextOperation() returns (r: Result<OpId>)
      modifies this
      ensures old(CanAllocate(View())) ==> r == Ok(NextId(old(View()))) && View() == Allocated(old(View()))
      ensures !old(CanAllocate(View())) ==> View() == old(View())
      ensures !old(CanAllocate(View())) ==> r == Err(AllocationError(old(View())))
    {
      if active.None? { return Err(NoChangeScope); }
      var ordinal := active.value.nextOrdinal;
      if ordinal >= U32_MAX { return Err(OperationOverflow); }
      active := Some(active.value.(nextOrdinal := ordinal + 1));
      r := Ok(OpId(active.value.change, ordinal));
    }

    method RecordOperation(field: Bytes, id: OpId, payload: Payload) returns (r: Result<()>)
      modifies this
      ensures old(CanRecord(View(), id)) ==>
                r == Ok(()) && View() == Recorded(old(View()), Pending(field, id, payload))
      ensures !old(CanRecord(View(), id)) ==>
                View() == old(View()) &&
                r == Err(if old(active).None? then NoChangeScope else ChangeMismatch)
    {
      if active.None? { return Err(NoChangeScope); }
      if id.change != active.value.change { return Err(ChangeMismatch); }
      active := Some(active.value.(operations := active.value.operations + [Pending(field, id, payload)]));
      r := Ok(());
    }

    /** The completed change is consumed even when it is then refused. */
    method TakeOperations(names: Names, origin: Origin) returns (r: Result<seq<Published>>)
      modifies this
      ensures View() == old(View()).(completed := None)
      ensures r == Taken(old(View()), names, origin)
    {
      var taken := completed;
      completed := None;
      if taken.None? { return Err(NoCompletedChange); }
      if taken.value.change != names.scope(origin) { return Err(ChangeMismatch); }
      var ops := taken.value.operations;
      var all := PublishAll(names, origin, ops);
      for i := 0 to |all|
        invariant forall k :: 0 <= k < i ==> ops[k].id.ordinal == k
        invariant View() == old(View()).(completed := None)
      {
        if all[i].ordinal != i { return Err(ChangeMismatch); }
      }
      r := Ok(all);
    }
  }

  // ---- Runs of the slot ----

  datatype Command =
    | Begin(change: ChangeId)
    | Rebind(change: ChangeId)
    | Complete
    | End
    | Take
    | Allocate
    | Record(p: Pending)

  function After(s: Slots, c: Command): Slots {
    match c
    case Begin(change) => Begun(s, change)
    case Rebind(change) => Rebound(s, change)
    case Complete => Finished(s)
    case End => s.(active := None)
    case Take => s.(completed := None)
    case Allocate => if CanAllocate(s) then Allocated(s) else s
    case Record(p) => if CanRecord(s, p.id) then Recorded(s, p) else s
  }

  function RunSlots(s: Slots, cs: seq<Command>): Slots {
    if cs == [] then s else After(RunSlots(s, cs[..|cs| - 1]), cs[|cs| - 1])
  }

  const Idle := Slots(None, None)

  /** The ids handed out along a run from the idle slot. */
  function HandedOut(cs: seq<Command>): seq<OpId> {
    if cs == [] then []
    else
      var before := RunSlots(Idle, cs[..|cs| - 1]);
      HandedOut(cs[..|cs| - 1]) +
      if cs[|cs| - 1].Allocate? && CanAllocate(before) then [NextId(before)] else []
  }

  /** The change ids named along a run, in order. */
  function Changes(cs: seq<Command>): seq<ChangeId> {
    if cs == [] then []
    else
      var c := cs[|cs| - 1];
      Changes(cs[..|cs| - 1]) + if c.Begin? || c.Rebind? then [c.change] else []
  }

  /** Every id handed out belongs to a change named, and those of the open scope are used up. */
  ghost predicate UsedUp(s: Slots, ids: seq<OpId>, changes: seq<ChangeId>) {
    && Distinct(ids)
    && (forall id :: id in ids ==> id.change in changes)
    && (s.active.Some? ==>
          && s.active.value.change in changes
          && forall id :: id in ids && id.change == s.active.value.change ==>
               id.ordinal < s.active.value.nextOrdinal)
  }

  lemma AllocateUsesUp(s: Slots, ids: seq<OpId>, changes: seq<ChangeId>)
    requires UsedUp(s, ids, changes) && CanAllocate(s)
    ensures UsedUp(Allocated(s), ids + [NextId(s)], changes)
  {
    assert NextId(s) !in ids;
  }

  lemma RenameUsesUp(s: Slots, ids: seq<OpId>, changes: seq<ChangeId>, change: ChangeId)
    requires UsedUp(s, ids, changes) && change !in changes
    ensures UsedUp(Begun(s, change), ids, changes + [change])
    ensures UsedUp(Rebound(s, change), ids, changes + [change])
  {
  }

  lemma {:induction false} SlotInvariant(cs: seq<Command>)
    requires Distinct(Changes(cs))
    ensures UsedUp(RunSlots(Idle, cs), HandedOut(cs), Changes(cs))
  {
    if cs != [] {
      var init, c := cs[..|cs| - 1], cs[|cs| - 1];
      var s, ids, changes := RunSlots(Idle, init), HandedOut(init), Changes(init);
      var named := if c.Begin? || c.Rebind? then [c.change] else [];
      assert Changes(cs) == changes + named;
      assert Changes(cs)[..|changes|] == changes;
      SlotInvariant(init);
      match c
      case Begin(change) =>
        assert change == Changes(cs)[|changes|];
        assert change !in changes;
        RenameUsesUp(s, ids, changes, change);
      case Rebind(change) =>
        assert change == Changes(cs)[|changes|];
        assert change !in changes;
        RenameUsesUp(s, ids, changes, change);
      case Allocate =>
        if CanAllocate(s) { AllocateUsesUp(s, ids, changes); }
      case _ =>
    }
  }

  /**
   Slices that name distinct change ids never hand out the same operation id twice, across
   suspensions (which restart the ordinals), failures and nesting attempts.
   */
  lemma AllocationsDistinct(cs: seq<Command>)
    requires Distinct(Changes(cs))
    ensures Distinct(HandedOut(cs))
  {
    SlotInvariant(cs);
  }

  /** Commands of a slice in which every allocated operation is recorded at once. */
  ghost predicate Mutations(s: Slots, cs: seq<Command>)
    decreases |cs|
  {
    if cs == [] then true
    else match cs[0]
    case Rebind(_) => Mutations(After(s, cs[0]), cs[1..])
    case Begin(_) => Mutations(After(s, cs[0]), cs[1..])
    case Allocate =>
      if CanAllocate(s) then
        && |cs| > 1 && cs[1].Record? && cs[1].p.id == NextId(s)
        && Mutations(After(After(s, cs[0]), cs[1]), cs[2..])
      else Mutations(s, cs[1..])
    case _ => false
  }

  function RunForward(s: Slots, cs: seq<Command>): Slots
    decreases |cs|
  {
    if cs == [] then s else RunForward(After(s, cs[0]), cs[1..])
  }

  /** A slice whose mutators all succeed reports its operations without a gap. */
  lemma {:induction false} SliceContiguous(s: Slots, cs: seq<Command>)
    requires s.active.Some? && Contiguous(s.active.value.operations)
    requires s.active.value.nextOrdinal == |s.active.value.operations|
    requires Mutations(s, cs)
    ensures RunForward(s, cs).active.Some?
    ensures var a := RunForward(s, cs).active.value;
            Contiguous(a.operations) && a.nextOrdinal == |a.operations|
    decreases |cs|
  {
    if cs != [] {
      if cs[0].Allocate? && CanAllocate(s) {
        var s2 := After(After(s, cs[0]), cs[1]);
        assert cs[1..][0] == cs[1] && cs[1..][1..] == cs[2..];
        assert RunForward(s, cs) == RunForward(s2, cs[2..]);
        SliceContiguous(s2, cs[2..]);
      } else {
        SliceContiguous(After(s, cs[0]), cs[1..]);
      }
    }
  }
}
