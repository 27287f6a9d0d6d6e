/**
 Text edits as functions of the text and of the change scope they record into: what each of
 them does when it succeeds, and exactly what it leaves behind when it fails midway.
 */
module TextEdits {
  import opened Options
  import opened Ids
  import opened OpStore
  import opened ChangeScopes
  import opened ListElements
  import opened ListEdits

  type TextState = ListState<char>

  // ---- The edits ----

  function CharParts(s: TextState, at: nat, ch: char, encode: char -> Bytes): seq<Part> {
    [Anchor(AnchorAt(VisibleIds(s), at)), Encoded(encode(ch))]
  }

  /** An insertion character by character, and the scope it leaves; an ordinal is used up before the clock is read. */
  ghost function TypeText(slots: Slots, s: TextState, field: Bytes, index: nat, text: string, encode: char -> Bytes): (Result<TextState>, Slots)
    decreases |text|
  {
    if text == [] then (Ok(s), slots)
    else if !CanAllocate(slots) then (Err(AllocationError(slots)), slots)
    else
      match InsertAfter(s, NextId(slots), AnchorAt(VisibleIds(s), index), text[0])
      case Err(e) => (Err(e), Allocated(slots))
      case Ok(s') =>
        TypeText(Logged(slots, field, Payload(7, CharParts(s, index, text[0], encode))), s', field, index + 1, text[1..], encode)
  }

  /** A deletion character by character, and the scope it leaves. */
  ghost function EraseText(slots: Slots, s: TextState, field: Bytes, index: nat, count: nat): (Result<TextState>, Slots)
    decreases count
  {
    if count == 0 then (Ok(s), slots)
    else
      match RemoveAt(s, index)
      case Err(e) => (Err(e), slots)
      case Ok(s') =>
        if !CanAllocate(slots) then (Err(AllocationError(slots)), slots)
        else EraseText(Logged(slots, field, Payload(8, [OpIds([VisibleIds(s)[index]])])), s', field, index, count - 1)
  }

  // ---- Recorded operations ----

  function OrdinalsLeft(s: Slots): nat {
    if CanAllocate(s) then U32_MAX - s.active.value.nextOrdinal else 0
  }

  /** The next `n` operation ids of the scope. */
  function NextIds(s: Slots, n: nat): (r: seq<OpId>)
    ensures |r| == n
  {
    var first := if s.active.Some? then NextId(s) else OpId([], 0);
    seq(n, k requires 0 <= k < n => first.(ordinal := first.ordinal + k))
  }

  lemma NextIdsTail(s: Slots, field: Bytes, p: Payload, n: nat)
    requires CanAllocate(s) && n > 0
    ensures NextIds(s, n)[0] == NextId(s) && NextIds(s, n)[1..] == NextIds(Logged(s, field, p), n - 1)
    ensures OrdinalsLeft(Logged(s, field, p)) == OrdinalsLeft(s) - 1
  {
  }

  ghost predicate Tagged(ps: seq<Pending>, field: Bytes, tag: byte, ids: seq<OpId>) {
    |ps| == |ids| && forall k :: 0 <= k < |ps| ==>
      ps[k].field == field && ps[k].id == ids[k] && ps[k].payload.tag == tag
  }

  /** One operation with tag `tag` recorded for each of `ids`, after those already there. */
  ghost predicate LoggedEach(before: Slots, now: Slots, field: Bytes, tag: byte, ids: seq<OpId>) {
    if before.active.None? then now == before && ids == []
    else
      var b := before.active.value;
      && now.completed == before.completed && now.active.Some?
      && now.active.value.change == b.change && now.active.value.nextOrdinal == b.nextOrdinal + |ids|
      && b.operations <= now.active.value.operations
      && Tagged(now.active.value.operations[|b.operations|..], field, tag, ids)
  }

  lemma LoggedMore(before: Slots, p: Payload, now: Slots, field: Bytes, ids: seq<OpId>)
    requires CanAllocate(before) && ids != [] && ids[0] == NextId(before)
    requires LoggedEach(Logged(before, field, p), now, field, p.tag, ids[1..])
    ensures LoggedEach(before, now, field, p.tag, ids)
  {
    var mid := Logged(before, field, p);
    var n, ops := |before.active.value.operations|, now.active.value.operations;
    assert mid.active.value.operations == before.active.value.operations + [Pending(field, NextId(before), p)];
    assert ops[..n + 1] == mid.active.value.operations;
    assert ops[n..] == [ops[n]] + ops[n + 1..];
    forall k | 0 <= k < |ops[n..]| ensures ops[n..][k].field == field && ops[n..][k].id == ids[k] && ops[n..][k].payload.tag == p.tag {
      if k > 0 { assert ops[n..][k] == ops[n + 1..][k - 1] && ids[k] == ids[1..][k - 1]; }
    }
  }

  // ---- An edit that succeeds ----

  predicate CanAllocateMany(s: Slots, n: nat) { n == 0 || n <= OrdinalsLeft(s) }

  lemma InsertTextHead(s: TextState, index: nat, ids: seq<OpId>, text: string, s': TextState)
    requires |ids| == |text| > 0 && InsertAfter(s, ids[0], AnchorAt(VisibleIds(s), index), text[0]) == Ok(s')
    ensures InsertText(s, index, ids, text) == InsertText(s', index + 1, ids[1..], text[1..])
  {
  }

  /** An edit that succeeds exactly if there are numbers for all of `ids` and `r` does, and then has recorded them all. */
  ghost predicate SucceedsAs(slots: Slots, t: (Result<TextState>, Slots), field: Bytes, ids: seq<OpId>, r: Result<TextState>) {
    && (t.0.Ok? <==> CanAllocateMany(slots, |ids|) && r.Ok?)
    && (t.0.Ok? ==> t.0 == r && LoggedEach(slots, t.1, field, 7, ids))
  }

  lemma SucceedsMore(slots: Slots, t: (Result<TextState>, Slots), field: Bytes, p: Payload, ids: seq<OpId>, r: Result<TextState>)
    requires CanAllocate(slots) && ids != [] && ids == NextIds(slots, |ids|) && p.tag == 7
    ensures SucceedsAs(Logged(slots, field, p), t, field, ids[1..], r) ==> SucceedsAs(slots, t, field, ids, r)
  {
    NextIdsTail(slots, field, p, |ids|);
    if SucceedsAs(Logged(slots, field, p), t, field, ids[1..], r) && t.0.Ok? { LoggedMore(slots, p, t.1, field, ids); }
  }

  /** It succeeds exactly if every character gets its number and its place, and records them all. */
  lemma {:induction false} TypeTextSucceeds(slots: Slots, s: TextState, field: Bytes, index: nat, text: string, encode: char -> Bytes)
    ensures var ids := NextIds(slots, |text|);
            SucceedsAs(slots, TypeText(slots, s, field, index, text, encode), field, ids, InsertText(s, index, ids, text))
    decreases |text|
  {
    if text != [] && CanAllocate(slots) {
      var ids, p := NextIds(slots, |text|), Payload(7, CharParts(s, index, text[0], encode));
      NextIdsTail(slots, field, p, |text|);
      var one := InsertAfter(s, NextId(slots), AnchorAt(VisibleIds(s), index), text[0]);
      if one.Ok? {
        assert |text[1..]| == |text| - 1;
        TypeTextSucceeds(Logged(slots, field, p), one.value, field, index + 1, text[1..], encode);
        InsertTextHead(s, index, ids, text, one.value);
        SucceedsMore(slots, TypeText(slots, s, field, index, text, encode), field, p, ids, InsertText(s, index, ids, text));
      }
    }
  }

  lemma {:induction false} EraseTextSucceeds(slots: Slots, s: TextState, field: Bytes, index: nat, count: nat)
    ensures var t, ids := EraseText(slots, s, field, index, count), NextIds(slots, count);
            && (t.0.Ok? <==> CanAllocateMany(slots, count) && RemoveRange(s, index, count).Ok?)
            && (t.0.Ok? ==> t.0 == RemoveRange(s, index, count) && LoggedEach(slots, t.1, field, 8, ids))
    decreases count
  {
    if count > 0 && CanAllocate(slots) && RemoveAt(s, index).Ok? {
      var ids, p := NextIds(slots, count), Payload(8, [OpIds([VisibleIds(s)[index]])]);
      NextIdsTail(slots, field, p, count);
      EraseTextSucceeds(Logged(slots, field, p), RemoveAt(s, index).value, field, index, count - 1);
      var t := EraseText(slots, s, field, index, count);
      if t.0.Ok? { LoggedMore(slots, p, t.1, field, ids); }
    }
  }

  // ---- An edit that fails midway ----

  ghost function TimesLeft(s: TextState): nat {
    if MaxTime(s.entries) < U64_MAX then U64_MAX - MaxTime(s.entries) else 0
  }

  /** How many characters can still be inserted. */
  ghost function Room(slots: Slots, s: TextState): nat { if OrdinalsLeft(slots) <= TimesLeft(s) then OrdinalsLeft(slots) else TimesLeft(s) }

  /** The scope `now` has `n` of `ids` recorded, and one more number used up if the clock ran out. */
  ghost predicate LeftAfter(slots: Slots, now: Slots, field: Bytes, ids: seq<OpId>, n: nat)
    requires n <= |ids|
  {
    if n == OrdinalsLeft(slots) then LoggedEach(slots, now, field, 7, ids[..n])
    else exists mid :: LoggedEach(slots, mid, field, 7, ids[..n]) && CanAllocate(mid) && now == Allocated(mid)
  }

  lemma LeftMore(slots: Slots, p: Payload, now: Slots, field: Bytes, ids: seq<OpId>, n: nat)
    requires CanAllocate(slots) && n < |ids| && ids == NextIds(slots, |ids|) && p.tag == 7
    requires LeftAfter(Logged(slots, field, p), now, field, ids[1..], n)
    ensures LeftAfter(slots, now, field, ids, n + 1)
  {
    NextIdsTail(slots, field, p, |ids|);
    assert ids[1..][..n] == ids[..n + 1][1..];
    var next := Logged(slots, field, p);
    if n == OrdinalsLeft(next) {
      LoggedMore(slots, p, now, field, ids[..n + 1]);
    } else {
      var mid :| LoggedEach(next, mid, field, 7, ids[1..][..n]) && CanAllocate(mid) && now == Allocated(mid);
      LoggedMore(slots, p, mid, field, ids[..n + 1]);
    }
  }

  lemma TypeFirst(slots: Slots, s: TextState, field: Bytes, index: nat, text: string, encode: char -> Bytes) returns (p: Payload, s': TextState)
    requires text != [] && ValidList(s) && FreshIds(s, NextIds(slots, |text|)) && index <= |VisibleIds(s)|
    requires Room(slots, s) > 0
    ensures p.tag == 7 && ValidList(s') && index + 1 <= |VisibleIds(s')|
    ensures FreshIds(s', NextIds(Logged(slots, field, p), |text| - 1))
    ensures NextIds(Logged(slots, field, p), |text| - 1) == NextIds(slots, |text|)[1..]
    ensures Room(Logged(slots, field, p), s') == Room(slots, s) - 1
    ensures TypeText(slots, s, field, index, text, encode) ==
            TypeText(Logged(slots, field, p), s', field, index + 1, text[1..], encode)
  {
    var ids := NextIds(slots, |text|);
    assert ids[0] == NextId(slots) && ids[0] in ids;
    InsertAtVisible(s, index, ids[0], text[0]);
    s' := InsertAt(s, index, ids[0], text[0]).value;
    p := Payload(7, CharParts(s, index, text[0], encode));
    FreshTail(s, s', ids);
    NextIdsTail(slots, field, p, |text|);
  }

  /** With room for `n` characters: all of them typed, or an error and `n` insertions left in the scope. */
  ghost predicate Typed(slots: Slots, t: (Result<TextState>, Slots), field: Bytes, ids: seq<OpId>, n: nat) {
    && (t.0.Ok? <==> |ids| <= n)
    && (n < |ids| ==>
          && t.0 == Err(if n == OrdinalsLeft(slots) then AllocationError(slots) else LogicalClockOverflow)
          && LeftAfter(slots, t.1, field, ids, n))
  }

  lemma TypeStuck(slots: Slots, s: TextState, field: Bytes, index: nat, text: string, encode: char -> Bytes)
    requires text != [] && FreshIds(s, NextIds(slots, |text|)) && Room(slots, s) == 0
    ensures Typed(slots, TypeText(slots, s, field, index, text, encode), field, NextIds(slots, |text|), 0)
  {
    var ids := NextIds(slots, |text|);
    assert ids[..0] == [];
    assert LoggedEach(slots, slots, field, 7, ids[..0]);
    if CanAllocate(slots) { assert ids[0] == NextId(slots) && ids[0] in ids; }
  }

  lemma TypedMore(slots: Slots, t: (Result<TextState>, Slots), field: Bytes, p: Payload, ids: seq<OpId>, n: nat)
    requires CanAllocate(slots) && ids != [] && ids == NextIds(slots, |ids|) && p.tag == 7
    ensures Typed(Logged(slots, field, p), t, field, ids[1..], n) ==> Typed(slots, t, field, ids, n + 1)
  {
    NextIdsTail(slots, field, p, |ids|);
    if n < |ids[1..]| && Typed(Logged(slots, field, p), t, field, ids[1..], n) { LeftMore(slots, p, t.1, field, ids, n); }
  }

  lemma TypeStep(slots: Slots, s: TextState, field: Bytes, index: nat, text: string, encode: char -> Bytes) returns (next: Slots, s': TextState)
    requires text != [] && ValidList(s) && FreshIds(s, NextIds(slots, |text|)) && index <= |VisibleIds(s)|
    requires Room(slots, s) > 0
    ensures ValidList(s') && FreshIds(s', NextIds(next, |text[1..]|)) && index + 1 <= |VisibleIds(s')|
    ensures Typed(next, TypeText(next, s', field, index + 1, text[1..], encode), field, NextIds(next, |text[1..]|), Room(next, s')) ==>
            Typed(slots, TypeText(slots, s, field, index, text, encode), field, NextIds(slots, |text|), Room(slots, s))
  {
    var p;
    p, s' := TypeFirst(slots, s, field, index, text, encode);
    next := Logged(slots, field, p);
    assert |text[1..]| == |text| - 1;
    TypedMore(slots, TypeText(slots, s, field, index, text, encode), field, p, NextIds(slots, |text|), Room(slots, s) - 1);
  }

  /**
   On a text as runs produce it, an insertion succeeds exactly if there is room for all of it.
   Otherwise the error names what ran out, and as many insertions as there was room for stay
   recorded in the scope, although the text holds none of them.
   */
  lemma {:induction false} TypeTextExact(slots: Slots, s: TextState, field: Bytes, index: nat, text: string, encode: char -> Bytes)
    requires ValidList(s) && FreshIds(s, NextIds(slots, |text|)) && index <= |VisibleIds(s)|
    ensures Typed(slots, TypeText(slots, s, field, index, text, encode), field, NextIds(slots, |text|), Room(slots, s))
    decreases |text|
  {
    if text != [] {
      if Room(slots, s) == 0 {
        TypeStuck(slots, s, field, index, text, encode);
      } else {
        var next, s' := TypeStep(slots, s, field, index, text, encode);
        TypeTextExact(next, s', field, index + 1, text[1..], encode);
      }
    }
  }

  lemma LoggedPrefixMore(slots: Slots, p: Payload, now: Slots, field: Bytes, ids: seq<OpId>, n: nat)
    requires CanAllocate(slots) && n < |ids| && ids[0] == NextId(slots)
    requires LoggedEach(Logged(slots, field, p), now, field, p.tag, ids[1..][..n])
    ensures LoggedEach(slots, now, field, p.tag, ids[..n + 1])
  {
    assert ids[1..][..n] == ids[..n + 1][1..];
    LoggedMore(slots, p, now, field, ids[..n + 1]);
  }

  lemma EraseFirst(slots: Slots, s: TextState, field: Bytes, index: nat, count: nat) returns (p: Payload, s': TextState)
    requires count > 0 && ValidList(s) && index + count <= |VisibleIds(s)| && CanAllocate(slots)
    ensures p.tag == 8 && ValidList(s') && index + count - 1 <= |VisibleIds(s')|
    ensures EraseText(slots, s, field, index, count) == EraseText(Logged(slots, field, p), s', field, index, count - 1)
  {
    RemoveAtVisible(s, index);
    p, s' := Payload(8, [OpIds([VisibleIds(s)[index]])]), RemoveAt(s, index).value;
  }

  /** A deletion in range succeeds exactly if the scope has numbers for it; else it leaves a removal for each it had. */
  lemma {:induction false} EraseTextExact(slots: Slots, s: TextState, field: Bytes, index: nat, count: nat)
    requires ValidList(s) && index + count <= |VisibleIds(s)|
    ensures var t, n := EraseText(slots, s, field, index, count), OrdinalsLeft(slots);
            && (t.0.Ok? <==> count <= n)
            && (n < count ==> t.0 == Err(AllocationError(slots)) && LoggedEach(slots, t.1, field, 8, NextIds(slots, count)[..n]))
    decreases count
  {
    var n, ids := OrdinalsLeft(slots), NextIds(slots, count);
    if count > 0 {
      if !CanAllocate(slots) {
        RemoveAtVisible(s, index);
        assert ids[..0] == [];
      } else {
        var p, s' := EraseFirst(slots, s, field, index, count);
        NextIdsTail(slots, field, p, count);
        EraseTextExact(Logged(slots, field, p), s', field, index, count - 1);
        if n < count { LoggedPrefixMore(slots, p, EraseText(slots, s, field, index, count).1, field, ids, n - 1); }
      }
    }
  }

  // ---- When a failed edit leaves nothing behind ----

  /** The first character of an insertion already fails. */
  ghost predicate FirstFails(slots: Slots, s: TextState, index: nat, text: string)
    requires text != []
  {
    CanAllocate(slots) ==> InsertAfter(s, NextId(slots), AnchorAt(VisibleIds(s), index), text[0]).Err?
  }

  lemma {:induction false} TypeTextKeepsRecords(slots: Slots, s: TextState, field: Bytes, index: nat, text: string, encode: char -> Bytes)
    ensures OperationsOf(slots) <= OperationsOf(TypeText(slots, s, field, index, text, encode).1)
    decreases |text|
  {
    if text != [] && !FirstFails(slots, s, index, text) {
      var s' := InsertAfter(s, NextId(slots), AnchorAt(VisibleIds(s), index), text[0]).value;
      var p := Payload(7, CharParts(s, index, text[0], encode));
      TypeTextKeepsRecords(Logged(slots, field, p), s', field, index + 1, text[1..], encode);
    }
  }

  /** A failed insertion leaves no operation behind exactly if its first character failed. */
  lemma FailureLeavesNothing(slots: Slots, s: TextState, field: Bytes, index: nat, text: string, encode: char -> Bytes)
    requires text != [] && TypeText(slots, s, field, index, text, encode).0.Err?
    ensures OperationsOf(TypeText(slots, s, field, index, text, encode).1) == OperationsOf(slots) <==> FirstFails(slots, s, index, text)
  {
    if !FirstFails(slots, s, index, text) {
      var s' := InsertAfter(s, NextId(slots), AnchorAt(VisibleIds(s), index), text[0]).value;
      var p := Payload(7, CharParts(s, index, text[0], encode));
      TypeTextKeepsRecords(Logged(slots, field, p), s', field, index + 1, text[1..], encode);
    }
  }

  /** For a new number in a text, that is: no scope, no number left in it, or the clock at its end. */
  lemma FirstFailsWhen(slots: Slots, s: TextState, index: nat, text: string)
    requires text != [] && FreshIds(s, NextIds(slots, 1))
    ensures FirstFails(slots, s, index, text) <==> Room(slots, s) == 0
  {
    if CanAllocate(slots) { assert NextIds(slots, 1)[0] == NextId(slots) && NextId(slots) in NextIds(slots, 1); }
  }

  /** A failed deletion in range leaves no operation behind exactly if the scope had no number at all. */
  lemma EraseLeavesNothing(slots: Slots, s: TextState, field: Bytes, index: nat, count: nat)
    requires ValidList(s) && index + count <= |VisibleIds(s)| && EraseText(slots, s, field, index, count).0.Err?
    ensures OperationsOf(EraseText(slots, s, field, index, count).1) == OperationsOf(slots) <==> OrdinalsLeft(slots) == 0
  {
    EraseTextExact(slots, s, field, index, count);
  }

  /** Two characters with one number left: the text is unchanged, and an insertion into it is on record. */
  lemma LastNumber(change: ChangeId, ops: seq<Pending>, field: Bytes, a: char, b: char, encode: char -> Bytes)
    ensures var slots := Slots(Some(Scope(change, U32_MAX - 1, ops)), None);
            var t := TypeText(slots, EmptyStore(), field, 0, [a, b], encode);
            && t.0 == Err(OperationOverflow)
            && OperationsOf(t.1) == ops + [Pending(field, OpId(change, U32_MAX - 1), Payload(7, [Anchor(None), Encoded(encode(a))]))]
  {
    var slots, s := Slots(Some(Scope(change, U32_MAX - 1, ops)), None), EmptyStore<Element<char>>();
    MaxTimeUnique(s.entries, 0);
    VisibleIn(s);
    assert VisibleIds(s) == [];
    var s' := InsertAfter(s, NextId(slots), None, a).value;
    var next := Logged(slots, field, Payload(7, CharParts(s, 0, a, encode)));
    assert [a, b][1..] == [b];
    assert TypeText(next, s', field, 1, [b], encode) == (Err(OperationOverflow), next);
  }

  // ---- What a swallowed failure publishes ----

  lemma LeftRecords(slots: Slots, now: Slots, field: Bytes, ids: seq<OpId>, n: nat)
    requires n <= |ids| && ids == NextIds(slots, |ids|) && slots.active.Some? && LeftAfter(slots, now, field, ids, n)
    ensures now.active.Some? && now.active.value.change == slots.active.value.change
    ensures OperationsOf(slots) <= OperationsOf(now) && |OperationsOf(now)| == |OperationsOf(slots)| + n
    ensures forall k :: 0 <= k < n ==>
              var p := OperationsOf(now)[|OperationsOf(slots)| + k]; p.id == ids[k] && p.payload.tag == 7
  {
    var ops, m := OperationsOf(now), |OperationsOf(slots)|;
    assert Tagged(ops[m..], field, 7, ids[..n]);
    forall k | 0 <= k < n ensures ops[m + k].id == ids[k] && ops[m + k].payload.tag == 7 {
      assert ops[m..][k] == ops[m + k] && ids[..n][k] == ids[k];
    }
  }

  lemma TakenWhole(now: Slots, names: Names, origin: Origin)
    requires now.active.Some? && names.scope(origin) == now.active.value.change && Contiguous(OperationsOf(now))
    ensures Taken(Finished(now), names, origin) == Ok(PublishAll(names, origin, OperationsOf(now)))
  {
  }

  /**
   If the failure is swallowed and the change completed, its operations are taken as usual,
   and they begin with an insertion under an id the text does not hold.
   */
  lemma SwallowedInsert(slots: Slots, s: TextState, field: Bytes, index: nat, text: string, encode: char -> Bytes, names: Names, origin: Origin)
    requires ValidList(s) && FreshIds(s, NextIds(slots, |text|)) && index <= |VisibleIds(s)|
    requires slots.active.Some? && Contiguous(OperationsOf(slots)) && slots.active.value.nextOrdinal == |OperationsOf(slots)|
    requires 0 < Room(slots, s) < |text| && names.scope(origin) == slots.active.value.change
    ensures var t := TypeText(slots, s, field, index, text, encode);
            var out := Taken(Finished(t.1), names, origin);
            && t.0.Err? && out.Ok? && |out.value| == |OperationsOf(slots)| + Room(slots, s)
            && forall k :: |OperationsOf(slots)| <= k < |out.value| ==>
                 out.value[k].payload.tag == 7 && out.value[k].ordinal == k && OpId(slots.active.value.change, k) !in s.entries
  {
    TypeTextExact(slots, s, field, index, text, encode);
    var t, n, ids := TypeText(slots, s, field, index, text, encode), Room(slots, s), NextIds(slots, |text|);
    var ops, m := OperationsOf(t.1), |OperationsOf(slots)|;
    LeftRecords(slots, t.1, field, ids, n);
    forall k | 0 <= k < |ops| ensures ops[k].id.ordinal == k {
      if k < m { assert ops[k] == OperationsOf(slots)[k]; } else { assert ops[m + (k - m)].id == ids[k - m]; }
    }
    TakenWhole(t.1, names, origin);
    var out := PublishAll(names, origin, ops);
    forall k | m <= k < |out| ensures out[k].payload.tag == 7 && out[k].ordinal == k && OpId(slots.active.value.change, k) !in s.entries {
      assert ops[m + (k - m)].id == ids[k - m] && ids[k - m] in ids;
    }
  }

  /** If the clock ran out instead, one number is lost: whatever is recorded next makes the change refused. */
  lemma ClockFailureLosesChange(slots: Slots, s: TextState, field: Bytes, index: nat, text: string, encode: char -> Bytes,
                                next: Payload, names: Names, origin: Origin)
    requires ValidList(s) && FreshIds(s, NextIds(slots, |text|)) && index <= |VisibleIds(s)|
    requires slots.active.Some? && slots.active.value.nextOrdinal == |OperationsOf(slots)|
    requires TimesLeft(s) < |text| && TimesLeft(s) + 1 < OrdinalsLeft(slots)
    ensures var t := TypeText(slots, s, field, index, text, encode);
            && t.0 == Err(LogicalClockOverflow) && CanAllocate(t.1)
            && Taken(Finished(Logged(t.1, field, next)), names, origin) == Err(ChangeMismatch)
  {
    TypeTextExact(slots, s, field, index, text, encode);
    var t, n, ids := TypeText(slots, s, field, index, text, encode), Room(slots, s), NextIds(slots, |text|);
    assert LeftAfter(slots, t.1, field, ids, n);
    var ops := OperationsOf(Logged(t.1, field, next));
    assert ops[|ops| - 1].id.ordinal == |ops|;
  }

  // ---- New numbers in a text ----

  /** The open scope has numbered every element of its change the text holds. */
  ghost predicate NumberedBelow(slots: Slots, s: TextState) {
    slots.active.Some? ==>
      forall id :: id in s.entries && id.change == slots.active.value.change ==> id.ordinal < slots.active.value.nextOrdinal
  }

  lemma NextIdsFresh(slots: Slots, s: TextState, n: nat)
    requires NumberedBelow(slots, s) && slots.active.Some?
    ensures FreshIds(s, NextIds(slots, n))
  {
  }

  /** Under such a scope an insertion into a valid text goes exactly as far as there is room. */
  lemma ScopedTyping(slots: Slots, s: TextState, field: Bytes, index: nat, text: string, encode: char -> Bytes)
    requires ValidList(s) && NumberedBelow(slots, s) && slots.active.Some? && index <= |VisibleIds(s)|
    ensures Typed(slots, TypeText(slots, s, field, index, text, encode), field, NextIds(slots, |text|), Room(slots, s))
  {
    NextIdsFresh(slots, s, |text|);
    TypeTextExact(slots, s, field, index, text, encode);
  }

  lemma NumberedNext(slots: Slots, s: TextState, field: Bytes, p: Payload, e: Element<char>)
    requires NumberedBelow(slots, s) && CanAllocate(slots)
    ensures NumberedBelow(Logged(slots, field, p), s.(entries := s.entries[NextId(slots) := e]))
    ensures NumberedBelow(Logged(slots, field, p), s) && NumberedBelow(Allocated(slots), s)
  {
  }

  lemma NumberedFewer(now: Slots, s: TextState, s': TextState)
    requires NumberedBelow(now, s') && s.entries.Keys <= s'.entries.Keys
    ensures NumberedBelow(now, s)
  {
  }

  /** A change the text has no element of may begin anywhere; edits keep its numbers new. */
  lemma {:induction false} TypeTextKeepsNumbering(slots: Slots, s: TextState, field: Bytes, index: nat, text: string, encode: char -> Bytes)
    requires NumberedBelow(slots, s)
    ensures var t := TypeText(slots, s, field, index, text, encode);
            NumberedBelow(t.1, s) && (t.0.Ok? ==> NumberedBelow(t.1, t.0.value))
    decreases |text|
  {
    if text != [] && CanAllocate(slots) {
      var one := InsertAfter(s, NextId(slots), AnchorAt(VisibleIds(s), index), text[0]);
      var p := Payload(7, CharParts(s, index, text[0], encode));
      NumberedNext(slots, s, field, p, Element(AnchorAt(VisibleIds(s), index), MaxTime(s.entries) + 1, text[0]));
      if one.Ok? {
        TypeTextKeepsNumbering(Logged(slots, field, p), one.value, field, index + 1, text[1..], encode);
        NumberedFewer(TypeText(slots, s, field, index, text, encode).1, s, one.value);
      }
    }
  }
}
