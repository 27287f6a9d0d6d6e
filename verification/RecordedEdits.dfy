/**
 What a text edit puts on record: for each character the element it became, for each
 deletion the element it hid; and what consensus is handed of it.
 */
module RecordedEdits {
  import opened Options
  import opened Orders
  import opened Ids
  import opened OpStore
  import opened ChangeScopes
  import opened ListOrder
  import opened ListEdits
  import opened TextEdits

  // ---- Insertions ----

  /** `p` records that `ch` was inserted as the element `id` of `s`, where it is anchored. */
  ghost predicate RecordsElement(p: Pending, s: TextState, field: Bytes, id: OpId, ch: char, encode: char -> Bytes) {
    && id in s.entries && s.entries[id].value == ch
    && p == Pending(field, id, Payload(7, [Anchor(s.entries[id].after), Encoded(encode(ch))]))
  }

  lemma {:induction false} TypingKeeps(slots: Slots, s: TextState, field: Bytes, index: nat, text: string, encode: char -> Bytes)
    requires TypeText(slots, s, field, index, text, encode).0.Ok?
    ensures SubMap(s.entries, TypeText(slots, s, field, index, text, encode).0.value.entries)
    decreases |text|
  {
    if text != [] {
      var s' := InsertAfter(s, NextId(slots), AnchorAt(VisibleIds(s), index), text[0]).value;
      TypingKeeps(Logged(slots, field, Payload(7, CharParts(s, index, text[0], encode))), s', field, index + 1, text[1..], encode);
    }
  }

  /** The operations recorded by `now` after those of `before`. */
  function NewOperations(before: Slots, now: Slots): seq<Pending>
    requires |OperationsOf(before)| <= |OperationsOf(now)|
  {
    OperationsOf(now)[|OperationsOf(before)|..]
  }

  lemma FirstRecorded(slots: Slots, field: Bytes, p: Payload, now: Slots)
    requires CanAllocate(slots) && OperationsOf(Logged(slots, field, p)) <= OperationsOf(now)
    ensures OperationsOf(slots) <= OperationsOf(now)
    ensures NewOperations(slots, now) == [Pending(field, NextId(slots), p)] + NewOperations(Logged(slots, field, p), now)
  {
    var ops, m := OperationsOf(now), |OperationsOf(slots)|;
    var mid := OperationsOf(Logged(slots, field, p));
    assert mid == OperationsOf(slots) + [Pending(field, NextId(slots), p)];
    assert ops[m] == mid[m] && ops[..m] == mid[..m];
  }

  /** `ps` records one element of `s` for each character of `text`, under `ids`. */
  ghost predicate RecordsText(ps: seq<Pending>, s: TextState, field: Bytes, ids: seq<OpId>, text: string, encode: char -> Bytes) {
    |ps| == |ids| == |text| && forall k :: 0 <= k < |ps| ==> RecordsElement(ps[k], s, field, ids[k], text[k], encode)
  }

  lemma RecordsMore(p: Pending, ps: seq<Pending>, s: TextState, field: Bytes, ids: seq<OpId>, text: string, encode: char -> Bytes)
    requires |ids| == |text| > 0 && RecordsElement(p, s, field, ids[0], text[0], encode)
    ensures RecordsText(ps, s, field, ids[1..], text[1..], encode) ==> RecordsText([p] + ps, s, field, ids, text, encode)
  {
    if RecordsText(ps, s, field, ids[1..], text[1..], encode) {
      forall k | 0 <= k < |ids| ensures RecordsElement(([p] + ps)[k], s, field, ids[k], text[k], encode) {
        if k > 0 { assert ids[k] == ids[1..][k - 1] && text[k] == text[1..][k - 1]; }
      }
    }
  }

  /** A successful insertion records for each character its number, its anchor in the text, and the character. */
  lemma {:induction false} TypedRecords(slots: Slots, s: TextState, field: Bytes, index: nat, text: string, encode: char -> Bytes)
    requires slots.active.Some? && TypeText(slots, s, field, index, text, encode).0.Ok?
    ensures var (r, now) := TypeText(slots, s, field, index, text, encode);
            && OperationsOf(slots) <= OperationsOf(now)
            && RecordsText(NewOperations(slots, now), r.value, field, NextIds(slots, |text|), text, encode)
    decreases |text|
  {
    if text != [] {
      var id, p := NextId(slots), Payload(7, CharParts(s, index, text[0], encode));
      var next, s' := Logged(slots, field, p), InsertAfter(s, id, AnchorAt(VisibleIds(s), index), text[0]).value;
      var (r, now) := TypeText(slots, s, field, index, text, encode);
      assert |text[1..]| == |text| - 1;
      TypedRecords(next, s', field, index + 1, text[1..], encode);
      TypingKeeps(next, s', field, index + 1, text[1..], encode);
      FirstRecorded(slots, field, p, now);
      NextIdsTail(slots, field, p, |text|);
      assert s'.entries[id].after == AnchorAt(VisibleIds(s), index) && s'.entries[id].value == text[0];
      RecordsMore(Pending(field, id, p), NewOperations(next, now), r.value, field, NextIds(slots, |text|), text, encode);
    }
  }

  // ---- Deletions ----

  ghost predicate RecordsRemovals(ps: seq<Pending>, field: Bytes, ids: seq<OpId>, gone: seq<OpId>) {
    |ps| == |ids| == |gone| && forall k :: 0 <= k < |ps| ==> ps[k] == Pending(field, ids[k], Payload(8, [OpIds([gone[k]])]))
  }

  lemma RemovalsMore(ps: seq<Pending>, field: Bytes, ids: seq<OpId>, gone: seq<OpId>)
    requires |ids| == |gone| > 0
    ensures RecordsRemovals(ps, field, ids[1..], gone[1..]) ==>
            RecordsRemovals([Pending(field, ids[0], Payload(8, [OpIds([gone[0]])]))] + ps, field, ids, gone)
  {
    if RecordsRemovals(ps, field, ids[1..], gone[1..]) {
      var all := [Pending(field, ids[0], Payload(8, [OpIds([gone[0]])]))] + ps;
      forall k | 0 <= k < |ids| ensures all[k] == Pending(field, ids[k], Payload(8, [OpIds([gone[k]])])) {
        if k > 0 { assert ids[k] == ids[1..][k - 1] && gone[k] == gone[1..][k - 1]; }
      }
    }
  }

  lemma CutFirst(vis: seq<OpId>, index: nat, count: nat, rest: seq<OpId>) returns (gone: seq<OpId>)
    requires 0 < count && index + count <= |vis| && rest == vis[..index] + vis[index + 1..]
    ensures gone == vis[index..index + count] && gone[0] == vis[index] && rest[index..index + (count - 1)] == gone[1..]
    ensures Elems(gone) == {gone[0]} + Elems(gone[1..])
  {
    gone := vis[index..index + count];
    assert gone == [gone[0]] + gone[1..];
  }

  /** A deletion of `gone` that succeeded: each is on record, and they are what is hidden now. */
  ghost predicate Erased(slots: Slots, s: TextState, field: Bytes, ids: seq<OpId>, gone: seq<OpId>, t: (Result<TextState>, Slots)) {
    && t.0 == Ok(s.(removed := s.removed + Elems(gone)))
    && OperationsOf(slots) <= OperationsOf(t.1)
    && RecordsRemovals(NewOperations(slots, t.1), field, ids, gone)
  }

  lemma ErasedMore(slots: Slots, s: TextState, field: Bytes, ids: seq<OpId>, gone: seq<OpId>, t: (Result<TextState>, Slots))
    requires CanAllocate(slots) && |ids| == |gone| > 0 && ids[0] == NextId(slots) && Elems(gone) == {gone[0]} + Elems(gone[1..])
    ensures var next := Logged(slots, field, Payload(8, [OpIds([gone[0]])]));
            Erased(next, s.(removed := s.removed + {gone[0]}), field, ids[1..], gone[1..], t) ==> Erased(slots, s, field, ids, gone, t)
  {
    var p := Payload(8, [OpIds([gone[0]])]);
    var next := Logged(slots, field, p);
    if Erased(next, s.(removed := s.removed + {gone[0]}), field, ids[1..], gone[1..], t) {
      FirstRecorded(slots, field, p, t.1);
      RemovalsMore(NewOperations(next, t.1), field, ids, gone);
      assert s.removed + {gone[0]} + Elems(gone[1..]) == s.removed + Elems(gone);
    }
  }

  /** The ids of `count` visible characters from `index` on. */
  function Range(s: TextState, index: nat, count: nat): (r: seq<OpId>)
    requires index + count <= |VisibleIds(s)|
    ensures |r| == count
  {
    VisibleIds(s)[index..index + count]
  }

  lemma EraseHead(slots: Slots, s: TextState, field: Bytes, index: nat, count: nat, gone: seq<OpId>) returns (next: Slots, s': TextState)
    requires ValidList(s) && count > 0 && index + count <= |VisibleIds(s)| && gone == Range(s, index, count) && CanAllocate(slots)
    ensures ValidList(s') && index + (count - 1) <= |VisibleIds(s')| && Range(s', index, count - 1) == gone[1..]
    ensures Elems(gone) == {gone[0]} + Elems(gone[1..])
    ensures s' == s.(removed := s.removed + {gone[0]}) && next == Logged(slots, field, Payload(8, [OpIds([gone[0]])]))
    ensures EraseText(slots, s, field, index, count) == EraseText(next, s', field, index, count - 1)
  {
    s', next := RemoveAt(s, index).value, Logged(slots, field, Payload(8, [OpIds([VisibleIds(s)[index]])]));
    RemoveAtVisible(s, index);
    var cut := CutFirst(VisibleIds(s), index, count, VisibleIds(s'));
  }

  /** A deletion records the characters it hid, in order, and hides exactly them. */
  lemma {:induction false} ErasedRecords(slots: Slots, s: TextState, field: Bytes, index: nat, count: nat)
    requires ValidList(s) && index + count <= |VisibleIds(s)| && slots.active.Some?
    requires EraseText(slots, s, field, index, count).0.Ok?
    ensures Erased(slots, s, field, NextIds(slots, count), Range(s, index, count), EraseText(slots, s, field, index, count))
    decreases count
  {
    if count > 0 {
      var gone, ids := Range(s, index, count), NextIds(slots, count);
      var next, s' := EraseHead(slots, s, field, index, count, gone);
      ErasedRecords(next, s', field, index, count - 1);
      NextIdsTail(slots, field, Payload(8, [OpIds([gone[0]])]), count);
      ErasedMore(slots, s, field, ids, gone, EraseText(slots, s, field, index, count));
    } else {
      NoneErased(slots, s, field, Range(s, index, 0));
    }
  }

  lemma NoneErased(slots: Slots, s: TextState, field: Bytes, none: seq<OpId>)
    requires none == []
    ensures Erased(slots, s, field, NextIds(slots, 0), none, (Ok(s), slots))
  {
    assert s.removed + Elems(none) == s.removed;
  }

  // ---- What consensus is handed ----

  /** Names of operations, one for each dispatch, field and number. */
  ghost predicate OneName(names: Names) {
    forall o, f, n, o', f', n' :: names.operation(o, f, n) == names.operation(o', f', n') ==> o == o' && f == f' && n == n'
  }

  /**
   The operations of a completed change are handed over if it is the dispatch's own and
   numbered without a gap: each under the dispatch, its field, its number and the name made
   of the three, so that no two have one name.
   */
  lemma OperationsTaken(s: Slots, names: Names, origin: Origin)
    ensures var done, out := s.completed, Taken(s, names, origin);
            && (out == Err(NoCompletedChange) <==> done.None?)
            && (out.Ok? <==> done.Some? && done.value.change == names.scope(origin)
                             && forall i :: 0 <= i < |done.value.operations| ==> done.value.operations[i].id.ordinal == i)
            && (out.Err? && done.Some? ==> out == Err(ChangeMismatch))
            && (out.Ok? ==> |out.value| == |done.value.operations|)
            && (out.Ok? ==> forall i :: 0 <= i < |out.value| ==>
                  out.value[i] == Published(origin, done.value.operations[i].field, i, names.operation(origin, done.value.operations[i].field, i), done.value.operations[i].payload))
            && (out.Ok? && OneName(names) ==> forall i, j :: 0 <= i < j < |out.value| ==> out.value[i].id != out.value[j].id)
  {
  }
}
