/**
 Replicated text: a list of characters edited through a staged copy, so that an edit
 either splices its whole range or leaves the text as it was.
 */
module Texts {
  import opened Orders
  import opened Ids
  import opened OpStore
  import opened ChangeScopes
  import opened ListEdits
  import opened Lists
  import opened TextEdits

  /** What a caller is told of an edit. */
  function Reported(r: Result<TextState>): Result<()> { if r.Ok? then Ok(()) else Err(r.error) }

  /** One character of an insertion, on the staged copy. */
  method StageChar(staged: List<char>, scope: ChangeContext, field: Bytes, at: nat, ch: char, encode: char -> Bytes)
    returns (r: Result<()>)
    modifies staged, scope
    ensures var t := TypeText(old(scope.View()), old(staged.View()), field, at, [ch], encode);
            r == Reported(t.0) && scope.View() == t.1 && (r.Ok? ==> t.0 == Ok(staged.View()))
  {
    var visible := staged.VisibleList();
    var after := AnchorAt(visible, at);
    var next := scope.NextOperation();
    if next.Err? { return Err(next.error); }
    r := staged.InsertAfterWithId(next.value, after, ch);
    if r.Ok? {
      r := scope.RecordOperation(field, next.value, Payload(7, [Anchor(after), Encoded(encode(ch))]));
    }
  }

  /** One character of a deletion, on the staged copy. */
  method StageRemove(staged: List<char>, scope: ChangeContext, field: Bytes, index: nat) returns (r: Result<()>)
    modifies staged, scope
    ensures var t := EraseText(old(scope.View()), old(staged.View()), field, index, 1);
            r == Reported(t.0) && scope.View() == t.1 && (r.Ok? ==> t.0 == Ok(staged.View()))
  {
    var visible := staged.VisibleList();
    if index >= |visible| { return Err(IndexOutOfBounds); }
    var target := visible[index];
    var removal := scope.NextOperation();
    if removal.Err? { return Err(removal.error); }
    staged.removed := staged.removed + {target};
    r := scope.RecordOperation(field, removal.value, Payload(8, [OpIds([target])]));
  }

  /** With `k` characters done, what is left to do ends at `goal`. */
  ghost predicate Typing(slots: Slots, s: TextState, field: Bytes, index: nat, text: string, encode: char -> Bytes, k: nat, goal: (Result<TextState>, Slots))
    requires k <= |text|
  {
    TypeText(slots, s, field, index + k, text[k..], encode) == goal
  }

  lemma TypingStarts(slots: Slots, s: TextState, field: Bytes, index: nat, text: string, encode: char -> Bytes)
    ensures Typing(slots, s, field, index, text, encode, 0, TypeText(slots, s, field, index, text, encode))
  {
    assert text[0..] == text;
  }

  lemma TypingStep(slots: Slots, s: TextState, field: Bytes, index: nat, text: string, encode: char -> Bytes, k: nat, goal: (Result<TextState>, Slots))
    requires k < |text| && Typing(slots, s, field, index, text, encode, k, goal)
    ensures var one := TypeText(slots, s, field, index + k, [text[k]], encode);
            if one.0.Err? then goal == one else Typing(one.1, one.0.value, field, index, text, encode, k + 1, goal)
  {
    assert [text[k]][1..] == [] && text[k..][0] == text[k] && text[k..][1..] == text[k + 1..];
  }

  lemma TypingEnds(slots: Slots, s: TextState, field: Bytes, index: nat, text: string, encode: char -> Bytes, goal: (Result<TextState>, Slots))
    requires Typing(slots, s, field, index, text, encode, |text|, goal)
    ensures goal == (Ok(s), slots)
  {
  }

  /** The insertion loop, on the staged copy. */
  method StageText(staged: List<char>, scope: ChangeContext, field: Bytes, index: nat, text: string, encode: char -> Bytes)
    returns (r: Result<()>)
    modifies staged, scope
    ensures var t := TypeText(old(scope.View()), old(staged.View()), field, index, text, encode);
            r == Reported(t.0) && scope.View() == t.1 && (r.Ok? ==> t.0 == Ok(staged.View()))
  {
    ghost var goal := TypeText(scope.View(), staged.View(), field, index, text, encode);
    TypingStarts(scope.View(), staged.View(), field, index, text, encode);
    for k := 0 to |text|
      invariant Typing(scope.View(), staged.View(), field, index, text, encode, k, goal)
    {
      TypingStep(scope.View(), staged.View(), field, index, text, encode, k, goal);
      r := StageChar(staged, scope, field, index + k, text[k], encode);
      if r.Err? { return; }
    }
    TypingEnds(scope.View(), staged.View(), field, index, text, encode, goal);
    r := Ok(());
  }

  lemma EraseOne(slots: Slots, s: TextState, field: Bytes, index: nat, count: nat)
    requires count > 0
    ensures var one := EraseText(slots, s, field, index, 1);
            EraseText(slots, s, field, index, count) ==
            if one.0.Err? then one else EraseText(one.1, one.0.value, field, index, count - 1)
  {
  }

  /** The deletion loop, on the staged copy. */
  method StageDelete(staged: List<char>, scope: ChangeContext, field: Bytes, index: nat, count: nat)
    returns (r: Result<()>)
    modifies staged, scope
    ensures var t := EraseText(old(scope.View()), old(staged.View()), field, index, count);
            r == Reported(t.0) && scope.View() == t.1 && (r.Ok? ==> t.0 == Ok(staged.View()))
  {
    for k := 0 to count
      invariant EraseText(scope.View(), staged.View(), field, index, count - k) ==
                EraseText(old(scope.View()), old(staged.View()), field, index, count)
    {
      EraseOne(scope.View(), staged.View(), field, index, count - k);
      r := StageRemove(staged, scope, field, index);
      if r.Err? { return; }
    }
    r := Ok(());
  }

  /** A splice of `text` at `index`, with its operations recorded, when the scope's numbers are new to a valid text. */
  lemma InsertSplices(slots: Slots, s: TextState, field: Bytes, index: nat, text: string, encode: char -> Bytes)
    requires ValidList(s) && FreshIds(s, NextIds(slots, |text|)) && index <= |VisibleIds(s)|
    requires TypeText(slots, s, field, index, text, encode).0.Ok?
    ensures var t := TypeText(slots, s, field, index, text, encode);
            && ValidList(t.0.value) && Values(t.0.value) == Values(s)[..index] + text + Values(s)[index..]
            && LoggedEach(slots, t.1, field, 7, NextIds(slots, |text|))
  {
    TypeTextSucceeds(slots, s, field, index, text, encode);
    InsertTextEffect(s, index, NextIds(slots, |text|), text);
  }

  lemma DeleteSplices(slots: Slots, s: TextState, field: Bytes, index: nat, count: nat)
    requires ValidList(s) && index + count <= |VisibleIds(s)|
    requires EraseText(slots, s, field, index, count).0.Ok?
    ensures var t := EraseText(slots, s, field, index, count);
            && ValidList(t.0.value) && Values(t.0.value) == Values(s)[..index] + Values(s)[index + count..]
            && LoggedEach(slots, t.1, field, 8, NextIds(slots, count))
  {
    EraseTextSucceeds(slots, s, field, index, count);
    RemoveRangeEffect(s, index, count);
  }

  class Text {
    var chars: List<char>
    var field: Bytes

    ghost function View(): ListState<char> reads this, chars { chars.View() }

    constructor (tag: Bytes)
      ensures View() == EmptyStore() && field == tag && fresh(chars)
    {
      chars := new List<char>(tag);
      field := tag;
    }

    method AsString() returns (s: string)
      ensures s == Values(View())
    {
      var ids := chars.VisibleList();
      VisibleIn(View());
      s := ValuesOf(chars.elements, ids);
    }

    method Insert(scope: ChangeContext, index: nat, text: string, encode: char -> Bytes) returns (r: Result<()>)
      modifies this, scope
      ensures field == old(field)
      ensures r.Err? ==> View() == old(View())
      ensures index > |Values(old(View()))| ==> r == Err(IndexOutOfBounds) && scope.View() == old(scope.View())
      ensures index <= |Values(old(View()))| ==>
                var t := TypeText(old(scope.View()), old(View()), field, index, text, encode);
                r == Reported(t.0) && scope.View() == t.1 && (r.Ok? ==> t.0 == Ok(View()))
      ensures r.Ok? && ValidList(old(View())) && FreshIds(old(View()), NextIds(old(scope.View()), |text|)) ==>
                && ValidList(View())
                && Values(View()) == Values(old(View()))[..index] + text + Values(old(View()))[index..]
                && LoggedEach(old(scope.View()), scope.View(), field, 7, NextIds(old(scope.View()), |text|))
    {
      var n := chars.Len();
      if index > n { return Err(IndexOutOfBounds); }
      var staged := new List<char>.Clone(chars);
      ghost var slots, was := scope.View(), View();
      r := StageText(staged, scope, field, index, text, encode);
      if r.Ok? {
        chars := staged;
        if ValidList(was) && FreshIds(was, NextIds(slots, |text|)) { InsertSplices(slots, was, field, index, text, encode); }
      }
    }

    method Delete(scope: ChangeContext, index: nat, count: nat) returns (r: Result<()>)
      modifies this, scope
      ensures field == old(field)
      ensures r.Err? ==> View() == old(View())
      ensures index + count > |Values(old(View()))| ==> r == Err(IndexOutOfBounds) && scope.View() == old(scope.View())
      ensures index + count <= |Values(old(View()))| ==>
                var t := EraseText(old(scope.View()), old(View()), field, index, count);
                r == Reported(t.0) && scope.View() == t.1 && (r.Ok? ==> t.0 == Ok(View()))
      ensures r.Ok? && ValidList(old(View())) ==>
                && ValidList(View())
                && Values(View()) == Values(old(View()))[..index] + Values(old(View()))[index + count..]
                && LoggedEach(old(scope.View()), scope.View(), field, 8, NextIds(old(scope.View()), count))
    {
      var n := chars.Len();
      if index + count > n { return Err(IndexOutOfBounds); }
      var staged := new List<char>.Clone(chars);
      ghost var slots, was := scope.View(), View();
      r := StageDelete(staged, scope, field, index, count);
      if r.Ok? {
        chars := staged;
        if ValidList(was) { DeleteSplices(slots, was, field, index, count); }
      }
    }

    method Merge(other: Text) returns (r: Result<()>)
      modifies chars
      ensures old(Compatible(View(), other.View())) ==>
                r == Ok(()) && View() == Join(old(View()), old(other.View()))
      ensures !old(Compatible(View(), other.View())) ==>
                && View() == old(View()) && r.Err? && r.error.DivergentOperation?
                && IsLeast(r.error.id, Conflicts(old(View()).entries, old(other.View()).entries), IdOrder())
    {
      r := chars.Merge(other.chars);
    }
  }
}
