/**
 What a guest is told over a whole run, call by call: its mail in order, its own stores as
 it made them and the committed rows beneath, and what its calls leave in the journal.
 */
module HostCalls {
  import opened Options
  import opened Ids
  import opened Journals
  import opened Refine

  /** A call the host answers by itself. */
  predicate Answerable(a: Action) {
    a.Fetch? || a.Read? || a.Store? || a.Send? || a.Offer? || a.RecordIntent?
  }

  /** The last value stored under `key`, if one was. */
  function LastStored(calls: seq<Action>, key: Bytes): Option<Bytes> {
    if calls == [] then None
    else
      var a := calls[|calls| - 1];
      if a.Store? && a.key == key then Some(a.value) else LastStored(calls[..|calls| - 1], key)
  }

  function Fetches(calls: seq<Action>): nat {
    if calls == [] then 0 else Fetches(calls[..|calls| - 1]) + if calls[|calls| - 1].Fetch? then 1 else 0
  }

  predicate AsksToRecord(calls: seq<Action>) { RecordIntent in calls }

  /** What the calls queue, in order: rows, mail to others, mail to itself, preimages. */
  function Queued(calls: seq<Action>, svc: nat): Journal {
    if calls == [] then EmptyJournal
    else
      var a, j := calls[|calls| - 1], Queued(calls[..|calls| - 1], svc);
      if a.Store? then j.(writes := j.writes + [Entry(svc, a.key, Some(a.value))])
      else if a.Send? && a.target == svc then j.(selfMessages := j.selfMessages + [a.memo])
      else if a.Send? then j.(transfers := j.transfers + [(a.target, a.memo)])
      else if a.Offer? then j.(preimages := j.preimages + [(a.hash, a.data)])
      else j
  }

  /** The answer to `a` after `calls`, for a service whose rows are `st` and whose mail is `items` before them. */
  function Answer(st: Storage, svc: nat, items: seq<Bytes>, recordable: bool, calls: seq<Action>, a: Action): Obs {
    match a
    case Fetch => Item(if Fetches(calls) < |items| then items[Fetches(calls)] else [])
    case Read(key) => Row(if LastStored(calls, key).Some? then LastStored(calls, key) else RowAt(st, svc, key))
    case RecordIntent => if recordable then Acknowledged else Refused
    case _ => Acknowledged
  }

  function Unfetched(items: seq<Bytes>, calls: seq<Action>): seq<Bytes> {
    if Fetches(calls) < |items| then items[Fetches(calls)..] else []
  }

  /** The state after `calls`. */
  function After(s: State, svc: nat, calls: seq<Action>): State {
    State(Concat(s.journal, Queued(calls, svc)), s.mode, s.rejected || (AsksToRecord(calls) && !s.mode.Inactive?), s.calls)
  }

  // ---- One call ----

  lemma LastApart(calls: seq<Action>, a: Action)
    ensures (calls + [a])[..|calls|] == calls && (calls + [a])[|calls|] == a
  {
  }

  lemma {:induction false} StoredRow(st: Storage, svc: nat, key: Bytes, calls: seq<Action>)
    ensures RowAt(Drain(st, Queued(calls, svc).writes), svc, key) ==
            if LastStored(calls, key).Some? then LastStored(calls, key) else RowAt(st, svc, key)
  {
    if calls != [] {
      var init, a := calls[..|calls| - 1], calls[|calls| - 1];
      StoredRow(st, svc, key, init);
      if a.Store? {
        var ws := Queued(init, svc).writes;
        DrainAppend(st, ws, [Entry(svc, a.key, Some(a.value))]);
      }
    }
  }

  /** A read sees the guest's own last store, or the row as it was before the run. */
  lemma ReadSees(c: Context, svc: nat, s: State, calls: seq<Action>, key: Bytes)
    ensures Effective(After(s, svc, calls).journal, c.storage, svc, key) ==
            if LastStored(calls, key).Some? then LastStored(calls, key) else RowAt(Drain(c.storage, s.journal.writes), svc, key)
  {
    var st := Drain(c.storage, s.journal.writes);
    OverlayRefinesCommit(After(s, svc, calls).journal, c.storage, svc, key);
    DrainAppend(c.storage, s.journal.writes, Queued(calls, svc).writes);
    StoredRow(st, svc, key, calls);
  }

  lemma QueuedMore(calls: seq<Action>, svc: nat, a: Action, s: State)
    requires Answerable(a)
    ensures After(s, svc, calls + [a]).journal ==
            var j := After(s, svc, calls).journal;
            if a.Store? then j.(writes := j.writes + [Entry(svc, a.key, Some(a.value))])
            else if a.Send? && a.target == svc then j.(selfMessages := j.selfMessages + [a.memo])
            else if a.Send? then j.(transfers := j.transfers + [(a.target, a.memo)])
            else if a.Offer? then j.(preimages := j.preimages + [(a.hash, a.data)])
            else j
  {
    LastApart(calls, a);
    var q, x, y := Queued(calls, svc), After(s, svc, calls).journal, After(s, svc, calls + [a]).journal;
    assert y.writes == if a.Store? then x.writes + [Entry(svc, a.key, Some(a.value))] else x.writes;
    assert y.selfMessages == if a.Send? && a.target == svc then x.selfMessages + [a.memo] else x.selfMessages;
    assert y.transfers == if a.Send? && a.target != svc then x.transfers + [(a.target, a.memo)] else x.transfers;
    assert y.preimages == if a.Offer? then x.preimages + [(a.hash, a.data)] else x.preimages;
  }

  lemma FetchedMore(items: seq<Bytes>, calls: seq<Action>, a: Action)
    ensures var left := Unfetched(items, calls);
            Unfetched(items, calls + [a]) == if a.Fetch? && left != [] then left[1..] else left
  {
    LastApart(calls, a);
  }

  /** The next call: its answer, the mail left, and the state. */
  lemma CallAnswered(c: Context, svc: nat, s: State, items: seq<Bytes>, calls: seq<Action>, a: Action)
    requires Answerable(a)
    ensures HostCall(c, svc, a, After(s, svc, calls), Unfetched(items, calls)) ==
            (Answer(Drain(c.storage, s.journal.writes), svc, items, s.mode.Inactive?, calls, a),
             After(s, svc, calls + [a]), Unfetched(items, calls + [a]))
  {
    QueuedMore(calls, svc, a, s);
    FetchedMore(items, calls, a);
    if a.Read? { ReadSees(c, svc, s, calls, a.key); }
  }

  // ---- A whole run ----

  /**
   From `hist` on the guest makes these calls when told these answers, each the answer of a
   host with rows `st` and mail `items` to the call after the ones before it.
   */
  ghost predicate Exchange(st: Storage, svc: nat, items: seq<Bytes>, recordable: bool, guest: Guest, hist: seq<Obs>, calls: seq<Action>, told: seq<Obs>) {
    if calls == [] then told == []
    else
      var n := |calls| - 1;
      && |told| == |calls|
      && Exchange(st, svc, items, recordable, guest, hist, calls[..n], told[..n])
      && Answerable(calls[n]) && guest(hist + told[..n]) == calls[n]
      && told[n] == Answer(st, svc, items, recordable, calls[..n], calls[n])
  }

  /** A run as a function of what is left of it. */
  type Runner = (nat, State, seq<Bytes>, seq<Obs>) -> (Exit, State, seq<Bytes>)

  /** A call the host answers by itself costs one unit, and the run goes on with the answer. */
  ghost predicate GoesOnAnswered(run: Runner, c: Context, guest: Guest, svc: nat, gas: nat, s: State, items: seq<Bytes>, hist: seq<Obs>) {
    gas > 0 && Answerable(guest(hist)) ==>
      var (obs, s', items') := HostCall(c, svc, guest(hist), s, items);
      run(gas, s, items, hist) == run(gas - 1, s', items', hist + [obs])
  }

  ghost predicate Answers(run: Runner, c: Context, guest: Guest, svc: nat) {
    forall gas: nat, s, items, hist :: GoesOnAnswered(run, c, guest, svc, gas, s, items, hist)
  }

  lemma OneMoreCall(run: Runner, c: Context, guest: Guest, svc: nat, gas: nat, s: State, items: seq<Bytes>, calls: seq<Action>, a: Action, hist: seq<Obs>)
    requires Answers(run, c, guest, svc) && gas > 0 && Answerable(a) && guest(hist) == a
    ensures run(gas, After(s, svc, calls), Unfetched(items, calls), hist) ==
            run(gas - 1, After(s, svc, calls + [a]), Unfetched(items, calls + [a]),
                hist + [Answer(Drain(c.storage, s.journal.writes), svc, items, s.mode.Inactive?, calls, a)])
  {
    CallAnswered(c, svc, s, items, calls, a);
    assert GoesOnAnswered(run, c, guest, svc, gas, After(s, svc, calls), Unfetched(items, calls), hist);
  }

  lemma NoCalls(s: State, svc: nat, items: seq<Bytes>)
    ensures After(s, svc, []) == s && Unfetched(items, []) == items
  {
    ConcatEmpty(s.journal);
  }

  lemma {:induction false} RunnerAnswers(run: Runner, c: Context, guest: Guest, svc: nat, gas: nat, s: State, items: seq<Bytes>, hist: seq<Obs>, calls: seq<Action>, told: seq<Obs>)
    requires Answers(run, c, guest, svc) && |calls| <= gas
    requires Exchange(Drain(c.storage, s.journal.writes), svc, items, s.mode.Inactive?, guest, hist, calls, told)
    ensures run(gas, s, items, hist) == run(gas - |calls|, After(s, svc, calls), Unfetched(items, calls), hist + told)
    decreases |calls|
  {
    if calls == [] {
      NoCalls(s, svc, items);
      assert hist + told == hist;
    } else {
      var n := |calls| - 1;
      var init, a, before := calls[..n], calls[n], told[..n];
      RunnerAnswers(run, c, guest, svc, gas, s, items, hist, init, before);
      OneMoreCall(run, c, guest, svc, gas - n, s, items, init, a, hist + before);
      assert init + [a] == calls && (hist + before) + [told[n]] == hist + told;
    }
  }

  function RunOf(c: Context, guest: Guest, svc: nat, depth: nat, saved: Option<seq<Obs>>): Runner
    requires depth < MaxInvokeDepth
  {
    (gas: nat, s: State, items: seq<Bytes>, hist: seq<Obs>) => Run(c, guest, svc, depth, gas, s, items, hist, saved)
  }

  lemma RunOfAnswers(c: Context, guest: Guest, svc: nat, depth: nat, saved: Option<seq<Obs>>)
    requires depth < MaxInvokeDepth
    ensures Answers(RunOf(c, guest, svc, depth, saved), c, guest, svc)
  {
    forall gas: nat, s, items, hist ensures GoesOnAnswered(RunOf(c, guest, svc, depth, saved), c, guest, svc, gas, s, items, hist) {}
  }

  /**
   The run of a guest that makes these calls goes on with exactly these answers: the mail
   item by item, its own stores or the rows before them; and with what it queued in the
   journal, in order.
   */
  lemma RunAnswers(c: Context, guest: Guest, svc: nat, depth: nat, gas: nat, s: State, items: seq<Bytes>, hist: seq<Obs>, saved: Option<seq<Obs>>, calls: seq<Action>, told: seq<Obs>)
    requires depth < MaxInvokeDepth && |calls| <= gas
    requires Exchange(Drain(c.storage, s.journal.writes), svc, items, s.mode.Inactive?, guest, hist, calls, told)
    ensures Run(c, guest, svc, depth, gas, s, items, hist, saved) ==
            Run(c, guest, svc, depth, gas - |calls|, After(s, svc, calls), Unfetched(items, calls), hist + told, saved)
  {
    RunOfAnswers(c, guest, svc, depth, saved);
    RunnerAnswers(RunOf(c, guest, svc, depth, saved), c, guest, svc, gas, s, items, hist, calls, told);
  }

  /** How such a run ends. */
  lemma RunEnds(c: Context, guest: Guest, svc: nat, depth: nat, gas: nat, s: State, items: seq<Bytes>, hist: seq<Obs>, saved: Option<seq<Obs>>, calls: seq<Action>, told: seq<Obs>)
    requires depth < MaxInvokeDepth && |calls| <= gas
    requires Exchange(Drain(c.storage, s.journal.writes), svc, items, s.mode.Inactive?, guest, hist, calls, told)
    ensures var a, r := guest(hist + told), Run(c, guest, svc, depth, gas, s, items, hist, saved);
            && (gas == |calls| ==> r == (OutOfGas, After(s, svc, calls), Unfetched(items, calls)))
            && (gas > |calls| && a.Trap? ==> r == (Panicked, After(s, svc, calls), Unfetched(items, calls)))
            && (gas > |calls| && a.Suspend? && depth == 0 && saved.Some? ==> r == (Panicked, After(s, svc, calls), Unfetched(items, calls)))
            && (gas > |calls| && a.Halt? ==>
                  r == (Halted(if |a.output| > 0x10_0000 then a.output[..0x10_0000] else a.output, saved), After(s, svc, calls), Unfetched(items, calls)))
  {
    RunAnswers(c, guest, svc, depth, gas, s, items, hist, saved, calls, told);
  }

  /** A top-level guest is suspended once: it goes on told that it has not been resumed, and its history is saved. */
  lemma RunSuspends(c: Context, guest: Guest, svc: nat, depth: nat, gas: nat, s: State, items: seq<Bytes>, hist: seq<Obs>, calls: seq<Action>, told: seq<Obs>)
    requires depth < MaxInvokeDepth && |calls| < gas
    requires Exchange(Drain(c.storage, s.journal.writes), svc, items, s.mode.Inactive?, guest, hist, calls, told)
    requires guest(hist + told) == Suspend
    ensures Run(c, guest, svc, depth, gas, s, items, hist, None) ==
            Run(c, guest, svc, depth, gas - |calls| - 1, After(s, svc, calls), Unfetched(items, calls),
                hist + told + [if depth == 0 then Woken(false) else Acknowledged], if depth == 0 then Some(hist + told) else None)
  {
    RunAnswers(c, guest, svc, depth, gas, s, items, hist, None, calls, told);
  }

  /** An invoke runs one level deeper on the state so far, and its answer is the next thing the guest is told. */
  lemma RunInvokes(c: Context, guest: Guest, svc: nat, depth: nat, gas: nat, s: State, items: seq<Bytes>, hist: seq<Obs>, saved: Option<seq<Obs>>, calls: seq<Action>, told: seq<Obs>)
    requires depth < MaxInvokeDepth && |calls| < gas && guest(hist + told).Invoke?
    requires Exchange(Drain(c.storage, s.journal.writes), svc, items, s.mode.Inactive?, guest, hist, calls, told)
    ensures var (out, s') := RunInvoke(c, svc, depth + 1, guest(hist + told), After(s, svc, calls));
            Run(c, guest, svc, depth, gas, s, items, hist, saved) ==
            Run(c, guest, svc, depth, gas - |calls| - 1, s', Unfetched(items, calls), hist + told + [Reply(out)], saved)
  {
    RunAnswers(c, guest, svc, depth, gas, s, items, hist, saved, calls, told);
  }

  /** A guest that stores a row and reads it back is told what it stored. */
  lemma ReadAfterStore(c: Context, guest: Guest, svc: nat, depth: nat, gas: nat, s: State, items: seq<Bytes>, hist: seq<Obs>, saved: Option<seq<Obs>>, key: Bytes, v: Bytes)
    requires depth < MaxInvokeDepth && gas >= 2
    requires guest(hist) == Store(key, v) && guest(hist + [Acknowledged]) == Read(key)
    ensures Run(c, guest, svc, depth, gas, s, items, hist, saved) ==
            Run(c, guest, svc, depth, gas - 2, s.(journal := s.journal.(writes := s.journal.writes + [Entry(svc, key, Some(v))])), items,
                hist + [Acknowledged, Row(Some(v))], saved)
  {
    var calls, told := [Store(key, v), Read(key)], [Acknowledged, Row(Some(v))];
    StoreThenRead(Drain(c.storage, s.journal.writes), svc, items, s.mode.Inactive?, guest, hist, key, v);
    RunAnswers(c, guest, svc, depth, gas, s, items, hist, saved, calls, told);
    TwoQueued(s, svc, items, key, v);
  }

  lemma StoreThenRead(st: Storage, svc: nat, items: seq<Bytes>, recordable: bool, guest: Guest, hist: seq<Obs>, key: Bytes, v: Bytes)
    requires guest(hist) == Store(key, v) && guest(hist + [Acknowledged]) == Read(key)
    ensures Exchange(st, svc, items, recordable, guest, hist, [Store(key, v), Read(key)], [Acknowledged, Row(Some(v))])
  {
    var calls, told := [Store(key, v), Read(key)], [Acknowledged, Row(Some(v))];
    var one: seq<Action>, ack: seq<Obs> := [Store(key, v)], [Acknowledged];
    assert calls[..1] == one && told[..1] == ack && one[..0] == [] && ack[..0] == [] && hist + [] == hist;
    assert hist + ack[..0] == hist && hist + told[..1] == hist + [Acknowledged];
    assert Exchange(st, svc, items, recordable, guest, hist, one[..0], ack[..0]);
    assert Exchange(st, svc, items, recordable, guest, hist, one, ack);
    assert LastStored(one, key) == Some(v);
  }

  lemma TwoQueued(s: State, svc: nat, items: seq<Bytes>, key: Bytes, v: Bytes)
    ensures var calls := [Store(key, v), Read(key)];
            && Unfetched(items, calls) == items
            && After(s, svc, calls) == s.(journal := s.journal.(writes := s.journal.writes + [Entry(svc, key, Some(v))]))
  {
    var one := [Store(key, v)];
    LastApart([], Store(key, v));
    LastApart(one, Read(key));
    assert [] + one == one && one + [Read(key)] == [Store(key, v), Read(key)];
    QueuedMore([], svc, Store(key, v), s);
    QueuedMore(one, svc, Read(key), s);
    ConcatEmpty(s.journal);
    FetchedMore(items, [], Store(key, v));
    FetchedMore(items, one, Read(key));
  }
}
