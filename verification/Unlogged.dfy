/**
 Dispatches whose logs the commit does not keep: what they can have changed, and two ways in
 which a rebuild goes astray without noticing.
 */
module Unlogged {
  import opened Options
  import opened Ids
  import opened RowKeys
  import opened Codecs
  import opened Payloads
  import opened WorkResults
  import opened Logs
  import opened LogCodecs
  import opened Journals
  import opened Refine
  import opened Rejections
  import opened Ticks
  import opened Replays
  import opened JournalObjects
  import opened Dispatches
  import opened Continuations
  import opened Commits
  import opened CommitRuns
  import opened CommitChain
  import opened StateRows
  import opened Rebuilds
  import opened Hosting

  // ---- A dispatch goes on recording ----

  lemma {:induction false} RunRecords(c: Context, guest: Guest, svc: nat, gas: nat, s: State, items: seq<Bytes>, hist: seq<Obs>, saved: Option<seq<Obs>>)
    requires s.mode.Recording? && !Refine.Run(c, guest, svc, 0, gas, s, items, hist, saved).1.rejected
    ensures Refine.Run(c, guest, svc, 0, gas, s, items, hist, saved).1.mode.Recording?
    decreases gas
  {
    if gas > 0 {
      var a := guest(hist);
      if a.Suspend? {
        if saved.None? { RunRecords(c, guest, svc, gas - 1, s, items, hist + [Woken(false)], Some(hist)); }
      } else if a.Invoke? {
        var (out, s') := RunInvoke(c, svc, 1, a, s);
        RunRejects(c, guest, svc, 0, gas - 1, s', items, hist + [Reply(out)], saved);
        InvokeFiles(c, svc, a, s);
        RunRecords(c, guest, svc, gas - 1, s', items, hist + [Reply(out)], saved);
      } else if !a.Halt? && !a.Trap? {
        var (obs, s', items') := HostCall(c, svc, a, s, items);
        RunRecords(c, guest, svc, gas - 1, s', items', hist + [obs], saved);
      }
    }
  }

  ghost predicate Records(step: Stepper) {
    forall c, d: Dispatch, items, resume ::
      var (end, d') := step(c, d, items, resume);
      && (end.PrivateRecord? <==> d'.s.rejected)
      && (d.s.mode.Recording? && !d'.s.rejected ==> d'.s.mode.Recording?)
  }

  lemma SliceRecords(guest: Guest, svc: nat, gas: nat)
    ensures Records(SliceStep(guest, svc, gas))
  {
    var step := SliceStep(guest, svc, gas);
    forall c, d: Dispatch, items, resume
      ensures var (end, d') := step(c, d, items, resume);
              && (end.PrivateRecord? <==> d'.s.rejected)
              && (d.s.mode.Recording? && !d'.s.rejected ==> d'.s.mode.Recording?)
    {
      StepRejected(c, guest, svc, gas, d, items, resume);
      if d.s.mode.Recording? { StepRecords(c, guest, svc, gas, d, items, resume); }
    }
  }

  lemma StepRecords(c: Context, guest: Guest, svc: nat, gas: nat, d: Dispatch, items: seq<Bytes>, resume: Option<seq<Obs>>)
    requires d.s.mode.Recording?
    ensures var d' := Ticks.Step(c, guest, svc, gas, d, items, resume).1; !d'.s.rejected ==> d'.s.mode.Recording?
  {
    var hist := if resume.Some? then resume.value + [Woken(true)] else [];
    if !Refine.Run(c, guest, svc, 0, gas, d.s, NonEmpty(items), hist, None).1.rejected {
      RunRecords(c, guest, svc, gas, d.s, NonEmpty(items), hist, None);
    }
  }

  lemma {:induction false} ChainRecords(step: Stepper, c: Context, k: nat, d: Dispatch, items: seq<Bytes>, resume: Option<seq<Obs>>)
    requires Records(step) && k > 0 && d.s.mode.Recording? && !Chain(step, c, k, d, items, resume).s.rejected
    ensures Chain(step, c, k, d, items, resume).s.mode.Recording?
    decreases k
  {
    var (end, d') := step(c, d, items, resume);
    if end.Idle? && Mail(d') != [] && k > 1 { ChainRecords(step, c, k - 1, TakeMail(d'), Mail(d'), None); }
  }

  /** Unless it is rejected, a dispatch ends with its log. */
  lemma {:induction false} DriveRecords(step: Stepper, c: Context, svc: nat, k: nat, t: Dispatch, items: seq<Bytes>)
    requires Records(step) && Shifts(step) && Discards(step) && t.s.mode.Recording? && !Drive(step, c, svc, k, t, items).1.s.rejected
    ensures Drive(step, c, svc, k, t, items).1.s.mode.Recording?
    decreases k
  {
    if items != [] && k > 0 {
      var r := TickOf(step, c, svc, t, items);
      if r.dispatch.s.rejected { RejectedIsLast(step, c, svc, t, items); }
      ChainRecords(step, c, MaxRefineIterations, Begin(t.s.mode, t.s.calls, t), items, t.stored);
      DriveRecords(step, c.(storage := r.storage), svc, k - 1, r.dispatch, Incoming(svc, r.transfers));
    }
  }

  lemma ServeRecords(u: Setup, hs: Hosted, q: Request)
    requires !Serve(u, hs, q).t.s.rejected
    ensures Serve(u, hs, q).t.s.mode.Recording?
  {
    var p := Named(u, hs, q);
    SliceRecords(u.guest, u.svc, u.gas);
    SliceSteps(u.guest, u.svc, u.gas);
    DriveRecords(StepOf(u), u.c.(storage := hs.rows), u.svc, u.k, Dispatches.Opened(hs.t, Recording(ForMsg(p.msg), p.cap), p.calls),
                 if |LiveItem(p)| <= BufSize then [LiveItem(p)] else []);
  }

  // ---- What a dispatch without a kept log can have changed ----

  /** The same rows, but for a state row that may be absent in one and empty in the other. */
  ghost predicate SameRows(a: Rows, b: Rows) {
    && a - {StateKey} == b - {StateKey}
    && (if StateKey in a then a[StateKey] else []) == (if StateKey in b then b[StateKey] else [])
  }

  /** A commit that keeps no log of a dispatch leaves the database alone. */
  lemma UnkeptCommit(u: Setup, s: Site, p: Request, t: Dispatch, writes: seq<Commits.Write>)
    requires Inv(u.h, u.origin, s) && p.id == u.h.derive(u.origin, s.agent.nextSeq) && t.s.mode.Recording? && !t.s.rejected
    ensures var s' := SiteAfter(u, s, p, t, writes);
            |s'.local| == |s.local| ==>
              && WriteAtomic(u.h, u.origin, s.db, s.agent, DeltaOf(p, t, writes)).0 == Committed(false)
              && s'.db == s.db && !t.effectBearing && ApplyDelta(SlateOf(s.db), writes) == SlateOf(s.db)
  {
    ApplyDeltaSplits(SlateOf(s.db), writes);
    assert ApplyWrites(s.db.kv, []) == s.db.kv;
  }

  lemma MirrorsSame(slate: Slate, a: Rows, b: Rows)
    requires Mirrors(slate, a) && Mirrors(slate, b)
    ensures SameRows(a, b)
  {
  }

  /** If the store mirrors the service, a dispatch whose log is not kept bore no effects and left its own rows as they were. */
  lemma UnkeptOwnRows(u: Setup, hs: Hosted, q: Request)
    requires Inv(u.h, u.origin, hs.site) && Mirrors(SlateOf(hs.site.db), RowsOf(hs.rows, u.svc))
    requires !Serve(u, hs, q).t.s.rejected && !LogKept(u, hs, q)
    ensures !Serve(u, hs, q).t.effectBearing && Serve(u, hs, q).site.db == hs.site.db
    ensures SameRows(RowsOf(hs.rows, u.svc), RowsOf(Serve(u, hs, q).rows, u.svc))
    ensures Mirrors(SlateOf(Serve(u, hs, q).site.db), RowsOf(Serve(u, hs, q).rows, u.svc))
  {
    var p, e := Named(u, hs, q), u.c.(storage := hs.rows);
    var t0, items := Dispatches.Opened(hs.t, Recording(ForMsg(p.msg), p.cap), p.calls), if |LiveItem(p)| <= BufSize then [LiveItem(p)] else [];
    ServeRecords(u, hs, q);
    SliceTicksMirror(u.guest, u.svc, u.gas);
    DriveMirrors(StepOf(u), e, u.svc, u.k, t0, items, SlateOf(hs.site.db));
    UnkeptCommit(u, hs.site, p, Serve(u, hs, q).t, LiveWrites(StepOf(u), e, u.svc, u.k, p, hs.t));
    MirrorsSame(SlateOf(hs.site.db), RowsOf(hs.rows, u.svc), RowsOf(Serve(u, hs, q).rows, u.svc));
  }

  /** And it left the continuation as it was exactly if its slices spare it. */
  lemma ServedContinuation(u: Setup, hs: Hosted, q: Request)
    requires u.k > 0 && |LiveItem(Named(u, hs, q))| <= BufSize
    ensures var p := Named(u, hs, q);
            var ends := DispatchEnds(StepOf(u), u.c.(storage := hs.rows), u.svc, u.k,
                                     Dispatches.Opened(hs.t, Recording(ForMsg(p.msg), p.cap), p.calls), [LiveItem(p)]);
            ends != [] && (Serve(u, hs, q).t.stored == hs.t.stored <==> Spares(hs.t.stored, ends))
  {
    var p := Named(u, hs, q);
    ContinuationKept(u.c.(storage := hs.rows), u.guest, u.svc, u.gas, u.k,
                     Dispatches.Opened(hs.t, Recording(ForMsg(p.msg), p.cap), p.calls), [LiveItem(p)]);
  }

  // ---- Dispatches that touch nothing but the continuation ----

  /** A guest that waits at once, without a work-result. */
  ghost predicate WaitsAtOnce(guest: Guest) { guest([]) == Suspend && guest([Woken(false)]) == Halt([StatusYielded]) }

  /** A dispatch as it begins. */
  ghost predicate Begun(t: Dispatch) {
    t.s.journal == EmptyJournal && !t.s.rejected && t.reply.None? && t.requeued == []
  }

  /** A bare wake-up. */
  function WakeUp(cap: nat, calls: nat): Request { Request(false, NoCaller, [], [], cap, calls) }

  lemma NoMail()
    ensures NonEmpty([[]]) == []
  {
    var wake: seq<Bytes> := [[]];
    assert wake[..0] == [];
  }

  /** A dispatch of one slice that leaves no mail. */
  lemma OneSlice(step: Stepper, c: Context, svc: nat, k: nat, t: Dispatch, end: End, t': Dispatch)
    requires k > 0 && Begun(t) && step(c, t, [[]], t.stored) == (end, t')
    requires t'.s.journal.selfMessages == [] && t'.s.journal.transfers == [] && t'.requeued == []
    ensures var writes := t'.s.journal.writes;
            && Drive(step, c, svc, k, t, [[]]) == (Drain(c.storage, writes), t'.(s := t'.s.(journal := EmptyJournal)), [])
            && DriveWrites(step, c, svc, k, t, [[]]) == OwnWrites(writes, svc)
  {
    assert Begin(t.s.mode, t.s.calls, t) == t;
    assert Chain(step, c, MaxRefineIterations, t, [[]], t.stored) == t';
    var r := TickOf(step, c, svc, t, [[]]);
    assert r.transfers == [] && Incoming(svc, r.transfers) == [];
    assert OwnWrites(t'.s.journal.writes, svc) + [] == OwnWrites(t'.s.journal.writes, svc);
  }

  lemma WaitingDispatch(c: Context, guest: Guest, svc: nat, gas: nat, k: nat, t: Dispatch)
    requires WaitsAtOnce(guest) && gas > 1 && k > 0 && Begun(t) && t.stored.None?
    ensures var step := SliceStep(guest, svc, gas);
            && Drive(step, c, svc, k, t, [[]]) == (c.storage, t.(stored := Some([])), [])
            && DriveWrites(step, c, svc, k, t, [[]]) == []
  {
    var out := [StatusYielded];
    NoMail();
    assert [] + [Woken(false)] == [Woken(false)];
    assert Refine.Run(c, guest, svc, 0, gas, t.s, [], [], None) == (Halted(out, Some([])), t.s, []);
    assert Decode(out).None?;
    OneSlice(SliceStep(guest, svc, gas), c, svc, k, t, Yield(None, []), t.(stored := Some([])));
  }

  /** A suspended guest that is resumed and is done: nothing happens, but it no longer waits. */
  lemma FinishingDispatch(c: Context, guest: Guest, svc: nat, gas: nat, k: nat, t: Dispatch, h: seq<Obs>)
    requires guest(h + [Woken(true)]) == Halt([StatusDone]) && gas > 0 && k > 0 && Begun(t) && t.stored == Some(h)
    ensures var step := SliceStep(guest, svc, gas);
            && Drive(step, c, svc, k, t, [[]]) == (c.storage, t.(stored := None), [])
            && DriveWrites(step, c, svc, k, t, [[]]) == []
  {
    var out := [StatusDone];
    NoMail();
    assert Refine.Run(c, guest, svc, 0, gas, t.s, [], h + [Woken(true)], None) == (Halted(out, None), t.s, []);
    assert Decode(out).None?;
    OneSlice(SliceStep(guest, svc, gas), c, svc, k, t, Idle(None), t.(stored := None));
  }

  /** A guest that, resumed, stores a row and is done. */
  ghost predicate StoresWhenWoken(guest: Guest, key: Bytes, v: Bytes) {
    && WaitsAtOnce(guest) && guest([Woken(true)]) == Store(key, v) && guest([Woken(true), Acknowledged]) == Halt([StatusDone])
  }

  lemma WokenRun(c: Context, guest: Guest, svc: nat, gas: nat, s: State, key: Bytes, v: Bytes)
    requires StoresWhenWoken(guest, key, v) && gas > 1 && s.journal == EmptyJournal
    ensures var s' := s.(journal := EmptyJournal.(writes := [Entry(svc, key, Some(v))]));
            Refine.Run(c, guest, svc, 0, gas, s, [], [Woken(true)], None) == (Halted([StatusDone], None), s', [])
  {
    var s' := s.(journal := EmptyJournal.(writes := [Entry(svc, key, Some(v))]));
    assert [Woken(true)] + [Acknowledged] == [Woken(true), Acknowledged];
    assert Absorb(EmptyJournal, Write(key, v), svc) == s'.journal;
    assert HostCall(c, svc, Store(key, v), s, []) == (Acknowledged, s', []);
    assert Refine.Run(c, guest, svc, 0, gas - 1, s', [], [Woken(true), Acknowledged], None) == (Halted([StatusDone], None), s', []);
  }

  lemma WokenDispatch(c: Context, guest: Guest, svc: nat, gas: nat, k: nat, t: Dispatch, key: Bytes, v: Bytes)
    requires StoresWhenWoken(guest, key, v) && gas > 1 && k > 0 && Begun(t) && t.stored == Some([])
    ensures var step := SliceStep(guest, svc, gas);
            && Drive(step, c, svc, k, t, [[]]) == (Drain(c.storage, [Entry(svc, key, Some(v))]), t.(stored := None), [])
            && DriveWrites(step, c, svc, k, t, [[]]) == [(key, Some(v))]
  {
    var out, j := [StatusDone], EmptyJournal.(writes := [Entry(svc, key, Some(v))]);
    NoMail();
    WokenRun(c, guest, svc, gas, t.s, key, v);
    assert [] + [Woken(true)] == [Woken(true)];
    assert Decode(out).None?;
    OneSlice(SliceStep(guest, svc, gas), c, svc, k, t, Idle(None), t.(stored := None, s := t.s.(journal := j)));
    assert j.writes[..0] == [] && OwnWrites([], svc) == [];
  }

  // ---- The commit's answer ----

  lemma QuietCommit(u: Setup, s: Site, p: Request, t: Dispatch)
    requires t.s.mode.Recording? && !t.s.rejected && !t.effectBearing
    ensures WriteAtomic(u.h, u.origin, s.db, s.agent, DeltaOf(p, t, [])) == (Committed(false), s.db, s.agent)
    ensures SiteAfter(u, s, p, t, []) == s
  {
    assert OtherWrites([]) == [] && LastState([]).None?;
  }

  lemma OneRow(key: Bytes, v: Bytes)
    requires key != StateKey
    ensures LastState([(key, Some(v))]).None? && OtherWrites([(key, Some(v))]) == [(key, Some(v))]
  {
    var ws: seq<Commits.Write> := [(key, Some(v))];
    assert ws[..0] == [] && OtherWrites([]) == [] && LastState([]).None?;
    assert [] + [ws[0]] == ws;
  }

  lemma RowCommit(u: Setup, s: Site, p: Request, t: Dispatch, key: Bytes, v: Bytes)
    requires t.s.mode.Recording? && !t.s.rejected && key != StateKey && p.id == u.h.derive(u.origin, SeqOf(s.db, s.agent.nextSeq))
    ensures WriteAtomic(u.h, u.origin, s.db, s.agent, DeltaOf(p, t, [(key, Some(v))])).0 == Committed(true)
    ensures |SiteAfter(u, s, p, t, [(key, Some(v))]).local| == |s.local| + 1
  {
    OneRow(key, v);
  }

  lemma WakeUpItem(u: Setup, hs: Hosted, cap: nat, calls: nat)
    ensures LiveItem(Named(u, hs, WakeUp(cap, calls))) == []
  {
  }

  /** Told to wake up, a guest that waits at once is left waiting, and nothing is stored of it. */
  lemma SuspensionNotStored(u: Setup, hs: Hosted, cap: nat, calls: nat)
    requires WaitsAtOnce(u.guest) && u.gas > 1 && u.k > 0 && hs.t.stored.None?
    ensures var q := WakeUp(cap, calls);
            var t := Dispatches.Opened(hs.t, Recording(ForMsg([]), cap), calls).(stored := Some([]));
            && Serve(u, hs, q) == Hosted(hs.site, hs.rows, t) && !LogKept(u, hs, q)
            && WriteAtomic(u.h, u.origin, hs.site.db, hs.site.agent, DeltaOf(Named(u, hs, q), t, [])).0 == Committed(false)
  {
    var q, t0 := WakeUp(cap, calls), Dispatches.Opened(hs.t, Recording(ForMsg([]), cap), calls);
    WakeUpItem(u, hs, cap, calls);
    WaitingDispatch(u.c.(storage := hs.rows), u.guest, u.svc, u.gas, u.k, t0);
    QuietCommit(u, hs.site, Named(u, hs, q), t0.(stored := Some([])));
  }

  /** And one that is resumed and is done no longer waits, and nothing is stored of that either. */
  lemma ConsumptionNotStored(u: Setup, hs: Hosted, h: seq<Obs>, cap: nat, calls: nat)
    requires u.guest(h + [Woken(true)]) == Halt([StatusDone]) && u.gas > 0 && u.k > 0 && hs.t.stored == Some(h)
    ensures var q := WakeUp(cap, calls);
            var t := Dispatches.Opened(hs.t, Recording(ForMsg([]), cap), calls).(stored := None);
            && Serve(u, hs, q) == Hosted(hs.site, hs.rows, t) && !LogKept(u, hs, q)
            && WriteAtomic(u.h, u.origin, hs.site.db, hs.site.agent, DeltaOf(Named(u, hs, q), t, [])).0 == Committed(false)
  {
    var q, t0 := WakeUp(cap, calls), Dispatches.Opened(hs.t, Recording(ForMsg([]), cap), calls);
    WakeUpItem(u, hs, cap, calls);
    FinishingDispatch(u.c.(storage := hs.rows), u.guest, u.svc, u.gas, u.k, t0, h);
    QuietCommit(u, hs.site, Named(u, hs, q), t0.(stored := None));
  }

  /** The next wake-up resumes the waiting guest: its row is written, and this log is stored. */
  lemma WokenStored(u: Setup, hs: Hosted, key: Bytes, v: Bytes, cap: nat, calls: nat)
    requires StoresWhenWoken(u.guest, key, v) && u.gas > 1 && u.k > 0 && hs.t.stored == Some([]) && key != StateKey
    requires SeqOf(hs.site.db, hs.site.agent.nextSeq) == hs.site.agent.nextSeq
    ensures var q := WakeUp(cap, calls);
            var t := Dispatches.Opened(hs.t, Recording(ForMsg([]), cap), calls).(stored := None);
            && Serve(u, hs, q).rows == Drain(hs.rows, [Entry(u.svc, key, Some(v))]) && Serve(u, hs, q).t == t
            && LogKept(u, hs, q) && KeptLog(u, hs, q) == [Stamped(Named(u, hs, q), t)]
  {
    var q, t0 := WakeUp(cap, calls), Dispatches.Opened(hs.t, Recording(ForMsg([]), cap), calls);
    WakeUpItem(u, hs, cap, calls);
    WokenDispatch(u.c.(storage := hs.rows), u.guest, u.svc, u.gas, u.k, t0, key, v);
    RowCommit(u, hs.site, Named(u, hs, q), t0.(stored := None), key, v);
  }

  // ---- A rebuild that loses a row and reports nothing ----

  lemma WakeUpLog(p: Request, t: Dispatch, cap: nat)
    requires t.s.mode == Recording(ForMsg([]), cap) && t.anchor.None? && !p.byInvoke && |p.id| == 32
    ensures FromBytes(ToBytes(Stamped(p, t))) == Some(Stamped(p, t))
    ensures var log := Stamped(p, t); ReplayItem(log) == [] && log.replies == [] && log.anchorKind == 255
  {
    Widths();
    LogRoundTrip(Stamped(p, t));
  }

  /** Replayed alone, the log of a resumed dispatch starts the guest afresh, which waits again; the replay is complete. */
  lemma ReplayWaits(u: Setup, d: Context, log: EffectLog, n: nat, before: Dispatch)
    requires WaitsAtOnce(u.guest) && u.gas > 1 && u.k > 0 && before.stored.None?
    requires FromBytes(ToBytes(log)) == Some(log) && ReplayItem(log) == [] && log.replies == [] && log.anchorKind == 255
    ensures var (st, t, well) := Rebuilds.Rebuild(StepOf(u), d, u.svc, u.k, [ToBytes(log)], n, before);
            st == d.storage && t.stored == Some([]) && well
  {
    var t0, logs := Dispatches.Opened(before, Replaying(log, 0, false), n), [ToBytes(log)];
    assert d.(storage := d.storage) == d;
    WaitingDispatch(d, u.guest, u.svc, u.gas, u.k, t0);
    assert logs[..|logs| - 1] == [];
    assert Again(StepOf(u), d, u.svc, u.k, log, n, before) == (d.storage, t0.(stored := Some([])), []);
  }

  lemma ServedAppend(u: Setup, qs: seq<Request>, q: Request, before: Dispatch)
    ensures Served(u, qs + [q], before) == Serve(u, Served(u, qs, before), q)
    ensures KeptLogs(u, qs + [q], before) == KeptLogs(u, qs, before) + KeptLog(u, Served(u, qs, before), q)
  {
    var ys := qs + [q];
    assert ys[..|ys| - 1] == qs;
  }

  /** What serving the same message twice comes to. */
  lemma TwoServed(u: Setup, q: Request, before: Dispatch, hs: Hosted, one: Hosted)
    requires hs == Hosted(Fresh, u.c.storage, before) && one == Serve(u, hs, q)
    ensures Served(u, [q], before) == one && Served(u, [q, q], before) == Serve(u, one, q)
    ensures KeptLogs(u, [q, q], before) == KeptLog(u, hs, q) + KeptLog(u, one, q)
  {
    ServedAppend(u, [], q, before);
    ServedAppend(u, [q], q, before);
    assert [] + [q] == [q] && [q] + [q] == [q, q] && [] + KeptLog(u, hs, q) == KeptLog(u, hs, q);
  }

  lemma LogsOfTwo(u: Setup, q: Request, before: Dispatch, hs: Hosted, one: Hosted, log: EffectLog)
    requires hs == Hosted(Fresh, u.c.storage, before) && one == Serve(u, hs, q)
    requires !LogKept(u, hs, q) && KeptLog(u, one, q) == [log]
    ensures KeptLogs(u, [q, q], before) == [log]
  {
    TwoServed(u, q, before, hs, one);
    assert KeptLog(u, hs, q) == [];
  }

  /** The store and the host after two wake-ups, and the one log kept of them. */
  lemma TwoWakeUps(u: Setup, key: Bytes, v: Bytes, cap: nat, calls: nat, before: Dispatch) returns (p: Request, t: Dispatch)
    requires before.stored.None? && StoresWhenWoken(u.guest, key, v) && u.gas > 1 && u.k > 0 && key != StateKey
    ensures var q := WakeUp(cap, calls);
            var one, two := Served(u, [q], before), Served(u, [q, q], before);
            && one.site == Fresh && one.rows == u.c.storage && one.t.stored == Some([])
            && |two.site.local| == 1 && two.rows == Drain(u.c.storage, [Entry(u.svc, key, Some(v))])
    ensures t.s.mode == Recording(ForMsg([]), cap) && t.anchor.None? && !p.byInvoke && p.id == u.h.derive(u.origin, 0)
    ensures KeptLogs(u, [WakeUp(cap, calls), WakeUp(cap, calls)], before) == [Stamped(p, t)]
  {
    var q, hs := WakeUp(cap, calls), Hosted(Fresh, u.c.storage, before);
    var one := Serve(u, hs, q);
    SuspensionNotStored(u, hs, cap, calls);
    WokenStored(u, one, key, v, cap, calls);
    p, t := Named(u, one, q), Serve(u, one, q).t;
    TwoServed(u, q, before, hs, one);
    LogsOfTwo(u, q, before, hs, one, Stamped(p, t));
  }

  lemma ReplayedOne(u: Setup, qs: seq<Request>, before: Dispatch, log: EffectLog)
    requires Lawful(u.h) && KeptLogs(u, qs, before) == [log]
    ensures ReplayedBytes(Served(u, qs, before).site.db) == [ToBytes(log)]
  {
    ServedReplays(u, qs, before);
    OneInBytes(log);
  }

  lemma OneInBytes(log: EffectLog)
    ensures BytesOf([log]) == [ToBytes(log)]
  {
  }

  /**
   A guest waits, and wakes up to store a row.  The first wake-up leaves no log; the second
   writes the row, and its log is the whole history.  A rebuild from the store replays that
   log, finds it complete and reports success, and the row is not there.
   */
  lemma RowLostSilently(u: Setup, d: Context, key: Bytes, v: Bytes, cap: nat, calls: nat, n: nat, before: Dispatch, before': Dispatch)
    requires Lawful(u.h) && SameHost(u.c, d) && before.stored.None? && before'.stored.None? && |u.h.derive(u.origin, 0)| == 32
    requires StoresWhenWoken(u.guest, key, v) && u.gas > 1 && u.k > 0 && key != StateKey && RowAt(u.c.storage, u.svc, key) != Some(v)
    ensures var q := WakeUp(cap, calls);
            var one, two := Served(u, [q], before), Served(u, [q, q], before);
            var (st, t, well) := Rebuilds.Rebuild(StepOf(u), d, u.svc, u.k, ReplayedBytes(two.site.db), n, before');
            && one.site == Fresh && one.rows == u.c.storage && one.t.stored == Some([])
            && |two.site.local| == 1 && RowAt(two.rows, u.svc, key) == Some(v)
            && st == u.c.storage && RowAt(st, u.svc, key) != Some(v) && well
            && !Recovers(u, d, [q, q], n, before, before')
  {
    var q := WakeUp(cap, calls);
    var p, t := TwoWakeUps(u, key, v, cap, calls, before);
    WakeUpLog(p, t, cap);
    ReplayedOne(u, [q, q], before, Stamped(p, t));
    ReplayWaits(u, d, Stamped(p, t), n, before');
    StoredRow(u.c.storage, u.svc, key, v);
  }

  lemma StoredRow(st: Storage, svc: nat, key: Bytes, v: Bytes)
    ensures RowAt(Drain(st, [Entry(svc, key, Some(v))]), svc, key) == Some(v)
  {
    var ws := [Entry(svc, key, Some(v))];
    assert ws[..|ws| - 1] == [];
    assert Drain(st, ws) == Put(Drain(st, []), ws[0]);
  }
}
