/**
 Recorded dispatches: ticks until the mail is used up, under one log, and the same dispatch
 replayed from that log as it was stored.
 */
module Dispatches {
  import opened Options
  import opened Ids
  import opened Codecs
  import opened Logs
  import opened LogCodecs
  import opened Journals
  import opened Refine
  import opened Ticks
  import opened Replays

  // ---- One tick, committed ----

  lemma {:induction false} BeginReplays(t: Dispatch, full: EffectLog, n: nat)
    requires t.s.mode.Recording?
    ensures Begin(ReplayedTick(t, full, n).s.mode, n, ReplayedTick(t, full, n)) == ReplayedTick(Begin(t.s.mode, t.s.calls, t), full, n)
  {
  }

  ghost predicate TickChecked(step: Stepper, ok: Check, c: Context, t: Dispatch, items: seq<Bytes>) {
    ChainChecked(step, ok, c, MaxRefineIterations, Begin(t.s.mode, t.s.calls, t), items, t.stored)
  }

  function TickOf(step: Stepper, c: Context, svc: nat, t: Dispatch, items: seq<Bytes>): Result {
    Tick(step, c, svc, t.s.mode, t.s.calls, t, items)
  }

  /** A whole tick replays with the same rows, mail and bookkeeping. */
  lemma TickReplay(step: Stepper, ok: Check, c: Context, d: Context, svc: nat, t: Dispatch, items: seq<Bytes>, full: EffectLog, n: nat)
    requires Repeats(step, ok, c, d, n) && SameHost(c, d) && Filed(t.s) && TickChecked(step, ok, c, t, items)
    requires !TickOf(step, c, svc, t, items).dispatch.s.rejected
    ensures var r := TickOf(step, c, svc, t, items);
            && GoesOn(t.s, r.dispatch.s)
            && (Continues(r.dispatch.s.mode.log, full) ==>
                  TickOf(step, d, svc, ReplayedTick(t, full, n), items) == r.(dispatch := ReplayedTick(r.dispatch, full, n)))
  {
    var u := Begin(t.s.mode, t.s.calls, t);
    ChainReplay(step, ok, c, d, MaxRefineIterations, u, items, t.stored, full, n);
    BeginReplays(t, full, n);
  }

  // ---- A dispatch: ticks until nothing is left to deliver ----

  /** The mail among some transfers that is for `svc`. */
  function Incoming(svc: nat, transfers: seq<(nat, Bytes)>): seq<Bytes> {
    if transfers == [] then []
    else Incoming(svc, transfers[..|transfers| - 1]) + if transfers[|transfers| - 1].0 == svc then [transfers[|transfers| - 1].1] else []
  }

  /** At most `k` ticks, as long as there is mail; the rows, the bookkeeping and the mail still there. */
  function Drive(step: Stepper, c: Context, svc: nat, k: nat, t: Dispatch, items: seq<Bytes>): (Storage, Dispatch, seq<Bytes>)
    decreases k
  {
    if items == [] || k == 0 then (c.storage, t, items)
    else
      var r := TickOf(step, c, svc, t, items);
      Drive(step, c.(storage := r.storage), svc, k - 1, r.dispatch, Incoming(svc, r.transfers))
  }

  /** Once the mail is used up, the number of ticks allowed does not matter. */
  lemma {:induction false} DriveEnds(step: Stepper, c: Context, svc: nat, k: nat, more: nat, t: Dispatch, items: seq<Bytes>)
    requires Drive(step, c, svc, k, t, items).2 == [] && k <= more
    ensures Drive(step, c, svc, more, t, items) == Drive(step, c, svc, k, t, items)
    decreases k
  {
    if items != [] {
      var r := TickOf(step, c, svc, t, items);
      DriveEnds(step, c.(storage := r.storage), svc, k - 1, more - 1, r.dispatch, Incoming(svc, r.transfers));
    }
  }

  ghost predicate DriveChecked(step: Stepper, ok: Check, c: Context, svc: nat, k: nat, t: Dispatch, items: seq<Bytes>)
    decreases k
  {
    items != [] && k > 0 ==>
      && TickChecked(step, ok, c, t, items)
      && var r := TickOf(step, c, svc, t, items);
         DriveChecked(step, ok, c.(storage := r.storage), svc, k - 1, r.dispatch, Incoming(svc, r.transfers))
  }

  /** A step that repeats itself on whatever rows. */
  ghost predicate RepeatsAlways(step: Stepper, ok: Check, n: nat) {
    forall c, d :: SameHost(c, d) ==> Repeats(step, ok, c, d, n)
  }

  lemma SliceRepeatsAlways(guest: Guest, svc: nat, gas: nat, n: nat)
    ensures RepeatsAlways(SliceStep(guest, svc, gas), SliceCheck(guest, svc, gas), n)
  {
    forall c, d | SameHost(c, d) ensures Repeats(SliceStep(guest, svc, gas), SliceCheck(guest, svc, gas), c, d, n) {
      SliceRepeats(c, d, guest, svc, gas, n);
    }
  }

  /** A tick that ends rejected hands out no mail. */
  lemma RejectedIsLast(step: Stepper, c: Context, svc: nat, t: Dispatch, items: seq<Bytes>)
    requires Shifts(step) && Discards(step) && TickOf(step, c, svc, t, items).dispatch.s.rejected
    ensures var r := TickOf(step, c, svc, t, items); r.storage == c.storage && Incoming(svc, r.transfers) == []
  {
    TickSettles(step, c, svc, t.s.mode, t.s.calls, t, items);
  }

  lemma {:induction false} DriveReplay(step: Stepper, ok: Check, c: Context, d: Context, svc: nat, k: nat, t: Dispatch, items: seq<Bytes>, full: EffectLog, n: nat)
    requires RepeatsAlways(step, ok, n) && Shifts(step) && Discards(step) && SameHost(c, d) && Filed(t.s)
    requires DriveChecked(step, ok, c, svc, k, t, items) && !Drive(step, c, svc, k, t, items).1.s.rejected
    ensures var (st, t', left) := Drive(step, c, svc, k, t, items);
            && GoesOn(t.s, t'.s)
            && (Continues(t'.s.mode.log, full) ==>
                  Drive(step, d, svc, k, ReplayedTick(t, full, n), items) == (st, ReplayedTick(t', full, n), left))
    decreases k
  {
    if items != [] && k > 0 {
      var r := TickOf(step, c, svc, t, items);
      if r.dispatch.s.rejected { RejectedIsLast(step, c, svc, t, items); }
      TickReplay(step, ok, c, d, svc, t, items, full, n);
      var c1, d1, mail := c.(storage := r.storage), d.(storage := r.storage), Incoming(svc, r.transfers);
      DriveReplay(step, ok, c1, d1, svc, k - 1, r.dispatch, mail, full, n);
      var t' := Drive(step, c1, svc, k - 1, r.dispatch, mail).1;
      GoesOnTrans(t.s, r.dispatch.s, t'.s);
      if Continues(t'.s.mode.log, full) { ContinuesTrans(r.dispatch.s.mode.log, t'.s.mode.log, full); }
    }
  }

  // ---- From the message to the stored log and back ----

  function ForMsg(msg: Bytes): EffectLog { EffectLog(msg, [], 255, Zero32, [1, 0, 0, 0, 0], [], ZeroId) }

  /** The log as committed: the host stamps anchor, caller and identity, and leaves what was recorded. */
  ghost predicate Stamps(log: EffectLog, stamped: EffectLog) {
    stamped.msg == log.msg && stamped.replies == log.replies && stamped.invokeEffects == log.invokeEffects
  }

  /** Everything recorded was consumed, and nothing else was asked for. */
  ghost predicate IsComplete(s: State) {
    s.mode.Replaying? && !s.mode.exhausted && !s.rejected && s.mode.pos == |s.mode.log.replies|
  }

  /** A dispatch begins: what the last one left behind is taken, except its continuation. */
  function Opened(before: Dispatch, mode: Mode, calls: nat): Dispatch {
    Dispatch(State(EmptyJournal, mode, false, calls), before.stored, None, false, None, false, [])
  }

  function Recorded(step: Stepper, c: Context, svc: nat, k: nat, msg: Bytes, cap: nat, calls: nat, before: Dispatch, items: seq<Bytes>): (Storage, Dispatch, seq<Bytes>) {
    Drive(step, c, svc, k, Opened(before, Recording(ForMsg(msg), cap), calls), items)
  }

  function ReplayedFrom(step: Stepper, d: Context, svc: nat, k: nat, log: EffectLog, n: nat, before: Dispatch, items: seq<Bytes>): (Storage, Dispatch, seq<Bytes>) {
    Drive(step, d, svc, k, Opened(before, Replaying(log, 0, false), n), items)
  }

  /** Every service child that any slice of the dispatch invokes is accounted for. */
  ghost predicate DispatchAccounted(c: Context, guest: Guest, svc: nat, gas: nat, k: nat, msg: Bytes, cap: nat, calls: nat, before: Dispatch, items: seq<Bytes>) {
    DriveChecked(SliceStep(guest, svc, gas), SliceCheck(guest, svc, gas), c, svc, k, Opened(before, Recording(ForMsg(msg), cap), calls), items)
  }

  /** Unless it is rejected, a dispatch goes on recording under its message. */
  lemma StillRecording(c: Context, guest: Guest, svc: nat, gas: nat, k: nat, msg: Bytes, cap: nat, calls: nat, before: Dispatch, items: seq<Bytes>)
    requires DispatchAccounted(c, guest, svc, gas, k, msg, cap, calls, before, items)
    requires !Recorded(SliceStep(guest, svc, gas), c, svc, k, msg, cap, calls, before, items).1.s.rejected
    ensures var t := Recorded(SliceStep(guest, svc, gas), c, svc, k, msg, cap, calls, before, items).1;
            t.s.mode.Recording? && t.s.mode.log.msg == msg
  {
    SliceRepeatsAlways(guest, svc, gas, 0);
    SliceSteps(guest, svc, gas);
    DriveReplay(SliceStep(guest, svc, gas), SliceCheck(guest, svc, gas), c, c, svc, k, Opened(before, Recording(ForMsg(msg), cap), calls), items, ForMsg(msg), 0);
  }

  /**
   Record/replay equivalence.  Take any deterministic guest, record a dispatch of it, however
   many ticks it takes, in which every service child is accounted for; store the log and read
   it back; and replay the dispatch on any host with the same rows, whatever Tasks, services
   and targets it holds.  The log survives, the replay ends with the same rows, reply, anchor
   and continuation, having delivered the same mail, and it ends complete.
   */
  lemma RecordReplay(c: Context, d: Context, guest: Guest, svc: nat, gas: nat, k: nat, msg: Bytes, cap: nat, calls: nat, before: Dispatch, items: seq<Bytes>, stamped: EffectLog, n: nat)
    requires DispatchAccounted(c, guest, svc, gas, k, msg, cap, calls, before, items) && SameHost(c, d)
    requires var (st, live, left) := Recorded(SliceStep(guest, svc, gas), c, svc, k, msg, cap, calls, before, items);
             !live.s.rejected && (live.s.mode.Recording? ==> Stamps(live.s.mode.log, stamped) && Fits(stamped))
    ensures FromBytes(ToBytes(stamped)) == Some(stamped)
    ensures var (st, live, left) := Recorded(SliceStep(guest, svc, gas), c, svc, k, msg, cap, calls, before, items);
            var (st', again, left') := ReplayedFrom(SliceStep(guest, svc, gas), d, svc, k, FromBytes(ToBytes(stamped)).value, n, before, items);
            && st' == st && left' == left && again == live.(s := again.s) && again.s.journal == live.s.journal && IsComplete(again.s)
  {
    var step, ok, t := SliceStep(guest, svc, gas), SliceCheck(guest, svc, gas), Opened(before, Recording(ForMsg(msg), cap), calls);
    SliceRepeatsAlways(guest, svc, gas, n);
    SliceSteps(guest, svc, gas);
    DriveReplay(step, ok, c, d, svc, k, t, items, stamped, n);
    LogRoundTrip(stamped);
    assert ReplayedTick(t, stamped, n) == Opened(before, Replaying(stamped, 0, false), n);
  }
}
