/**
 Rebuilding a service from its history: the messages it was sent, the logs its host stored
 for them, and the replay of those logs alone on another host.
 */
module Rebuilds {
  import opened Options
  import opened Ids
  import opened Codecs
  import opened Logs
  import opened LogCodecs
  import opened Journals
  import opened Refine
  import opened Ticks
  import opened Replays
  import opened Dispatches

  // ---- The item a guest is handed ----

  const DispatchTag: byte := 0xFD
  const BufSize: nat := 8192
  const NoCaller: Bytes := [0, 0, 0, 0, 0]

  /** A message to a service: an invoke with its caller's prefix, or a tell without one. */
  datatype Request = Request(byInvoke: bool, caller: Bytes, id: Bytes, msg: Bytes, cap: nat, calls: nat)

  function Wrap(caller: Bytes, id: Bytes, msg: Bytes): Bytes { [DispatchTag] + caller + id + msg }

  function CallerOf(q: Request): Bytes { if q.byInvoke then q.caller else NoCaller }

  /** An invoke is always wrapped; a told message is, but an empty one is a bare wake-up. */
  function LiveItem(q: Request): Bytes {
    if q.byInvoke || q.msg != [] then Wrap(CallerOf(q), q.id, q.msg) else []
  }

  /** What a log is replayed with: an empty message as a bare wake-up, any other under the recorded caller. */
  function ReplayItem(log: EffectLog): Bytes {
    if log.msg == [] then [] else Wrap(log.callerPrefix, log.invocationId, log.msg)
  }

  /** The host's stamps: the first anchor or none, the caller and the identity the item was wrapped with. */
  function Stamped(q: Request, t: Dispatch): EffectLog
    requires t.s.mode.Recording?
  {
    var anchor := if t.anchor.Some? then t.anchor.value else (255, Zero32);
    t.s.mode.log.(anchorKind := anchor.0, anchor := anchor.1, callerPrefix := CallerOf(q), invocationId := q.id)
  }

  /** The stored log gives the guest the item it had, exactly unless it was an invoke with an empty message. */
  lemma ItemExact(q: Request, t: Dispatch)
    requires t.s.mode.Recording? && t.s.mode.log.msg == q.msg
    ensures NonEmpty([ReplayItem(Stamped(q, t))]) == NonEmpty([LiveItem(q)]) <==> !(q.byInvoke && q.msg == [])
    ensures !(q.byInvoke && q.msg == []) ==> ReplayItem(Stamped(q, t)) == LiveItem(q)
  {
    var item, again := LiveItem(q), ReplayItem(Stamped(q, t));
    assert [item][..0] == [] && [again][..0] == [];
  }

  // ---- One dispatch ----

  /** A recorded dispatch; an item the guest could not fetch is not delivered. */
  function Live(step: Stepper, c: Context, svc: nat, k: nat, q: Request, before: Dispatch): (Storage, Dispatch, seq<Bytes>) {
    Recorded(step, c, svc, k, q.msg, q.cap, q.calls, before, if |LiveItem(q)| <= BufSize then [LiveItem(q)] else [])
  }

  /** The same from its log; nothing but the log says what it was. */
  function Again(step: Stepper, d: Context, svc: nat, k: nat, log: EffectLog, n: nat, before: Dispatch): (Storage, Dispatch, seq<Bytes>) {
    ReplayedFrom(step, d, svc, k, log, n, before, [ReplayItem(log)])
  }

  /** An oversized message changes nothing. */
  lemma Undelivered(step: Stepper, c: Context, svc: nat, k: nat, q: Request, before: Dispatch)
    requires |LiveItem(q)| > BufSize
    ensures var (st, t, left) := Live(step, c, svc, k, q, before);
            st == c.storage && t.stored == before.stored && left == [] && t.anchor.None? && !t.effectBearing
  {
  }

  /** A dispatch whose log was stored: delivered, quiet after at most `k` ticks, not rejected, and of storable size. */
  ghost predicate Logged(c: Context, guest: Guest, svc: nat, gas: nat, k: nat, q: Request, before: Dispatch) {
    var (st, t, left) := Live(SliceStep(guest, svc, gas), c, svc, k, q, before);
    && |LiveItem(q)| <= BufSize && !(q.byInvoke && q.msg == [])
    && DispatchAccounted(c, guest, svc, gas, k, q.msg, q.cap, q.calls, before, [LiveItem(q)])
    && left == [] && !t.s.rejected && (t.s.mode.Recording? ==> Fits(Stamped(q, t)))
  }

  /** The replayed anchor is the recorded one, if one was recorded. */
  predicate SameAnchor(log: EffectLog, t: Dispatch) { log.anchorKind != 255 ==> t.anchor == Some((log.anchorKind, log.anchor)) }

  lemma OneDispatch(c: Context, d: Context, guest: Guest, svc: nat, gas: nat, k: nat, q: Request, n: nat, before: Dispatch, before': Dispatch)
    requires SameHost(c, d) && Logged(c, guest, svc, gas, k, q, before) && before.stored == before'.stored
    ensures Live(SliceStep(guest, svc, gas), c, svc, k, q, before).1.s.mode.Recording?
    ensures var step := SliceStep(guest, svc, gas);
            var (st, t, _) := Live(step, c, svc, k, q, before);
            var log := Stamped(q, t);
            var (st', t', left') := Again(step, d, svc, k, log, n, before');
            && FromBytes(ToBytes(log)) == Some(log)
            && st' == st && t'.stored == t.stored && left' == [] && IsComplete(t'.s) && SameAnchor(log, t')
  {
    var step := SliceStep(guest, svc, gas);
    StillRecording(c, guest, svc, gas, k, q.msg, q.cap, q.calls, before, [LiveItem(q)]);
    var t := Live(step, c, svc, k, q, before).1;
    ItemExact(q, t);
    RecordReplay(c, d, guest, svc, gas, k, q.msg, q.cap, q.calls, before, [LiveItem(q)], Stamped(q, t), n);
    assert Opened(before, Replaying(Stamped(q, t), 0, false), n) == Opened(before', Replaying(Stamped(q, t), 0, false), n);
  }

  // ---- A history ----

  /** A message sent, and whether a log was stored for it. */
  datatype Sent = Sent(q: Request, stored: bool)

  /** The rows and the bookkeeping after all messages of a history. */
  function LiveAfter(step: Stepper, c: Context, svc: nat, k: nat, xs: seq<Sent>, before: Dispatch): (Storage, Dispatch) {
    if xs == [] then (c.storage, before)
    else
      var (st, t) := LiveAfter(step, c, svc, k, xs[..|xs| - 1], before);
      var (st', t', _) := Live(step, c.(storage := st), svc, k, xs[|xs| - 1].q, t);
      (st', t')
  }

  /** The bytes a history leaves behind. */
  function StoredLogs(step: Stepper, c: Context, svc: nat, k: nat, xs: seq<Sent>, before: Dispatch): seq<Bytes> {
    if xs == [] then []
    else
      var x, t := xs[|xs| - 1], LiveAfter(step, c, svc, k, xs, before).1;
      StoredLogs(step, c, svc, k, xs[..|xs| - 1], before) +
      if x.stored && t.s.mode.Recording? then [ToBytes(Stamped(x.q, t))] else []
  }

  /** Replaying stored bytes in order: rows and bookkeeping at the end, and whether every replay went as recorded. */
  ghost function Rebuild(step: Stepper, d: Context, svc: nat, k: nat, logs: seq<Bytes>, n: nat, before: Dispatch): (Storage, Dispatch, bool) {
    if logs == [] then (d.storage, before, true)
    else
      var (st, t, well) := Rebuild(step, d, svc, k, logs[..|logs| - 1], n, before);
      match FromBytes(logs[|logs| - 1])
      case None => (st, t, false)
      case Some(log) =>
        var (st', t', left) := Again(step, d.(storage := st), svc, k, log, n, t);
        (st', t', well && left == [] && IsComplete(t'.s) && SameAnchor(log, t'))
  }

  /** Every dispatch a log was stored for is one that can be replayed from it. */
  ghost predicate StoredWell(c: Context, guest: Guest, svc: nat, gas: nat, k: nat, xs: seq<Sent>, before: Dispatch) {
    forall i {:trigger xs[i]} :: 0 <= i < |xs| && xs[i].stored ==>
      var (st, t) := LiveAfter(SliceStep(guest, svc, gas), c, svc, k, xs[..i], before);
      Logged(c.(storage := st), guest, svc, gas, k, xs[i].q, t)
  }

  /** The `i`-th message left rows and continuation as they were. */
  ghost predicate Untouched(step: Stepper, c: Context, svc: nat, k: nat, xs: seq<Sent>, i: nat, before: Dispatch)
    requires i < |xs|
  {
    var ((st, t), (st', t')) := (LiveAfter(step, c, svc, k, xs[..i], before), LiveAfter(step, c, svc, k, xs[..i + 1], before));
    st' == st && t'.stored == t.stored
  }

  /** Replaying the stored logs of a history gives back its rows and its continuation. */
  ghost predicate Agrees(step: Stepper, c: Context, d: Context, svc: nat, k: nat, xs: seq<Sent>, n: nat, before: Dispatch, before': Dispatch) {
    var (st, t) := LiveAfter(step, c, svc, k, xs, before);
    var (st', t', _) := Rebuild(step, d, svc, k, StoredLogs(step, c, svc, k, xs, before), n, before');
    st' == st && t'.stored == t.stored
  }

  ghost predicate AgreesThroughout(step: Stepper, c: Context, d: Context, svc: nat, k: nat, xs: seq<Sent>, n: nat, before: Dispatch, before': Dispatch) {
    forall i :: 0 <= i <= |xs| ==> Agrees(step, c, d, svc, k, xs[..i], n, before, before')
  }

  /** Every message without a stored log left rows and continuation as they were. */
  ghost predicate UnstoredUntouched(step: Stepper, c: Context, svc: nat, k: nat, xs: seq<Sent>, before: Dispatch) {
    forall i :: 0 <= i < |xs| && !xs[i].stored ==> Untouched(step, c, svc, k, xs, i, before)
  }

  lemma LogsGrow(step: Stepper, c: Context, svc: nat, k: nat, xs: seq<Sent>, i: nat, before: Dispatch)
    requires i < |xs|
    ensures var logs, t := StoredLogs(step, c, svc, k, xs[..i], before), LiveAfter(step, c, svc, k, xs[..i + 1], before).1;
            StoredLogs(step, c, svc, k, xs[..i + 1], before) ==
            logs + if xs[i].stored && t.s.mode.Recording? then [ToBytes(Stamped(xs[i].q, t))] else []
    ensures var (st, t) := LiveAfter(step, c, svc, k, xs[..i], before);
            var (st', t', _) := Live(step, c.(storage := st), svc, k, xs[i].q, t);
            LiveAfter(step, c, svc, k, xs[..i + 1], before) == (st', t')
  {
    var ys := xs[..i + 1];
    assert ys[..|ys| - 1] == xs[..i] && ys[|ys| - 1] == xs[i];
  }

  /** Replaying the log of a dispatch right after what the history before it gives back. */
  lemma StoredAgrees(c: Context, d: Context, guest: Guest, svc: nat, gas: nat, k: nat, xs: seq<Sent>, i: nat, n: nat, before: Dispatch, before': Dispatch)
    requires SameHost(c, d) && i < |xs| && xs[i].stored && StoredWell(c, guest, svc, gas, k, xs, before)
    requires Agrees(SliceStep(guest, svc, gas), c, d, svc, k, xs[..i], n, before, before')
    ensures var step := SliceStep(guest, svc, gas);
            var logs := StoredLogs(step, c, svc, k, xs[..i], before);
            var logs' := StoredLogs(step, c, svc, k, xs[..i + 1], before);
            && Agrees(step, c, d, svc, k, xs[..i + 1], n, before, before')
            && (Rebuild(step, d, svc, k, logs, n, before').2 ==> Rebuild(step, d, svc, k, logs', n, before').2)
  {
    var step := SliceStep(guest, svc, gas);
    var (st, t) := LiveAfter(step, c, svc, k, xs[..i], before);
    var logs := StoredLogs(step, c, svc, k, xs[..i], before);
    var (st', t', well) := Rebuild(step, d, svc, k, logs, n, before');
    LogsGrow(step, c, svc, k, xs, i, before);
    OneDispatch(c.(storage := st), d.(storage := st), guest, svc, gas, k, xs[i].q, n, t, t');
    var log := Stamped(xs[i].q, Live(step, c.(storage := st), svc, k, xs[i].q, t).1);
    var logs' := logs + [ToBytes(log)];
    assert logs'[..|logs'| - 1] == logs && logs'[|logs'| - 1] == ToBytes(log);
  }

  lemma UnstoredAgrees(step: Stepper, c: Context, d: Context, svc: nat, k: nat, xs: seq<Sent>, i: nat, n: nat, before: Dispatch, before': Dispatch)
    requires i < |xs| && !xs[i].stored && Agrees(step, c, d, svc, k, xs[..i], n, before, before')
    ensures StoredLogs(step, c, svc, k, xs[..i + 1], before) == StoredLogs(step, c, svc, k, xs[..i], before)
    ensures Agrees(step, c, d, svc, k, xs[..i + 1], n, before, before') <==> Untouched(step, c, svc, k, xs, i, before)
  {
    LogsGrow(step, c, svc, k, xs, i, before);
  }

  lemma {:induction false} AgreesUpTo(c: Context, d: Context, guest: Guest, svc: nat, gas: nat, k: nat, xs: seq<Sent>, i: nat, n: nat, before: Dispatch, before': Dispatch)
    requires SameHost(c, d) && StoredWell(c, guest, svc, gas, k, xs, before) && before.stored == before'.stored && i <= |xs|
    requires forall j :: 0 <= j < i && !xs[j].stored ==> Untouched(SliceStep(guest, svc, gas), c, svc, k, xs, j, before)
    ensures var step := SliceStep(guest, svc, gas);
            && Agrees(step, c, d, svc, k, xs[..i], n, before, before')
            && Rebuild(step, d, svc, k, StoredLogs(step, c, svc, k, xs[..i], before), n, before').2
  {
    if i > 0 {
      AgreesUpTo(c, d, guest, svc, gas, k, xs, i - 1, n, before, before');
      if xs[i - 1].stored {
        StoredAgrees(c, d, guest, svc, gas, k, xs, i - 1, n, before, before');
      } else {
        UnstoredAgrees(SliceStep(guest, svc, gas), c, d, svc, k, xs, i - 1, n, before, before');
      }
    }
  }

  /**
   A history of one service against the bytes it stored.  On any host that starts with the
   same rows, whatever Tasks, services and targets it holds, replaying the stored logs in
   order, with nothing else known of the messages, gives back rows and continuation after
   every prefix of the history, if and only if every message without a stored log left both
   as they were; and then every replay runs out of mail, consumes its log exactly and meets
   the anchor recorded in it.
   */
  lemma RebuildExact(c: Context, d: Context, guest: Guest, svc: nat, gas: nat, k: nat, xs: seq<Sent>, n: nat, before: Dispatch, before': Dispatch)
    requires SameHost(c, d) && StoredWell(c, guest, svc, gas, k, xs, before) && before.stored == before'.stored
    ensures var step := SliceStep(guest, svc, gas);
            AgreesThroughout(step, c, d, svc, k, xs, n, before, before') <==> UnstoredUntouched(step, c, svc, k, xs, before)
    ensures var step := SliceStep(guest, svc, gas);
            UnstoredUntouched(step, c, svc, k, xs, before) ==>
              Rebuild(step, d, svc, k, StoredLogs(step, c, svc, k, xs, before), n, before').2
  {
    var step := SliceStep(guest, svc, gas);
    if UnstoredUntouched(step, c, svc, k, xs, before) {
      forall i | 0 <= i <= |xs| ensures Agrees(step, c, d, svc, k, xs[..i], n, before, before') {
        AgreesUpTo(c, d, guest, svc, gas, k, xs, i, n, before, before');
      }
      AgreesUpTo(c, d, guest, svc, gas, k, xs, |xs|, n, before, before');
      assert xs[..|xs|] == xs;
    }
    if AgreesThroughout(step, c, d, svc, k, xs, n, before, before') {
      forall i | 0 <= i < |xs| && !xs[i].stored ensures Untouched(step, c, svc, k, xs, i, before) {
        UnstoredAgrees(step, c, d, svc, k, xs, i, n, before, before');
      }
    }
  }

  /** The first message without a log that touched them is lost silently: no replay reports anything. */
  lemma FirstLossIsSilent(c: Context, d: Context, guest: Guest, svc: nat, gas: nat, k: nat, xs: seq<Sent>, i: nat, n: nat, before: Dispatch, before': Dispatch)
    requires SameHost(c, d) && StoredWell(c, guest, svc, gas, k, xs, before) && before.stored == before'.stored
    requires i < |xs| && !xs[i].stored && !Untouched(SliceStep(guest, svc, gas), c, svc, k, xs, i, before)
    requires forall j :: 0 <= j < i && !xs[j].stored ==> Untouched(SliceStep(guest, svc, gas), c, svc, k, xs, j, before)
    ensures var step := SliceStep(guest, svc, gas);
            && !Agrees(step, c, d, svc, k, xs[..i + 1], n, before, before')
            && Rebuild(step, d, svc, k, StoredLogs(step, c, svc, k, xs[..i + 1], before), n, before').2
  {
    AgreesUpTo(c, d, guest, svc, gas, k, xs, i, n, before, before');
    UnstoredAgrees(SliceStep(guest, svc, gas), c, d, svc, k, xs, i, n, before, before');
  }
}
