/**
 The anchors of a tick: what state each work-result was judged against, what of it the
 dispatch remembers, and what a slice refused only after it was absorbed leaves behind.
 */
module TickAnchors {
  import opened Options
  import opened Ids
  import opened RowKeys
  import opened Codecs
  import opened Payloads
  import opened WorkResults
  import opened Logs
  import opened Commits
  import opened Journals
  import opened Refine
  import opened RefineShift
  import opened Ticks

  // ---- The anchor of every work-result of a tick ----

  /** The anchor of a service's committed rows. */
  function RootAnchor(hash: Bytes -> Bytes, st: Storage, svc: nat): (byte, Bytes) {
    var root := RowAt(st, svc, CommittedRootKey);
    if root.Some? && |root.value| == 32 then (AnchorSmtRoot, root.value) else AnchorFor(hash, RowAt(st, svc, StateKey))
  }

  /** The work-result a slice had absorbed, whatever became of it. */
  function Absorbed(end: End): Option<Payload> {
    if end.Idle? || end.Yield? || end.Rejection? then end.payload else None
  }

  /** `p` names the rows of `svc` as committed with `own` on top, and if accepted adds its effects to `own`. */
  ghost predicate Founded(c: Context, svc: nat, own: Journal, p: Payload, accepted: bool, delta: Journal) {
    && (p.anchorKind, p.anchor) == RootAnchor(c.hash, Drain(c.storage, own.writes), svc)
    && (accepted ==> delta == AbsorbAll(own, p.effects, svc).(selfMessages := []))
  }

  lemma ExpectedIsRoot(c: Context, j: Journal, svc: nat)
    ensures ExpectedAnchor(c, j, svc, Effective(j, c.storage, svc, StateKey)) == RootAnchor(c.hash, Drain(c.storage, j.writes), svc)
  {
    OverlayRefinesCommit(j, c.storage, svc, CommittedRootKey);
    OverlayRefinesCommit(j, c.storage, svc, StateKey);
  }

  lemma JudgeFounded(c: Context, svc: nat, exit: Exit, s: State)
    requires Absorbed(Judge(c, svc, exit, s).0).Some?
    ensures var (end, j) := Judge(c, svc, exit, s);
            var p := Absorbed(end).value;
            j == AbsorbAll(s.journal, p.effects, svc) && (p.anchorKind, p.anchor) == RootAnchor(c.hash, Drain(c.storage, s.journal.writes), svc)
  {
    ExpectedIsRoot(c, s.journal, svc);
  }

  lemma StepFounded(c: Context, guest: Guest, svc: nat, gas: nat, d: Dispatch, items: seq<Bytes>, resume: Option<seq<Obs>>)
    requires Absorbed(Step(c, guest, svc, gas, d, items, resume).0).Some?
    ensures var (end, d') := Step(c, guest, svc, gas, d, items, resume);
            exists own :: Founded(c, svc, own, Absorbed(end).value, Accepted(end), TakeMail(d').s.journal)
  {
    var hist := if resume.Some? then resume.value + [Woken(true)] else [];
    var (exit, s, left) := Run(c, guest, svc, 0, gas, d.s, NonEmpty(items), hist, None);
    JudgeFounded(c, svc, exit, s);
    var (end, d') := Step(c, guest, svc, gas, d, items, resume);
    assert Founded(c, svc, s.journal, Absorbed(end).value, Accepted(end), TakeMail(d').s.journal);
  }

  /** What a dispatch remembers of its work-results: the first anchor, and whether any had effects. */
  function Remembered(anchor: Option<(byte, Bytes)>, bearing: bool, end: End): (Option<(byte, Bytes)>, bool) {
    var p := Absorbed(end);
    if p.None? then (anchor, bearing)
    else (if anchor.Some? then anchor else Some((p.value.anchorKind, p.value.anchor)), bearing || p.value.effects != [])
  }

  ghost predicate Anchors(step: Stepper, svc: nat) {
    forall c, d: Dispatch, items, resume ::
      var (end, d') := step(c, d, items, resume);
      && (Absorbed(end).Some? ==> exists own :: Founded(c, svc, own, Absorbed(end).value, Accepted(end), TakeMail(d').s.journal))
      && (d'.anchor, d'.effectBearing) == Remembered(d.anchor, d.effectBearing, end)
  }

  lemma SliceAnchors(guest: Guest, svc: nat, gas: nat)
    ensures Anchors(SliceStep(guest, svc, gas), svc)
  {
    var step := SliceStep(guest, svc, gas);
    forall c, d: Dispatch, items, resume
      ensures var (end, d') := step(c, d, items, resume);
              && (Absorbed(end).Some? ==> exists own :: Founded(c, svc, own, Absorbed(end).value, Accepted(end), TakeMail(d').s.journal))
              && (d'.anchor, d'.effectBearing) == Remembered(d.anchor, d.effectBearing, end)
    {
      if Absorbed(Step(c, guest, svc, gas, d, items, resume).0).Some? { StepFounded(c, guest, svc, gas, d, items, resume); }
    }
  }

  /** Slice `i` of a tick, on the rows with the slices before it committed. */
  lemma {:induction false} SerialFounded(step: Stepper, c: Context, svc: nat, k: nat, d: Dispatch, items: seq<Bytes>, resume: Option<seq<Obs>>, i: nat)
    returns (own: Journal)
    requires Anchors(step, svc) && k > 0
    requires var slices := Serial(step, c, k, d, items, resume).0; i < |slices| && Absorbed(slices[i].end).Some?
    ensures var slices := Serial(step, c, k, d, items, resume).0;
            Founded(c.(storage := CommitEach(c.storage, slices[..i])), svc, own, Absorbed(slices[i].end).value, Accepted(slices[i].end), slices[i].delta)
    decreases k
  {
    var (end, d') := step(c, Clear(d), items, resume);
    var slice, slices := Slice(end, TakeMail(d').s.journal), Serial(step, c, k, d, items, resume).0;
    if i == 0 {
      own :| Founded(c, svc, own, Absorbed(end).value, Accepted(end), slice.delta);
      assert slices[0] == slice && c.(storage := c.storage) == c;
    } else {
      var rest := Serial(step, Under(c, slice.delta), k - 1, Clear(d'), Mail(d'), None).0;
      assert slices == [slice] + rest && slices[i] == rest[i - 1];
      own := SerialFounded(step, Under(c, slice.delta), svc, k - 1, Clear(d'), Mail(d'), None, i - 1);
      assert slices[..i][0] == slice && slices[..i][1..] == rest[..i - 1];
    }
  }

  /** The anchor of the first work-result among the slices, and whether any of them bore effects. */
  function FirstAnchor(slices: seq<Slice>): Option<(byte, Bytes)>
    decreases |slices|
  {
    if slices == [] then None
    else
      match Absorbed(slices[0].end)
      case Some(p) => Some((p.anchorKind, p.anchor))
      case None => FirstAnchor(slices[1..])
  }

  predicate BoreEffects(slices: seq<Slice>) {
    exists i :: 0 <= i < |slices| && Absorbed(slices[i].end).Some? && Absorbed(slices[i].end).value.effects != []
  }

  lemma BoreFirst(slices: seq<Slice>)
    requires slices != []
    ensures var p := Absorbed(slices[0].end);
            BoreEffects(slices) <==> (p.Some? && p.value.effects != []) || BoreEffects(slices[1..])
  {
    assert forall i :: 0 < i < |slices| ==> slices[i] == slices[1..][i - 1];
    if i :| 0 <= i < |slices[1..]| && Absorbed(slices[1..][i].end).Some? && Absorbed(slices[1..][i].end).value.effects != [] {
      assert slices[i + 1] == slices[1..][i];
    }
  }

  lemma {:induction false} SerialRemembers(step: Stepper, c: Context, svc: nat, k: nat, d: Dispatch, items: seq<Bytes>, resume: Option<seq<Obs>>)
    requires Anchors(step, svc) && k > 0
    ensures var (slices, e) := Serial(step, c, k, d, items, resume);
            && e.anchor == (if d.anchor.Some? then d.anchor else FirstAnchor(slices))
            && (e.effectBearing <==> d.effectBearing || BoreEffects(slices))
    decreases k
  {
    var (end, d') := step(c, Clear(d), items, resume);
    var slice := Slice(end, TakeMail(d').s.journal);
    var (slices, e) := Serial(step, c, k, d, items, resume);
    assert slices[0] == slice;
    BoreFirst(slices);
    if end.Idle? && Mail(d') != [] && k > 1 {
      var (rest, f) := Serial(step, Under(c, slice.delta), k - 1, Clear(d'), Mail(d'), None);
      SerialRemembers(step, Under(c, slice.delta), svc, k - 1, Clear(d'), Mail(d'), None);
      assert slices[1..] == rest;
    } else {
      assert slices[1..] == [];
    }
  }

  /** Slice `i` was judged against the rows with the slices before it committed. */
  ghost predicate FoundedAt(c: Context, svc: nat, slices: seq<Slice>, i: nat)
    requires i < |slices|
  {
    Absorbed(slices[i].end).Some? ==>
      exists own :: Founded(c.(storage := CommitEach(c.storage, slices[..i])), svc, own,
                            Absorbed(slices[i].end).value, Accepted(slices[i].end), slices[i].delta)
  }

  lemma SerialAnchored(step: Stepper, c: Context, svc: nat, k: nat, d: Dispatch, items: seq<Bytes>, resume: Option<seq<Obs>>)
    requires Anchors(step, svc) && k > 0
    ensures var slices := Serial(step, c, k, d, items, resume).0;
            forall i :: 0 <= i < |slices| ==> FoundedAt(c, svc, slices, i)
  {
    var slices := Serial(step, c, k, d, items, resume).0;
    forall i | 0 <= i < |slices| ensures FoundedAt(c, svc, slices, i) {
      if Absorbed(slices[i].end).Some? { var own := SerialFounded(step, c, svc, k, d, items, resume, i); }
    }
  }

  /**
   The anchor chain of a tick: every work-result names the rows as they are with all slices
   before its own committed and what its run itself had journaled; the dispatch keeps the
   anchor of the first one, and says it bore effects exactly if one of them had any.
   */
  lemma TickAnchorChain(c: Context, guest: Guest, svc: nat, gas: nat, mode: Mode, calls: nat, before: Dispatch, items: seq<Bytes>)
    ensures var (slices, e) := Serial(SliceStep(guest, svc, gas), c, MaxRefineIterations, Begin(mode, calls, before), items, before.stored);
            && (forall i :: 0 <= i < |slices| ==> FoundedAt(c, svc, slices, i))
            && e.anchor == (if before.anchor.Some? then before.anchor else FirstAnchor(slices))
            && (e.effectBearing <==> before.effectBearing || BoreEffects(slices))
  {
    var step, d := SliceStep(guest, svc, gas), Begin(mode, calls, before);
    SliceAnchors(guest, svc, gas);
    SerialAnchored(step, c, svc, MaxRefineIterations, d, items, before.stored);
    SerialRemembers(step, c, svc, MaxRefineIterations, d, items, before.stored);
  }

  // ---- A slice refused after its work-result was absorbed ----

  /** The guard of such a refusal: the anchor is right, but yielding and suspending disagree. */
  lemma RefusedLate(c: Context, svc: nat, exit: Exit, s: State, p: Payload)
    ensures Judge(c, svc, exit, s).0 == Rejection(Some(p)) <==>
            && !s.rejected && exit.Halted? && Decode(exit.output) == Some(p)
            && (p.anchorKind, p.anchor) == RootAnchor(c.hash, Drain(c.storage, s.journal.writes), svc)
            && p.continueNext != exit.continuation.Some?
  {
    ExpectedIsRoot(c, s.journal, svc);
  }

  /**
   A failed slice contributes nothing, but what the dispatch remembers is undone with it
   exactly if nothing was absorbed, or nothing was learned from it: an anchor was known
   already, and effects too if it had any.
   */
  lemma FailedSliceRemembered(c: Context, guest: Guest, svc: nat, gas: nat, d: Dispatch, items: seq<Bytes>, resume: Option<seq<Obs>>)
    requires d.s.journal == EmptyJournal
    ensures var (end, d') := Step(c, guest, svc, gas, d, items, resume);
            !Accepted(end) ==>
              && d'.s.journal == EmptyJournal && d'.reply.None?
              && (d'.anchor == d.anchor && d'.effectBearing == d.effectBearing <==>
                    Absorbed(end).None? || (d.anchor.Some? && (Absorbed(end).value.effects == [] || d.effectBearing)))
  {
    StepFails(c, guest, svc, gas, d, items, resume);
  }

  lemma HaltAtOnce(c: Context, svc: nat, gas: nat, s: State, out: Bytes)
    requires gas > 0 && |out| <= MaxOutput
    ensures var guest: Guest := _ => Halt(out); Run(c, guest, svc, 0, gas, s, [], [], None) == (Halted(out, None), s, [])
  {
  }

  /** A guest that claims to yield without suspending is refused, and its anchor and effects are remembered. */
  lemma YieldWithoutSuspension(c: Context, svc: nat, gas: nat, d: Dispatch, p: Payload)
    requires gas > 0 && d.s.journal == EmptyJournal && !d.s.rejected
    requires WellFormed(p) && p.version == V4 && |Encode(p)| <= MaxOutput
    requires p.continueNext && (p.anchorKind, p.anchor) == RootAnchor(c.hash, c.storage, svc)
    ensures var guest: Guest := _ => Halt(Encode(p));
            var (end, d') := Step(c, guest, svc, gas, d, [], None);
            && end == Rejection(Some(p)) && d'.s.journal == EmptyJournal && d'.reply.None?
            && d'.anchor == (if d.anchor.Some? then d.anchor else Some((p.anchorKind, p.anchor)))
            && (d'.effectBearing <==> d.effectBearing || p.effects != [])
  {
    var guest: Guest := _ => Halt(Encode(p));
    RoundTrip(p);
    HaltAtOnce(c, svc, gas, d.s, Encode(p));
    RefusedLate(c, svc, Halted(Encode(p), None), d.s, p);
    FailedSliceRemembered(c, guest, svc, gas, d, [], None);
  }

  /** Such a payload: one row written, on a service that has none yet. */
  function Claimed(): Payload { Payload(V4, AnchorGenesis, Zero32, [], [Write([9], [1])], [], true, false) }

  lemma ClaimedFits(hash: Bytes -> Bytes, st: Storage, svc: nat)
    requires RowAt(st, svc, StateKey).None? && RowAt(st, svc, CommittedRootKey).None?
    ensures WellFormed(Claimed()) && |Encode(Claimed())| <= MaxOutput
    ensures (Claimed().anchorKind, Claimed().anchor) == RootAnchor(hash, st, svc)
  {
  }

  /** A dispatch that wrote nothing is committed as a node exactly if it says it bore effects. */
  lemma EffectBitAppends(h: Hashing, origin: Bytes, db: Db, mem: Mem, log: EffectLog, bearing: bool)
    requires !Misnumbered(h, origin, SeqOf(db, mem.nextSeq), log)
    ensures var (out, db', mem') := WriteAtomic(h, origin, db, mem, Delta([], Some(log), bearing));
            var cid := h.name(NewNode(h, origin, db, SeqOf(db, mem.nextSeq), log));
            && out == Committed(bearing) && db'.kv == db.kv && db'.state == db.state
            && if bearing then db'.roots == Some({cid}) && cid in db'.table else db' == db && mem' == mem
  {
    assert OtherWrites([]) == [] && LastState([]).None?;
  }

  /** So a refused yield that carried effects puts a node into the history although its tick wrote nothing. */
  lemma RefusedYieldAppends(c: Context, svc: nat, gas: nat, d: Dispatch, p: Payload, h: Hashing, origin: Bytes, db: Db, mem: Mem, log: EffectLog)
    requires gas > 0 && d.s.journal == EmptyJournal && !d.s.rejected
    requires WellFormed(p) && p.version == V4 && |Encode(p)| <= MaxOutput && p.effects != []
    requires p.continueNext && (p.anchorKind, p.anchor) == RootAnchor(c.hash, c.storage, svc)
    requires !Misnumbered(h, origin, SeqOf(db, mem.nextSeq), log)
    ensures var guest: Guest := _ => Halt(Encode(p));
            var d' := Step(c, guest, svc, gas, d, [], None).1;
            && d'.s.journal.writes == []
            && WriteAtomic(h, origin, db, mem, Delta([], Some(log), d'.effectBearing)).0 == Committed(true)
  {
    YieldWithoutSuspension(c, svc, gas, d, p);
    EffectBitAppends(h, origin, db, mem, log, true);
  }
}
