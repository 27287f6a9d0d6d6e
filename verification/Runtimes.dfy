/** A service's tick in place: the loop over refine slices, and the commit of its journal. */
module Runtimes {
  import opened Options
  import opened Ids
  import opened Tables
  import opened RowKeys
  import opened WorkResults
  import opened PayloadLoops
  import opened Journals
  import opened Refine
  import opened Ticks
  import opened JournalObjects
  import opened Hosts

  class ServiceTick {
    const host: Host
    var stored: Option<seq<Obs>>
    var reply: Option<Bytes>
    var forbidden: bool
    var anchor: Option<(byte, Bytes)>
    var effectBearing: bool
    var requeued: seq<Bytes>

    ghost function View(): Dispatch
      reads this, host, host.journal
    {
      Dispatch(host.View(), stored, reply, forbidden, anchor, effectBearing, requeued)
    }

    constructor (mode: Mode, calls: nat, ghost before: Dispatch, stored: Option<seq<Obs>>, forbidden: bool, anchor: Option<(byte, Bytes)>, effectBearing: bool)
      requires before.stored == stored && before.forbidden == forbidden && before.anchor == anchor && before.effectBearing == effectBearing
      ensures View() == Begin(mode, calls, before) && fresh(host) && fresh(host.journal)
    {
      host := new Host(mode, calls);
      this.stored, this.forbidden, this.anchor, this.effectBearing := stored, forbidden, anchor, effectBearing;
      reply, requeued := None, [];
    }

    /** The verdict on a finished run; an accepted work-result is absorbed. */
    method JudgeExit(c: Context, svc: nat, exit: Exit) returns (end: End)
      modifies host.journal
      ensures (end, host.journal.View()) == Judge(c, svc, exit, old(host.View()))
    {
      if host.rejected { return PrivateRecord; }
      if !exit.Halted? { return Trapped; }
      var payload := DecodePayload(exit.output);
      if payload.None? {
        if ClaimsPayload(exit.output) { return Rejection(None); }
        return Boundary(None, exit.output != [] && exit.output[0] == StatusYielded, exit.continuation);
      }
      var p := payload.value;
      var state := host.journal.EffectiveRead(c.storage, svc, StateKey);
      var expected := host.AnchorNow(c, svc, state);
      if (p.anchorKind, p.anchor) != expected { return Rejection(None); }
      host.journal.AbsorbEffects(p.effects, svc);
      end := Boundary(payload, p.continueNext, exit.continuation);
    }

    method NoteResult(p: Option<Payload>)
      modifies this
      ensures View() == Note(old(View()), p)
      ensures p.Some? ==> reply == Some(p.value.reply) && forbidden == (old(forbidden) || p.value.forbidden)
      ensures p.None? ==> View() == old(View())
    {
      if p.None? { return; }
      if anchor.None? { anchor := Some((p.value.anchorKind, p.value.anchor)); }
      if p.value.effects != [] { effectBearing := true; }
      reply := Some(p.value.reply);
      if p.value.forbidden { forbidden := true; }
    }

    /** A failed slice: its journal suffix and any reply are dropped. */
    method Fail(m: Mark)
      modifies this, host.journal
      ensures View() == Failed(old(View()), old(host.View()), m)
    {
      host.journal.Rollback(m);
      reply, forbidden := None, false;
    }

    method SettleEnd(m: Mark, end: End, left: seq<Bytes>)
      modifies this, host.journal
      ensures View() == Settle(old(View()), m, end, old(host.View()), left)
      ensures !(end.Idle? || end.Yield?) ==> reply.None? && !forbidden && requeued == old(requeued)
      ensures (end.Idle? || end.Yield?) && end.payload.Some? ==>
                reply == Some(end.payload.value.reply) && forbidden == (old(forbidden) || end.payload.value.forbidden)
      ensures (end.Idle? || end.Yield?) && end.payload.None? ==> reply == old(reply) && forbidden == old(forbidden)
      ensures end.Yield? ==> stored == Some(end.next) && requeued == left + old(host.journal.selfMessages) && host.journal.selfMessages == []
      ensures end.Idle? || end.Rejection? ==> stored.None?
      ensures end.Trapped? || end.PrivateRecord? ==> stored == old(stored)
      ensures end.PrivateRecord? ==> host.journal.View() == EmptyJournal
    {
      match end
      case PrivateRecord => Fail(Mark(0, 0, 0, 0, 0));
      case Trapped => Fail(m);
      case Rejection(p) =>
        NoteResult(p);
        Fail(m);
        stored := None;
      case Yield(p, next) =>
        NoteResult(p);
        stored := Some(next);
        var msgs := host.journal.TakeSelfMessages();
        requeued := left + msgs;
      case Idle(p) =>
        NoteResult(p);
        stored := None;
    }

    method RunGuest(c: Context, guest: Guest, svc: nat, gas: nat, items: seq<Bytes>, resume: Option<seq<Obs>>) returns (end: End, left: seq<Bytes>)
      modifies host, host.journal
      ensures (end, host.View(), left) == RunSlice(c, guest, svc, gas, old(host.View()), items, resume)
    {
      var mail := DropEmpty(items);
      var hist := if resume.Some? then resume.value + [Woken(true)] else [];
      var exit;
      exit, left := host.RunRefine(c, guest, svc, 0, gas, mail, hist);
      end := JudgeExit(c, svc, exit);
    }

    method RunOne(c: Context, guest: Guest, svc: nat, gas: nat, items: seq<Bytes>, resume: Option<seq<Obs>>) returns (end: End)
      modifies this, host, host.journal
      ensures (end, View()) == Step(c, guest, svc, gas, old(View()), items, resume)
    {
      ghost var d := View();
      var mark := host.journal.CurrentMark();
      var left;
      end, left := RunGuest(c, guest, svc, gas, items, resume);
      SettleOverState(d, mark, end, host.View(), left);
      SettleEnd(mark, end, left);
    }

    /** The slices of one tick: a continuation is resumed only by the first of them. */
    method RunSlices(c: Context, guest: Guest, svc: nat, gas: nat, mail: seq<Bytes>)
      modifies this, host, host.journal
      ensures View() == Chain(SliceStep(guest, svc, gas), c, MaxRefineIterations, old(View()), mail, old(stored))
    {
      var items, resume, k := mail, stored, MaxRefineIterations;
      while true
        invariant k > 0
        invariant Chain(SliceStep(guest, svc, gas), c, k, View(), items, resume) ==
                  Chain(SliceStep(guest, svc, gas), c, MaxRefineIterations, old(View()), mail, old(stored))
        decreases k
      {
        var end := RunOne(c, guest, svc, gas, items, resume);
        if !end.Idle? || host.journal.selfMessages == [] { return; }
        items := host.journal.TakeSelfMessages();
        if k == 1 {
          requeued := items;
          return;
        }
        k, resume := k - 1, None;
      }
    }
  }

  /** Settling replaces the state it is given. */
  lemma SettleOverState(d: Dispatch, m: Mark, end: End, s: State, left: seq<Bytes>)
    ensures Settle(d.(s := s), m, end, s, left) == Settle(d, m, end, s, left)
  {
  }

  method DropEmpty(items: seq<Bytes>) returns (r: seq<Bytes>)
    ensures r == NonEmpty(items)
  {
    r := [];
    for i := 0 to |items|
      invariant r == NonEmpty(items[..i])
    {
      assert items[..i + 1][..i] == items[..i];
      if items[i] != [] { r := r + [items[i]]; }
    }
    assert items[..|items|] == items;
  }

  function Inserted(m: map<Bytes, Bytes>, ps: seq<(Bytes, Bytes)>): map<Bytes, Bytes> {
    if ps == [] then m else Inserted(m, ps[..|ps| - 1])[ps[|ps| - 1].0 := ps[|ps| - 1].1]
  }

  /** A preimage is the last one provided under its hash. */
  lemma {:induction false} PreimageProvided(m: map<Bytes, Bytes>, ps: seq<(Bytes, Bytes)>, k: Bytes, i: nat)
    requires IsLast(ps, k, i)
    ensures k in Inserted(m, ps) && Inserted(m, ps)[k] == ps[i].1
  {
    var n := |ps| - 1;
    if i < n {
      LastOfPrefix(ps, k, i, n);
      PreimageProvided(m, ps[..n], k, i);
    }
  }

  /** Under a hash that none is provided for, it is the one held before. */
  lemma {:induction false} PreimageHeld(m: map<Bytes, Bytes>, ps: seq<(Bytes, Bytes)>, k: Bytes)
    requires !Occurs(ps, k)
    ensures k in Inserted(m, ps) <==> k in m
    ensures k in m ==> Inserted(m, ps)[k] == m[k]
  {
    if ps != [] {
      assert ps[|ps| - 1].0 != k;
      PreimageHeld(m, ps[..|ps| - 1], k);
    }
  }

  /** What the host holds between ticks, for one service. */
  class Runtime {
    const storage: ServiceStorage
    var preimages: map<Bytes, Bytes>
    var transfers: seq<(nat, Bytes)>
    var created: seq<(Bytes, nat)>
    var dispatchWrites: map<nat, seq<(Bytes, Option<Bytes>)>>
    var mode: Mode
    var calls: nat

    constructor (mode: Mode)
      ensures storage.data == map[] && preimages == map[] && transfers == [] && created == [] && dispatchWrites == map[]
    {
      storage := new ServiceStorage();
      preimages, transfers, created, dispatchWrites, this.mode, calls := map[], [], [], map[], mode, 0;
    }

    method Requeue(svc: nat, msgs: seq<Bytes>)
      modifies this`transfers
      ensures transfers == old(transfers) + AddressedTo(svc, msgs)
    {
      for i := 0 to |msgs|
        invariant transfers == old(transfers) + AddressedTo(svc, msgs[..i])
      {
        assert msgs[..i + 1][..i] == msgs[..i];
        transfers := transfers + [(svc, msgs[i])];
      }
      assert msgs[..|msgs|] == msgs;
    }

    method ProvideAll(ps: seq<(Bytes, Bytes)>)
      modifies this`preimages
      ensures preimages == Inserted(old(preimages), ps)
    {
      for i := 0 to |ps|
        invariant preimages == Inserted(old(preimages), ps[..i])
      {
        assert ps[..i + 1][..i] == ps[..i];
        preimages := preimages[ps[i].0 := ps[i].1];
      }
      assert ps[..|ps|] == ps;
    }

    method CommitJournal(svc: nat, j: Journal, requeued: seq<Bytes>)
      modifies this, storage
      ensures storage.data == Drain(old(storage.data), j.writes)
      ensures transfers == old(transfers) + AddressedTo(svc, requeued) + j.transfers
      ensures preimages == Inserted(old(preimages), j.preimages)
      ensures created == old(created) + j.newServices
      ensures dispatchWrites == Captured(old(dispatchWrites), svc, OwnWrites(j.writes, svc))
      ensures mode == old(mode) && calls == old(calls)
    {
      Requeue(svc, requeued);
      var own := storage.Apply(j.writes, svc);
      if own != [] { dispatchWrites := dispatchWrites[svc := (if svc in dispatchWrites then dispatchWrites[svc] else []) + own]; }
      ProvideAll(j.preimages);
      transfers := transfers + j.transfers;
      created := created + j.newServices;
    }

    /**
     One service's tick: its slices run on one journal, and the journal is committed.
     `before` is what an earlier tick left of the service's bookkeeping.
     */
    method TickService(c: Context, guest: Guest, svc: nat, gas: nat, before: Dispatch, items: seq<Bytes>) returns (d: Dispatch)
      requires c.storage == storage.data
      modifies this, storage
      ensures var t := Chain(SliceStep(guest, svc, gas), c, MaxRefineIterations, Begin(old(mode), old(calls), before), items, before.stored);
              var r := Commit(old(storage.data), svc, t);
              && storage.data == r.storage && transfers == old(transfers) + r.transfers
              && preimages == Inserted(old(preimages), r.preimages) && created == old(created) + r.created && d == r.dispatch
              && dispatchWrites == Captured(old(dispatchWrites), svc, OwnWrites(t.s.journal.writes, svc))
              && mode == d.s.mode && calls == d.s.calls
    {
      var t := new ServiceTick(mode, calls, before, before.stored, before.forbidden, before.anchor, before.effectBearing);
      t.RunSlices(c, guest, svc, gas, items);
      var h := t.host;
      var j := Journal(h.journal.writes, h.journal.transfers, h.journal.preimages, h.journal.selfMessages, h.journal.newServices);
      d := Dispatch(State(EmptyJournal, h.mode, h.rejected, h.calls), t.stored, t.reply, t.forbidden, t.anchor, t.effectBearing, t.requeued);
      CommitJournal(svc, j, d.requeued);
      mode, calls := d.s.mode, d.s.calls;
      assert old(transfers) + AddressedTo(svc, d.requeued) + j.transfers == old(transfers) + (AddressedTo(svc, d.requeued) + j.transfers);
    }
  }

  /** The ticked service's own rows, queued for its durable commit. */
  function Captured(m: map<nat, seq<(Bytes, Option<Bytes>)>>, svc: nat, own: seq<(Bytes, Option<Bytes>)>): map<nat, seq<(Bytes, Option<Bytes>)>> {
    if own == [] then m else m[svc := (if svc in m then m[svc] else []) + own]
  }
}
