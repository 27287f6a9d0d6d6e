/** The journal, the storage and a recording or replaying session as objects updated in place. */
module JournalObjects {
  import opened Options
  import opened Ids
  import opened Payloads
  import opened Journals
  import opened Refine

  class ServiceStorage {
    var data: Storage

    constructor ()
      ensures data == map[]
    {
      data := map[];
    }

    method Read(svc: nat, key: Bytes) returns (r: Option<Bytes>)
      ensures r == RowAt(data, svc, key)
    {
      if svc !in data { return None; }
      if key !in data[svc] { return None; }
      r := Some(data[svc][key]);
    }

    method Write(svc: nat, key: Bytes, value: Bytes)
      modifies this
      ensures data == Put(old(data), Entry(svc, key, Some(value)))
    {
      if svc !in data { data := data[svc := map[]]; }
      data := data[svc := data[svc][key := value]];
    }

    method Delete(svc: nat, key: Bytes)
      modifies this
      ensures data == Put(old(data), Entry(svc, key, None))
    {
      if svc in data { data := data[svc := data[svc] - {key}]; }
    }

    /** Committing a journal's rows, keeping those of the ticked service for its durable delta. */
    method Apply(writes: seq<Entry>, svc: nat) returns (own: seq<(Bytes, Option<Bytes>)>)
      modifies this
      ensures data == Drain(old(data), writes) && own == OwnWrites(writes, svc)
    {
      own := [];
      for i := 0 to |writes|
        invariant data == Drain(old(data), writes[..i]) && own == OwnWrites(writes[..i], svc)
      {
        var e := writes[i];
        assert writes[..i + 1][..i] == writes[..i];
        match e.value {
          case Some(v) => Write(e.svc, e.key, v);
          case None => Delete(e.svc, e.key);
        }
        if e.svc == svc { own := own + [(e.key, e.value)]; }
      }
      assert writes[..|writes|] == writes;
    }
  }

  function OwnWrites(writes: seq<Entry>, svc: nat): seq<(Bytes, Option<Bytes>)> {
    if writes == [] then []
    else
      var e := writes[|writes| - 1];
      OwnWrites(writes[..|writes| - 1], svc) + if e.svc == svc then [(e.key, e.value)] else []
  }

  class RefineJournal {
    var writes: seq<Entry>
    var transfers: seq<(nat, Bytes)>
    var preimages: seq<(Bytes, Bytes)>
    var selfMessages: seq<Bytes>
    var newServices: seq<(Bytes, nat)>

    ghost function View(): Journal
      reads this
    {
      Journal(writes, transfers, preimages, selfMessages, newServices)
    }

    constructor ()
      ensures View() == EmptyJournal
    {
      writes, transfers, preimages, selfMessages, newServices := [], [], [], [], [];
    }

    /** The latest entry for the row, searched from the end. */
    method JournaledRead(svc: nat, key: Bytes) returns (r: Option<Option<Bytes>>)
      ensures r == Journaled(writes, svc, key)
    {
      var i := |writes|;
      assert writes[..i] == writes;
      while i > 0
        invariant i <= |writes| && Journaled(writes[..i], svc, key) == Journaled(writes, svc, key)
      {
        i := i - 1;
        assert writes[..i + 1][..i] == writes[..i];
        if writes[i].svc == svc && writes[i].key == key { return Some(writes[i].value); }
      }
      r := None;
    }

    method EffectiveRead(st: Storage, svc: nat, key: Bytes) returns (r: Option<Bytes>)
      ensures r == Effective(View(), st, svc, key)
    {
      var entry := JournaledRead(svc, key);
      if entry.Some? { return entry.value; }
      r := RowAt(st, svc, key);
    }

    method AbsorbEffect(e: Effect, self: nat)
      modifies this
      ensures View() == Absorb(old(View()), e, self)
      ensures e.Write? ==> writes == old(writes) + [Entry(self, e.key, Some(e.value))]
      ensures e.Delete? ==> writes == old(writes) + [Entry(self, e.key, None)]
      ensures e.New? ==> newServices == old(newServices) + [(e.codeHash, 0)]
    {
      match e
      case Write(key, value) => writes := writes + [Entry(self, key, Some(value))];
      case Delete(key) => writes := writes + [Entry(self, key, None)];
      case Transfer(target, memo) =>
        if target == self { selfMessages := selfMessages + [memo]; } else { transfers := transfers + [(target, memo)]; }
      case Provide(hash, data) => preimages := preimages + [(hash, data)];
      case New(codeHash) => newServices := newServices + [(codeHash, 0)];
    }

    method AbsorbEffects(es: seq<Effect>, self: nat)
      modifies this
      ensures View() == AbsorbAll(old(View()), es, self)
    {
      for i := 0 to |es|
        invariant View() == AbsorbAll(old(View()), es[..i], self)
      {
        AbsorbEffect(es[i], self);
        assert es[..i + 1][..i] == es[..i];
      }
      assert es[..|es|] == es;
    }

    method CurrentMark() returns (m: Mark)
      ensures m == MarkOf(View())
    {
      m := Mark(|writes|, |transfers|, |preimages|, |selfMessages|, |newServices|);
    }

    method Rollback(m: Mark)
      modifies this
      ensures View() == RollbackTo(old(View()), m)
    {
      writes := Truncate(writes, m.writes);
      transfers := Truncate(transfers, m.transfers);
      preimages := Truncate(preimages, m.preimages);
      selfMessages := Truncate(selfMessages, m.selfMessages);
      newServices := Truncate(newServices, m.newServices);
    }

    method TakeSelfMessages() returns (msgs: seq<Bytes>)
      modifies this
      ensures msgs == old(selfMessages) && View() == old(View()).(selfMessages := [])
    {
      msgs := selfMessages;
      selfMessages := [];
    }
  }
}
