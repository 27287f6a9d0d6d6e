/** Where the mail that a list of effects sends ends up. */
module Mails {
  import opened Ids
  import opened Payloads
  import opened Journals
  import opened Dispatches

  /** The mail effects send, whoever it goes to. */
  function MailOf(es: seq<Effect>): seq<(nat, Bytes)> {
    if es == [] then []
    else
      var e := es[|es| - 1];
      MailOf(es[..|es| - 1]) + if e.Transfer? then [(e.target, e.memo)] else []
  }

  lemma IncomingSnoc(t: nat, mail: seq<(nat, Bytes)>, m: (nat, Bytes))
    ensures Incoming(t, mail + [m]) == Incoming(t, mail) + if m.0 == t then [m.1] else []
  {
    assert (mail + [m])[..|mail|] == mail;
  }

  /** What a service sends itself is in its own queue, and everyone else's is on its way, in order. */
  predicate MailKept(j: Journal, sent: seq<(nat, Bytes)>, self: nat, t: nat) {
    j.selfMessages == Incoming(self, sent) && Incoming(t, j.transfers) == if t == self then [] else Incoming(t, sent)
  }

  lemma MailStep(j: Journal, sent: seq<(nat, Bytes)>, e: Effect, self: nat, t: nat)
    ensures MailKept(j, sent, self, t) ==> MailKept(Absorb(j, e, self), sent + if e.Transfer? then [(e.target, e.memo)] else [], self, t)
  {
    if e.Transfer? {
      var m := (e.target, e.memo);
      IncomingSnoc(self, sent, m);
      IncomingSnoc(t, sent, m);
      IncomingSnoc(t, j.transfers, m);
    } else {
      assert sent + [] == sent;
    }
  }

  /** No mail is lost. */
  lemma {:induction false} MailAbsorbed(es: seq<Effect>, self: nat, t: nat)
    ensures MailKept(AbsorbAll(EmptyJournal, es, self), MailOf(es), self, t)
  {
    if es != [] {
      var n := |es| - 1;
      MailAbsorbed(es[..n], self, t);
      MailStep(AbsorbAll(EmptyJournal, es[..n], self), MailOf(es[..n]), es[n], self, t);
    }
  }
}
