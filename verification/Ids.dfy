/** Optional values, as in the source. */
module Options {
  datatype Option<+T> = None | Some(value: T)
}

/**
 Operation identifiers: a 32-byte change id and an ordinal, compared as the source
 derives it (the change's bytes lexicographically, then the ordinal).
 */
module Ids {
  import opened Orders

  newtype byte = n: int | 0 <= n < 256

  type Bytes = seq<byte>

  /** One past the largest 32-bit and 64-bit numbers. */
  const U32: nat := 0x1_0000_0000
  const U64: nat := 0x1_0000_0000_0000_0000

  predicate ByteLess(a: byte, b: byte) { a < b }

  function ByteOrder(): (byte, byte) -> bool { ByteLess }

  /** The order of byte strings: hash outputs, content ids and row keys. */
  function BytesOrder(): (Bytes, Bytes) -> bool { Lex(ByteOrder()) }

  lemma BytesOrderTotal()
    ensures StrictTotal(BytesOrder())
  {
    assert Transitive(ByteOrder());
    LexStrictTotal(ByteOrder());
  }

  /** The two strings agree up to `i`, where `a` ends or has the smaller byte. */
  predicate PartsAt(a: Bytes, b: Bytes, i: nat) {
    && i <= |a| && i < |b| && a[..i] == b[..i]
    && (i == |a| || a[i] as int < b[i] as int)
  }

  lemma PartsFirst(a: Bytes, b: Bytes, i: nat)
    requires PartsAt(a, b, i)
    ensures i == 0 || (a != [] && b != [] && a[0] == b[0])
  {
    if i > 0 { assert a[..i][0] == b[..i][0]; }
  }

  /** Byte strings compare by the first byte in which they differ; a prefix comes first. */
  lemma {:induction false} BytesOrderMeans(a: Bytes, b: Bytes)
    ensures BytesOrder()(a, b) <==> exists i :: PartsAt(a, b, i)
  {
    if a == [] || b == [] || a[0] != b[0] {
      if BytesOrder()(a, b) { assert PartsAt(a, b, 0); }
      forall i | PartsAt(a, b, i) ensures i == 0 { PartsFirst(a, b, i); }
    } else {
      BytesOrderMeans(a[1..], b[1..]);
      if i: nat :| PartsAt(a[1..], b[1..], i) {
        assert a[..i + 1] == [a[0]] + a[1..][..i] && b[..i + 1] == [b[0]] + b[1..][..i];
        assert PartsAt(a, b, i + 1);
      }
      if i: nat :| PartsAt(a, b, i) {
        assert i > 0;
        assert a[..i][1..] == a[1..][..i - 1] && b[..i][1..] == b[1..][..i - 1];
        assert PartsAt(a[1..], b[1..], i - 1);
      }
    }
  }

  type ChangeId = Bytes

  datatype OpId = OpId(change: ChangeId, ordinal: nat)

  predicate IdLess(a: OpId, b: OpId) {
    if a.change == b.change then a.ordinal < b.ordinal else BytesOrder()(a.change, b.change)
  }

  function IdOrder(): (OpId, OpId) -> bool { IdLess }

  lemma IdOrderTotal()
    ensures StrictTotal(IdOrder())
  {
    BytesOrderTotal();
    forall x, y, z | IdOrder()(x, y) && IdOrder()(y, z) ensures IdOrder()(x, z) {
      if x.change != y.change && y.change != z.change {
        assert BytesOrder()(x.change, z.change);
      }
    }
  }

  /** Operation ids compare by change, byte by byte, and within a change by number. */
  lemma IdLessMeans(a: OpId, b: OpId)
    ensures IdLess(a, b) <==> (a.change == b.change && a.ordinal < b.ordinal) || exists i :: PartsAt(a.change, b.change, i)
  {
    BytesOrderMeans(a.change, b.change);
    if i: nat :| PartsAt(a.change, b.change, i) {
      assert i < |a.change| ==> a.change[i] != b.change[i];
      assert a.change != b.change;
    }
  }
}

/** The reserved rows of an actor's storage. */
module RowKeys {
  import opened Ids

  const StateKey: Bytes := [95, 95, 118, 111, 115, 95, 97, 99, 116, 111, 114, 95, 115, 116, 97, 116, 101]

  const CommittedRootKey: Bytes := [95, 95, 118, 111, 115, 95, 99, 111, 109, 109, 105, 116, 116, 101, 100, 95, 114, 111, 111, 116]
}
