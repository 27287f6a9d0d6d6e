/** What a list of rows leaves in a table: every key that occurs, with the value of its last row. */
module Tables {

  /** The last row with key `k` is the one at `i`. */
  predicate IsLast<K(==), V>(rows: seq<(K, V)>, k: K, i: nat) {
    i < |rows| && rows[i].0 == k && forall j :: i < j < |rows| ==> rows[j].0 != k
  }

  /** Exactly the keys that occur, each with the value of its last row. */
  ghost predicate HoldsRows<K(!new), V>(m: map<K, V>, rows: seq<(K, V)>) {
    && m.Keys == (set i | 0 <= i < |rows| :: rows[i].0)
    && forall k, i: nat :: IsLast(rows, k, i) ==> k in m && m[k] == rows[i].1
  }

  lemma {:induction false} LastExists<K, V>(rows: seq<(K, V)>, k: K) returns (i: nat)
    requires exists j :: 0 <= j < |rows| && rows[j].0 == k
    ensures IsLast(rows, k, i)
  {
    var n := |rows| - 1;
    if rows[n].0 == k {
      i := n;
    } else {
      var j :| 0 <= j < |rows| && rows[j].0 == k;
      assert rows[..n][j].0 == k;
      i := LastExists(rows[..n], k);
      assert forall l :: i < l < n ==> rows[l] == rows[..n][l];
    }
  }

  lemma LastOfPrefix<K, V>(rows: seq<(K, V)>, k: K, i: nat, n: nat)
    requires IsLast(rows, k, i) && i < n <= |rows|
    ensures IsLast(rows[..n], k, i)
  {
    assert forall j :: 0 <= j < n ==> rows[..n][j] == rows[j];
  }

  /** Some row has key `k`. */
  predicate Occurs<K(==), V>(rows: seq<(K, V)>, k: K) { exists i :: 0 <= i < |rows| && rows[i].0 == k }

  /** Only one table holds the rows of a list. */
  lemma RowsDecide<K(!new), V>(a: map<K, V>, b: map<K, V>, rows: seq<(K, V)>)
    requires HoldsRows(a, rows) && HoldsRows(b, rows)
    ensures a == b
  {
    assert a.Keys == b.Keys;
    forall k | k in a ensures a[k] == b[k] {
      assert k in a.Keys;
      var i := LastExists(rows, k);
    }
  }

  lemma OneMoreRow<K(!new), V>(m: map<K, V>, rows: seq<(K, V)>, k: K, v: V)
    requires HoldsRows(m, rows)
    ensures HoldsRows(m[k := v], rows + [(k, v)])
  {
    var all := rows + [(k, v)];
    assert all[|rows|] == (k, v) && forall i :: 0 <= i < |rows| ==> all[i] == rows[i];
    assert (set i | 0 <= i < |all| :: all[i].0) == (set i | 0 <= i < |rows| :: rows[i].0) + {k};
    forall x, i: nat | IsLast(all, x, i) ensures x in m[k := v] && m[k := v][x] == all[i].1 {
      if i < |rows| {
        assert all[|rows|].0 != x;
        assert IsLast(rows, x, i);
      }
    }
  }
}
