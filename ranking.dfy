/**
 * pandas' `nsmallest(k, column)` with its default `keep="first"`: the `k`
 * rows with the smallest key, ties going to the earlier row, returned in
 * ascending key order. Rows are named by their position in the frame.
 */
module Ranking {
  import opened Arith

  /** Row `i` ranks before row `j`: a smaller key, or an equal key and an earlier row. */
  predicate Precedes(keys: seq<real>, i: nat, j: nat)
    requires i < |keys| && j < |keys|
  {
    keys[i] < keys[j] || (keys[i] == keys[j] && i < j)
  }

  /** `r` lists rows of `keys` in strictly increasing rank (hence without repeats). */
  predicate Ranked(keys: seq<real>, r: seq<nat>)
  {
    && (forall p :: 0 <= p < |r| ==> r[p] < |keys|)
    && (forall p, q :: 0 <= p < q < |r| ==> Precedes(keys, r[p], r[q]))
  }

  lemma PrecedesTransitive(keys: seq<real>, i: nat, j: nat, k: nat)
    requires i < |keys| && j < |keys| && k < |keys|
    requires Precedes(keys, i, j) && Precedes(keys, j, k)
    ensures Precedes(keys, i, k)
  {
  }

  /** Places row `x` at its rank among the already ranked rows `r`. */
  function InsertRow(keys: seq<real>, x: nat, r: seq<nat>): (r': seq<nat>)
    requires x < |keys| && Ranked(keys, r) && x !in r
    ensures Ranked(keys, r')
    ensures forall y :: y in r' <==> y == x || y in r
    ensures |r'| == |r| + 1
  {
    if r == [] then [x]
    else if Precedes(keys, x, r[0]) then
      assert forall q :: 0 < q < |r| ==> Precedes(keys, x, r[q]) by {
        forall q | 0 < q < |r| ensures Precedes(keys, x, r[q]) {
          PrecedesTransitive(keys, x, r[0], r[q]);
        }
      }
      [x] + r
    else
      var rest := InsertRow(keys, x, r[1..]);
      assert Precedes(keys, r[0], x);
      assert forall y :: y in rest ==> Precedes(keys, r[0], y) by {
        forall y | y in rest ensures Precedes(keys, r[0], y) {
          if y != x {
            var q :| 0 <= q < |r[1..]| && r[1..][q] == y;
            assert r[q + 1] == y;
          }
        }
      }
      assert r == [r[0]] + r[1..];
      [r[0]] + rest
  }

  /** Rows `0..n-1` in rank order. */
  function RankRows(keys: seq<real>, n: nat): (r: seq<nat>)
    requires n <= |keys|
    ensures Ranked(keys, r)
    ensures forall y: nat :: y in r <==> y < n
    ensures |r| == n
  {
    if n == 0 then [] else InsertRow(keys, n - 1, RankRows(keys, n - 1))
  }

  /** The rows `nsmallest(k)` keeps, in the order it returns them. */
  function Smallest(keys: seq<real>, k: nat): (sel: seq<nat>)
  {
    RankRows(keys, |keys|)[..MinNat(k, |keys|)]
  }

  /**
   * `nsmallest(k)` keeps `min(k, n)` distinct rows in ascending key order, and
   * every row it keeps ranks before every row it drops: its key is smaller,
   * or equal and the kept row comes first.
   */
  lemma SmallestSpec(keys: seq<real>, k: nat)
    ensures |Smallest(keys, k)| == MinNat(k, |keys|)
    ensures Ranked(keys, Smallest(keys, k))
    ensures forall i: nat, j: nat :: i in Smallest(keys, k) && j < |keys| && j !in Smallest(keys, k) ==> Precedes(keys, i, j)
  {
    var all := RankRows(keys, |keys|);
    var sel := Smallest(keys, k);
    var m := MinNat(k, |keys|);
    forall i: nat, j: nat | i in sel && j < |keys| && j !in sel ensures Precedes(keys, i, j) {
      var p :| 0 <= p < |sel| && sel[p] == i;
      assert j in all;
      var q :| 0 <= q < |all| && all[q] == j;
      assert all[p] == i;
    }
  }
}
