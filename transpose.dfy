/**
 * Python's `zip(*rows)`: the transpose of a list of lists, truncated to the
 * shortest row, together with the minimum and maximum row length.
 */
module Transpose {

  /** The length of the shortest row. */
  function MinLen<T>(rows: seq<seq<T>>): (m: nat)
    requires |rows| > 0
    ensures forall j | 0 <= j < |rows| :: m <= |rows[j]|
    ensures exists j :: 0 <= j < |rows| && |rows[j]| == m
  {
    if |rows| == 1 then |rows[0]|
    else
      var m := MinLen(rows[1..]);
      assert forall j | 1 <= j < |rows| :: rows[j] == rows[1..][j - 1];
      if |rows[0]| <= m then |rows[0]| else m
  }

  /** The shortest row depends on the row lengths only. */
  lemma MinLenOfLengths<T, U>(a: seq<seq<T>>, b: seq<seq<U>>)
    requires |a| == |b| > 0
    requires forall j | 0 <= j < |a| :: |a[j]| == |b[j]|
    ensures MinLen(a) == MinLen(b)
  {
    var ja :| 0 <= ja < |a| && |a[ja]| == MinLen(a);
    var jb :| 0 <= jb < |b| && |b[jb]| == MinLen(b);
    assert MinLen(a) <= |a[jb]|;
    assert MinLen(b) <= |b[ja]|;
  }

  /** `max(len(r) for r in rows)`: the length of the longest row. */
  function MaxLen<T>(rows: seq<seq<T>>): (m: nat)
    requires |rows| > 0
    ensures forall j | 0 <= j < |rows| :: |rows[j]| <= m
    ensures exists j :: 0 <= j < |rows| && |rows[j]| == m
  {
    if |rows| == 1 then |rows[0]|
    else
      var m := MaxLen(rows[1..]);
      assert forall j | 1 <= j < |rows| :: rows[j] == rows[1..][j - 1];
      if |rows[0]| >= m then |rows[0]| else m
  }

  predicate AllNonEmpty<T>(rows: seq<seq<T>>)
  {
    forall j | 0 <= j < |rows| :: rows[j] != []
  }

  /** The first element of every row (one tuple produced by `zip`). */
  function Heads<T>(rows: seq<seq<T>>): (h: seq<T>)
    requires AllNonEmpty(rows)
    ensures |h| == |rows| && forall j | 0 <= j < |rows| :: h[j] == rows[j][0]
  {
    seq(|rows|, j requires 0 <= j < |rows| => rows[j][0])
  }

  /** Every row without its first element (what `zip` has left to consume). */
  function Tails<T>(rows: seq<seq<T>>): (t: seq<seq<T>>)
    requires AllNonEmpty(rows)
    ensures |t| == |rows| && forall j | 0 <= j < |rows| :: t[j] == rows[j][1..]
  {
    seq(|rows|, j requires 0 <= j < |rows| => rows[j][1..])
  }

  /**
   * `list(zip(*rows))`, computed the way `zip` runs: take one element from
   * every row while no row is exhausted. Its length is that of the shortest
   * row (zero when there are no rows at all) and tuple `k` lists the `k`-th
   * element of every row in row order.
   */
  function Zip<T>(rows: seq<seq<T>>): (t: seq<seq<T>>)
    ensures |rows| == 0 ==> t == []
    ensures |rows| > 0 ==> |t| == MinLen(rows)
    ensures forall k | 0 <= k < |t| :: |t[k]| == |rows|
    ensures forall k, j | 0 <= k < |t| && 0 <= j < |rows| :: t[k][j] == rows[j][k]
    decreases if |rows| == 0 then 0 else |rows[0]|
  {
    if |rows| == 0 || !AllNonEmpty(rows) then []
    else
      var tails := Tails(rows);
      MinLenTails(rows);
      var rest := Zip(tails);
      PrependHeads(rows, rest);
      [Heads(rows)] + rest
  }

  /** Consuming one element of every row shortens the shortest row by one. */
  lemma MinLenTails<T>(rows: seq<seq<T>>)
    requires |rows| > 0 && AllNonEmpty(rows)
    ensures MinLen(Tails(rows)) == MinLen(rows) - 1
  {
    var tails := Tails(rows);
    var j0 :| 0 <= j0 < |rows| && |rows[j0]| == MinLen(rows);
    var j1 :| 0 <= j1 < |tails| && |tails[j1]| == MinLen(tails);
    assert MinLen(tails) <= |tails[j0]|;
    assert MinLen(rows) <= |rows[j1]|;
  }

  /** Putting the heads in front of the transposed tails transposes the rows. */
  lemma PrependHeads<T>(rows: seq<seq<T>>, rest: seq<seq<T>>)
    requires AllNonEmpty(rows)
    requires forall j | 0 <= j < |rows| :: |rest| < |rows[j]|
    requires forall k | 0 <= k < |rest| :: |rest[k]| == |rows|
    requires forall k, j | 0 <= k < |rest| && 0 <= j < |rows| :: rest[k][j] == Tails(rows)[j][k]
    ensures forall k | 0 <= k < |rest| + 1 :: |([Heads(rows)] + rest)[k]| == |rows|
    ensures forall k, j | 0 <= k < |rest| + 1 && 0 <= j < |rows| :: ([Heads(rows)] + rest)[k][j] == rows[j][k]
  {
    var t := [Heads(rows)] + rest;
    forall k, j | 0 <= k < |t| && 0 <= j < |rows|
      ensures t[k][j] == rows[j][k]
    {
      if k > 0 {
        assert t[k] == rest[k - 1];
        assert Tails(rows)[j] == rows[j][1..];
      }
    }
  }

  /** All rows have length `n`. */
  predicate Rectangular<T>(rows: seq<seq<T>>, n: nat)
  {
    forall j | 0 <= j < |rows| :: |rows[j]| == n
  }

  /** When all rows have length `n`, so does the longest. */
  lemma MaxLenRectangular<T>(rows: seq<seq<T>>, n: nat)
    requires |rows| > 0 && Rectangular(rows, n)
    ensures MaxLen(rows) == n
  {
    var j :| 0 <= j < |rows| && |rows[j]| == MaxLen(rows);
  }

  /**
   * Transposing twice gives the rows back when all rows have the same,
   * non-zero length (or there are no rows at all).
   */
  lemma {:induction false} ZipInvolutive<T>(rows: seq<seq<T>>, n: nat)
    requires n > 0 && Rectangular(rows, n)
    ensures Zip(Zip(rows)) == rows
  {
    if rows != [] {
      var t := Zip(rows);
      assert |t| == n;
      var back := Zip(t);
      assert |back| == |rows|;
      forall j | 0 <= j < |rows|
        ensures back[j] == rows[j]
      {
        assert |back[j]| == n;
        forall k | 0 <= k < n
          ensures back[j][k] == rows[j][k]
        {
          assert back[j][k] == t[k][j];
        }
      }
    }
  }

  /** Without that proviso it fails: two empty rows transpose to nothing, and back to nothing. */
  lemma ZipForgetsEmptyRows(empty: seq<seq<string>>)
    requires empty == [[], []]
    ensures Zip(Zip(empty)) == [] != empty
  {
  }

  /** Transposing the transpose gives every row back, truncated to the shortest one. */
  lemma {:induction false} ZipTruncates<T>(rows: seq<seq<T>>)
    requires |rows| > 0 && MinLen(rows) > 0
    ensures |Zip(Zip(rows))| == |rows|
    ensures forall j | 0 <= j < |rows| :: Zip(Zip(rows))[j] == rows[j][..MinLen(rows)]
  {
    var m := MinLen(rows);
    var t := Zip(rows);
    var back := Zip(t);
    forall j | 0 <= j < |rows|
      ensures back[j] == rows[j][..m]
    {
      forall k | 0 <= k < m
        ensures back[j][k] == rows[j][k]
      {
        assert back[j][k] == t[k][j];
      }
    }
  }
}
