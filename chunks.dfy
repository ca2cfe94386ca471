/**
 * The partition that `for i in range(0, n, chunksize): chunk = rows[i:i+chunksize]`
 * makes of a sequence of rows: chunk boundaries, the slices themselves and the
 * running "records attempted" counts.
 */
module Chunks {

  function Min(a: int, b: int): int { if a <= b then a else b }

  /** The rows of the chunks that start at offsets `i`, `i + c`, ... below `|rows|`. */
  function Slices<T>(rows: seq<T>, c: int, i: nat): seq<seq<T>>
    requires c > 0
    decreases |rows| - i
  {
    if i >= |rows| then [] else [rows[i..Min(i + c, |rows|)]] + Slices(rows, c, i + c)
  }

  /** The offsets `range(i, n, c)`. */
  function Offsets(i: nat, n: nat, c: int): (r: seq<nat>)
    requires c > 0
    ensures forall k :: 0 <= k < |r| ==> i <= r[k] < n
    decreases n - i
  {
    if i >= n then [] else [i] + Offsets(i + c, n, c)
  }

  /** The counts logged after each chunk: `i + len(chunk)` for every offset `i`. */
  function Attempted(i: nat, n: nat, c: int): seq<nat>
    requires c > 0
    decreases n - i
  {
    if i >= n then [] else [Min(i + c, n)] + Attempted(i + c, n, c)
  }

  function Concat<T>(parts: seq<seq<T>>): seq<T>
  {
    if parts == [] then [] else parts[0] + Concat(parts[1..])
  }

  /** The chunks cover the remaining rows in order, with no gap and no overlap. */
  lemma {:induction false} SlicesCover<T>(rows: seq<T>, c: int, i: nat)
    requires c > 0 && i <= |rows|
    ensures Concat(Slices(rows, c, i)) == rows[i..]
    decreases |rows| - i
  {
    if i < |rows| {
      var j := Min(i + c, |rows|);
      SlicesCover(rows, c, j);
      if i + c < |rows| {
        assert Slices(rows, c, i) == [rows[i..j]] + Slices(rows, c, j);
      } else {
        assert Slices(rows, c, i + c) == [];
        assert Slices(rows, c, i) == [rows[i..j]] + Slices(rows, c, j);
      }
      assert rows[i..] == rows[i..j] + rows[j..];
    }
  }

  /** Every chunk is non-empty and holds at most `c` rows. */
  lemma {:induction false} SlicesBounded<T>(rows: seq<T>, c: int, i: nat)
    requires c > 0
    ensures forall k :: 0 <= k < |Slices(rows, c, i)| ==> 0 < |Slices(rows, c, i)[k]| <= c
    decreases |rows| - i
  {
    if i < |rows| {
      SlicesBounded(rows, c, i + c);
    }
  }

  /** The k-th offset of the range is `i + k*c`. */
  lemma {:induction false} OffsetAt(i: nat, n: nat, c: int, k: nat)
    requires c > 0 && k < |Offsets(i, n, c)|
    ensures Offsets(i, n, c)[k] == i + k * c
    decreases k
  {
    if k > 0 {
      OffsetAt(i + c, n, c, k - 1);
      assert Offsets(i, n, c)[k] == Offsets(i + c, n, c)[k - 1];
      assert (k - 1) * c + c == k * c;
    }
  }

  /** There are ceil((n - i) / c) chunks. */
  lemma {:induction false} SlicesCount<T>(rows: seq<T>, c: int, i: nat)
    requires c > 0 && i <= |rows|
    ensures |Slices(rows, c, i)| == (|rows| - i + c - 1) / c
    decreases |rows| - i
  {
    var m := |rows| - i;
    if m > 0 {
      assert |Slices(rows, c, i)| == 1 + |Slices(rows, c, i + c)|;
      if i + c <= |rows| {
        SlicesCount(rows, c, i + c);
        CeilStep(m, c);
      } else {
        assert Slices(rows, c, i + c) == [];
        CeilOne(m, c);
      }
    }
  }

  lemma CeilStep(m: int, c: int)
    requires c > 0 && m >= c
    ensures (m + c - 1) / c == 1 + (m - c + c - 1) / c
  {
    DivShift(m - 1, c);
  }

  lemma CeilOne(m: int, c: int)
    requires c > 0 && 0 < m <= c
    ensures (m + c - 1) / c == 1
  {
    DivOne(m + c - 1, c);
  }

  lemma DivShift(a: int, c: int)
    requires c > 0 && a >= 0
    ensures (a + c) / c == 1 + a / c
  {
    var q, r := a / c, a % c;
    assert a == q * c + r && 0 <= r < c;
    assert a + c == (q + 1) * c + r;
    DivUnique(a + c, c, q + 1, r);
  }

  /** The quotient is determined by any decomposition with a remainder below `c`. */
  lemma DivUnique(a: int, c: int, q: int, r: int)
    requires c > 0 && a == q * c + r && 0 <= r < c
    ensures a / c == q
  {
    var q', r' := a / c, a % c;
    assert a == q' * c + r' && 0 <= r' < c;
    assert (q' - q) * c == r - r';
    if q' > q {
      assert (q' - q) * c >= c by { MulAtLeast(q' - q, c); }
    } else if q' < q {
      assert (q - q') * c >= c by { MulAtLeast(q - q', c); }
    }
  }

  lemma MulAtLeast(x: int, c: int)
    requires x >= 1 && c > 0
    ensures x * c >= c
  {
    assert x * c == (x - 1) * c + c;
  }

  lemma DivOne(a: int, c: int)
    requires c > 0 && c <= a < 2 * c
    ensures a / c == 1
  {
  }

  /** The chunks start exactly at the offsets of the range. */
  lemma {:induction false} SlicesAtOffsets<T>(rows: seq<T>, c: int, i: nat)
    requires c > 0
    ensures |Slices(rows, c, i)| == |Offsets(i, |rows|, c)|
    ensures forall k :: 0 <= k < |Offsets(i, |rows|, c)| ==>
      Slices(rows, c, i)[k] == rows[Offsets(i, |rows|, c)[k]..Min(Offsets(i, |rows|, c)[k] + c, |rows|)]
    decreases |rows| - i
  {
    if i < |rows| {
      SlicesAtOffsets(rows, c, i + c);
      assert Slices(rows, c, i) == [rows[i..Min(i + c, |rows|)]] + Slices(rows, c, i + c);
      assert Offsets(i, |rows|, c) == [i] + Offsets(i + c, |rows|, c);
    }
  }

  /** Each logged count is the offset plus the size of its chunk. */
  lemma {:induction false} AttemptedIsOffsetPlusChunk<T>(rows: seq<T>, c: int, i: nat)
    requires c > 0
    ensures |Attempted(i, |rows|, c)| == |Slices(rows, c, i)| == |Offsets(i, |rows|, c)|
    ensures forall k :: 0 <= k < |Attempted(i, |rows|, c)| ==>
      Attempted(i, |rows|, c)[k] == Offsets(i, |rows|, c)[k] + |Slices(rows, c, i)[k]|
    decreases |rows| - i
  {
    if i < |rows| {
      AttemptedIsOffsetPlusChunk(rows, c, i + c);
    }
  }

  /** The logged counts strictly increase, stay above `i`, and the last one is `n`. */
  lemma {:induction false} AttemptedIncreasing(i: nat, n: nat, c: int)
    requires c > 0
    ensures forall k, l :: 0 <= k < l < |Attempted(i, n, c)| ==> Attempted(i, n, c)[k] < Attempted(i, n, c)[l]
    ensures forall k :: 0 <= k < |Attempted(i, n, c)| ==> i < Attempted(i, n, c)[k] <= n
    ensures i < n ==> |Attempted(i, n, c)| > 0 && Attempted(i, n, c)[|Attempted(i, n, c)| - 1] == n
    decreases n - i
  {
    if i < n {
      AttemptedIncreasing(i + c, n, c);
      var rest := Attempted(i + c, n, c);
      assert forall l :: 0 <= l < |rest| ==> Min(i + c, n) <= i + c < rest[l];
    }
  }

  /** Concatenation distributes over appending parts. */
  lemma {:induction false} ConcatAppend<T>(a: seq<seq<T>>, b: seq<seq<T>>)
    ensures Concat(a + b) == Concat(a) + Concat(b)
    decreases |a|
  {
    if a != [] {
      ConcatAppend(a[1..], b);
      assert (a + b)[1..] == a[1..] + b;
    } else {
      assert a + b == b;
    }
  }
}
