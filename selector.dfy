/**
 * The choice of cycles that `process_files_in_directory` takes from a
 * wavetable of n cycles (serum_to_shapeshifter.py, lines 88-107).
 *
 * The Python code computes `round(i * (n - 1) / 7)` in floating point. The
 * exact value `i * (n - 1) / 7` is a multiple of 1/7, so it is never halfway
 * between two integers, and the integer expression `Nearest` gives the same
 * index without floating point (lemma `NearestIsClosest`).
 */
module CycleSelector {

  /** The index nearest to i * (n - 1) / 7. */
  function Nearest(i: nat, n: nat): int
    requires n >= 1
  {
    (2 * i * (n - 1) + 7) / 14
  }

  /** `range(lo, hi)` as a list. */
  function Range(lo: int, hi: int): (r: seq<int>)
    ensures |r| == if lo <= hi then hi - lo else 0
    ensures forall k | 0 <= k < |r| :: r[k] == lo + k
  {
    if lo < hi then seq(hi - lo, k => lo + k) else []
  }

  /** `[x] * count` as a list. */
  function Repeat(x: int, count: int): (r: seq<int>)
    ensures |r| == if count >= 0 then count else 0
    ensures forall k | 0 <= k < |r| :: r[k] == x
  {
    if count > 0 then seq(count, _ => x) else []
  }

  /** The six interior indices taken from a table of more than eight cycles. */
  function Interior(n: nat): (r: seq<int>)
    requires n > 8
    ensures |r| == 6
  {
    seq(6, k requires 0 <= k < 6 => Nearest(k + 1, n))
  }

  /**
   * The list `indices_to_take` that lines 91-105 build for n cycles, before
   * the assertion on its length at line 107.
   */
  function Selection(n: nat): (r: seq<int>)
    ensures |r| == (if n == 0 then 9 else if n == 8 then 7 else 8)
    ensures r[0] == 0
  {
    [0] + (if n > 8 then Interior(n) + [n - 1]
           else if n == 8 then Range(1, 7)
           else Range(1, n) + Repeat(n - 1, 8 - n))
  }

  /** The imperative construction of `indices_to_take` (append and extend). */
  method SelectIndices(n: nat) returns (indices: seq<int>)
    ensures indices == Selection(n)
  {
    indices := [0];
    if n > 8 {
      var i := 1;
      while i < 7
        invariant 1 <= i <= 7
        invariant indices == [0] + Interior(n)[..i - 1]
      {
        indices := indices + [Nearest(i, n)];
        i := i + 1;
      }
      indices := indices + [n - 1];
    } else if n == 8 {
      indices := indices + Range(1, 7);
    } else {
      indices := indices + Range(1, n);
      indices := indices + Repeat(n - 1, 8 - n);
    }
  }

  /**
   * `Nearest` is within less than one half of i * (n - 1) / 7, on either
   * side, so it is the value `round` returns whatever its tie rule.
   */
  lemma NearestIsClosest(i: nat, n: nat)
    requires n >= 1
    ensures 14 * Nearest(i, n) - 7 < 2 * i * (n - 1) < 14 * Nearest(i, n) + 7
  {
    var m := 2 * i * (n - 1);
    var r := Nearest(i, n);
    assert 14 * r <= m + 7 < 14 * r + 14;
    assert m % 2 == 0 by {
      assert m == 2 * (i * (n - 1));
    }
    assert m != 14 * r - 7 by {
      assert (14 * r - 7) % 2 == 1;
    }
  }

  /** For i <= j the interior indices do not decrease, and they stay within [0, n-1]. */
  lemma NearestMonotone(i: nat, j: nat, n: nat)
    requires n > 8 && 1 <= i <= j <= 6
    ensures 0 <= Nearest(i, n) <= Nearest(j, n) <= n - 1
  {
    var m := n - 1;
    ScaledOrder(i, j, m);
    HalfUpMonotone(2 * i * m, 2 * j * m);
    HalfUpMonotone(2 * j * m, 12 * m);
    assert (12 * m + 7) / 14 <= m;
  }

  lemma ScaledOrder(i: nat, j: nat, m: nat)
    requires i <= j <= 6
    ensures 2 * i * m <= 2 * j * m <= 12 * m
  {
    assert i * m <= j * m;
    assert j * m <= 6 * m;
  }

  /** Adding 7 and dividing by 14 keeps the order of non-negative values. */
  lemma HalfUpMonotone(a: int, b: int)
    requires 0 <= a <= b
    ensures 0 <= (a + 7) / 14 <= (b + 7) / 14
  {
  }

  /**
   * The assertion at line 107 holds exactly when n is neither 0 nor 8:
   * for n == 8 the `elif` branch yields only seven indices, for n == 0 the
   * padding `[n - 1] * 8` yields nine.
   */
  lemma SelectionLength(n: nat)
    ensures |Selection(n)| == 8 <==> n != 0 && n != 8
    ensures n == 8 ==> |Selection(n)| == 7
    ensures n == 0 ==> |Selection(n)| == 9
  {
  }

  /**
   * Whenever the assertion passes, the selection starts at the first
   * cycle, ends at the last, stays within the table and never goes back.
   */
  lemma SelectionWellFormed(n: nat)
    requires n >= 1 && n != 8
    ensures |Selection(n)| == 8
    ensures Selection(n)[0] == 0 && Selection(n)[7] == n - 1
    ensures forall k | 0 <= k < 8 :: 0 <= Selection(n)[k] <= n - 1
    ensures forall j, k | 0 <= j <= k < 8 :: Selection(n)[j] <= Selection(n)[k]
  {
    var s := Selection(n);
    if n > 8 {
      forall j, k | 0 <= j <= k < 8
        ensures 0 <= s[j] <= s[k] <= n - 1
      {
        if 1 <= j && k <= 6 {
          NearestMonotone(j, k, n);
        } else if 1 <= j <= 6 {
          NearestMonotone(j, j, n);
        } else if 1 <= k <= 6 {
          NearestMonotone(k, k, n);
        }
      }
    }
  }

  /** With fewer than eight cycles, every cycle is taken in order and the last one repeats. */
  lemma SelectionSmall(n: nat)
    requires 1 <= n < 8
    ensures |Selection(n)| == 8
    ensures forall k | 0 <= k < 8 :: Selection(n)[k] == if k < n then k else n - 1
  {
  }

  /** Two cycles give [0, 1, 1, 1, 1, 1, 1, 1]; nine cycles give [0, 1, 2, 3, 5, 6, 7, 8]. */
  lemma SelectionExamples()
    ensures Selection(2) == [0, 1, 1, 1, 1, 1, 1, 1]
    ensures Selection(8) == [0, 1, 2, 3, 4, 5, 6]
    ensures Selection(9) == [0, 1, 2, 3, 5, 6, 7, 8]
  {
    assert Interior(9) == [1, 2, 3, 5, 6, 7];
  }
}
