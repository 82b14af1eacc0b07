/** Finite sums of reals. */
module Sums {

  /** f(lo) + ... + f(hi - 1) */
  ghost function Sum(f: int -> real, lo: int, hi: int): real
    decreases hi - lo
  {
    if hi <= lo then 0.0 else Sum(f, lo, hi - 1) + f(hi - 1)
  }

  lemma {:induction false} SumZero(f: int -> real, lo: int, hi: int)
    requires forall i :: lo <= i < hi ==> f(i) == 0.0
    ensures Sum(f, lo, hi) == 0.0
    decreases hi - lo
  {
    if lo < hi {
      SumZero(f, lo, hi - 1);
    }
  }

  lemma {:induction false} SumSplit(f: int -> real, lo: int, mid: int, hi: int)
    requires lo <= mid <= hi
    ensures Sum(f, lo, hi) == Sum(f, lo, mid) + Sum(f, mid, hi)
    decreases hi - mid
  {
    if mid < hi {
      SumSplit(f, lo, mid, hi - 1);
    }
  }

  lemma {:induction false} SumScaled(f: int -> real, g: int -> real, c: real, lo: int, hi: int)
    requires forall i :: lo <= i < hi ==> g(i) == c * f(i)
    ensures Sum(g, lo, hi) == c * Sum(f, lo, hi)
    decreases hi - lo
  {
    if lo < hi {
      SumScaled(f, g, c, lo, hi - 1);
    }
  }

  /** A sum whose terms appear in the opposite order. */
  lemma {:induction false} SumReversed(f: int -> real, g: int -> real, lo: int, hi: int, lo': int)
    requires lo <= hi && forall i :: lo <= i < hi ==> f(i) == g(lo' + hi - 1 - i)
    ensures Sum(f, lo, hi) == Sum(g, lo', lo' + hi - lo)
    decreases hi - lo
  {
    if lo < hi {
      forall i | lo <= i < hi - 1
        ensures f(i) == g(lo' + 1 + (hi - 1) - 1 - i)
      {
      }
      SumReversed(f, g, lo, hi - 1, lo' + 1);
      SumSplit(g, lo', lo' + 1, lo' + hi - lo);
      assert Sum(g, lo', lo' + 1) == Sum(g, lo', lo') + g(lo');
      assert f(hi - 1) == g(lo');
    }
  }

  /** Only the terms at p and p - 1 may be non-zero. */
  lemma SumOfTwo(f: int -> real, n: int, p: int)
    requires forall i :: 0 <= i < n && i != p && i != p - 1 ==> f(i) == 0.0
    ensures Sum(f, 0, n) == (if 0 <= p < n then f(p) else 0.0) + (if 0 <= p - 1 < n then f(p - 1) else 0.0)
  {
    if 0 <= p <= n {
      var lo, hi := if p == 0 then 0 else p - 1, if p == n then n else p + 1;
      SumSplit(f, 0, lo, n);
      SumSplit(f, lo, hi, n);
      SumZero(f, 0, lo);
      SumZero(f, hi, n);
      assert p < n ==> Sum(f, lo, hi) == Sum(f, lo, p) + f(p);
      assert p > 0 ==> Sum(f, lo, p) == Sum(f, lo, p - 1) + f(p - 1);
    } else {
      SumZero(f, 0, n);
    }
  }
}
