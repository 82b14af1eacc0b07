/** Facts about products, digits and truncation. */
module Arithmetic {

  /** The cast of a float to an integer. */
  function Trunc(v: real): (n: int)
    ensures v >= 0.0 ==> n >= 0 && n as real <= v < n as real + 1.0
  {
    if v >= 0.0 then v.Floor else -((-v).Floor)
  }

  function Min(a: int, b: int): int {
    if a < b then a else b
  }

  function Max(a: int, b: int): int {
    if a < b then b else a
  }

  lemma ProductMonotone(a: int, b: int, k: int)
    requires a <= b && 0 <= k
    ensures a * k <= b * k
  {
  }

  lemma MultipleAtLeast(x: int, n: nat)
    ensures x >= 1 ==> x * n >= n
    ensures x <= -1 ==> x * n + n <= 0
  {
  }

  lemma UniqueDigits(n: nat, a: int, b: int, a': int, b': int)
    requires 0 <= b < n && 0 <= b' < n && a * n + b == a' * n + b'
    ensures a == a' && b == b'
  {
    MultipleAtLeast(a - a', n);
  }

  /** The quotient and remainder of a number given by its digits. */
  lemma DigitsOf(n: int, q: int, r: int)
    requires 0 <= r < n
    ensures (q * n + r) / n == q && (q * n + r) % n == r
  {
    var v := q * n + r;
    UniqueDigits(n, v / n, v % n, q, r);
  }

  /** Counting by one carries into the quotient when the remainder is full. */
  lemma NextDigits(n: int, i: int)
    requires n > 0
    ensures if i % n + 1 == n then (i + 1) / n == i / n + 1 && (i + 1) % n == 0
            else (i + 1) / n == i / n && (i + 1) % n == i % n + 1
  {
    var q, m := i / n, i % n;
    if m + 1 == n {
      Carry(n, i, q);
      UniqueDigits(n, (i + 1) / n, (i + 1) % n, q + 1, 0);
    } else {
      UniqueDigits(n, (i + 1) / n, (i + 1) % n, q, m + 1);
    }
  }

  lemma Carry(n: int, i: int, q: int)
    requires i == q * n + n - 1
    ensures i + 1 == (q + 1) * n
  {
  }

  lemma QuotientNonNegative(n: int, d: int)
    requires 0 <= n && 0 < d
    ensures 0 <= n / d && n / d * d <= n < n / d * d + d
  {
    var q := n / d;
    assert n == q * d + n % d;
    MultipleAtLeast(q, d);
  }
}
