/** Facts about quotients and remainders. */
module Arithmetic {

  /** The number of values of a 64-bit size_t. */
  const SIZE_VALUES: nat := 0x1_0000_0000_0000_0000

  function AtMost(n: nat, limit: nat): (m: nat)
    ensures m <= n && m <= limit && (m == n || m == limit)
  {
    if n < limit then n else limit
  }

  lemma DivModUnique(a: nat, slots: nat, quotient: nat, rest: nat)
    requires a == quotient * slots + rest && rest < slots
    ensures a % slots == rest
  {
    var q, r := a / slots, a % slots;
    assert a == slots * q + r;
    if q < quotient {
      assert (quotient - q) * slots >= slots by { LeMul(1, quotient - q, slots); }
    } else if q > quotient {
      assert (q - quotient) * slots >= slots by { LeMul(1, q - quotient, slots); }
    }
  }

  lemma LeMul(a: nat, b: nat, c: nat)
    requires a <= b
    ensures a * c <= b * c
  {
  }

  /** A remainder may be taken early. */
  lemma ModuloOfStep(v: nat, c: nat, d: nat, n: nat)
    requires n > 0
    ensures (c * (v % n) + d) % n == (c * v + d) % n
  {
    var q, r := v / n, v % n;
    var x := c * r + d;
    var q1, r1 := x / n, x % n;
    var k := c * q;
    assert v == q * n + r;
    Regroup(c, q, n, r, d);
    assert x == q1 * n + r1;
    Distribute(q1, k, n);
    DivModUnique(c * v + d, n, q1 + k, r1);
  }

  lemma Regroup(c: nat, q: nat, n: nat, r: nat, d: nat)
    ensures c * (q * n + r) + d == (c * q) * n + (c * r + d)
  {
  }

  lemma Distribute(a: nat, b: nat, c: nat)
    ensures (a + b) * c == a * c + b * c
  {
  }
}
