/** Remainders: the few facts about `%` the other modules need. */
module Modular {
  lemma MulBound(d: int, m: int)
    requires -m < d * m < m
    ensures d == 0
  {}

  /** Quotient and remainder are unique. */
  lemma ModUnique(a: int, m: nat, q: int, r: int)
    requires m > 0 && 0 <= r < m && a == q * m + r
    ensures a % m == r && a / m == q
  {
    var q', r' := a / m, a % m;
    assert a == q' * m + r';
    assert (q - q') * m == q * m - q' * m == r' - r;
    MulBound(q - q', m);
  }

  lemma ModAddMultiple(x: int, k: int, m: nat)
    requires m > 0
    ensures (x + k * m) % m == x % m
  {
    var q, r := x / m, x % m;
    assert x == q * m + r;
    assert (q + k) * m == q * m + k * m;
    ModUnique(x + k * m, m, q + k, r);
  }

  lemma ModMulLeft(a: int, b: int, m: nat)
    requires m > 0
    ensures ((a % m) * b) % m == (a * b) % m
  {
    var q, r := a / m, a % m;
    assert a == q * m + r;
    assert a * b == r * b + (q * b) * m by {
      assert (q * m + r) * b == q * m * b + r * b;
      assert q * m * b == (q * b) * m;
    }
    ModAddMultiple(r * b, q * b, m);
  }

  lemma ModMulBoth(a: int, b: int, m: nat)
    requires m > 0
    ensures ((a % m) * (b % m)) % m == (a * b) % m
  {
    ModMulLeft(a, b % m, m);
    assert a * (b % m) == (b % m) * a && a * b == b * a;
    ModMulLeft(b, a, m);
  }

  /** Products of congruent factors are congruent. */
  lemma ModMulCongruent(a: int, a': int, b: int, b': int, m: nat)
    requires m > 0 && a % m == a' % m && b % m == b' % m
    ensures (a * b) % m == (a' * b') % m
  {
    ModMulBoth(a, b, m);
    ModMulBoth(a', b', m);
  }

  lemma MulMonotone(a: nat, b: nat, c: nat, d: nat)
    requires a <= c && b <= d
    ensures a * b <= c * d
  {}

  lemma ModAddLeft(a: int, b: int, m: nat)
    requires m > 0
    ensures ((a % m) + b) % m == (a + b) % m
  {
    var q, r := a / m, a % m;
    assert a == q * m + r;
    ModAddMultiple(r + b, q, m);
  }

  /** Reducing modulo a multiple first does not change a remainder. */
  lemma ModMod(a: nat, m: nat, c: nat)
    requires m > 0 && c > 0
    ensures (a % (m * c)) % m == a % m
  {
    var q, r := a / (m * c), a % (m * c);
    var q', r' := r / m, r % m;
    assert a == q * (m * c) + r && r == q' * m + r';
    assert a == (q * c + q') * m + r';
    ModUnique(a, m, q * c + q', r');
  }

  lemma DoubleProduct(x: nat, y: nat)
    ensures x * (2 * y) == 2 * (x * y)
  {}

  /** A factor with an inverse can be undone. */
  lemma ModUndone(x: int, f: int, g: int, k: int, m: nat)
    requires m > 0 && f * g == 1 + k * m
    ensures ((x * f) % m) * g % m == x % m
  {
    ModMulLeft(x * f, g, m);
    calc {
      x * f * g;
      x * (f * g);
      x * (1 + k * m);
      x + (x * k) * m;
    }
    ModAddMultiple(x, x * k, m);
  }
}
