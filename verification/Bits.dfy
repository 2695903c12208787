/** Powers of two, and bitwise "and" on naturals, for index masks and machine words. */
module Bits {
  import opened Modular

  function Pow2(k: nat): (r: nat)
    ensures r >= 1
  {
    if k == 0 then 1 else 2 * Pow2(k - 1)
  }

  /** The number of values of a 64-bit word. */
  const WORD: nat := 0x1_0000_0000_0000_0000

  lemma {:induction false} Pow2Add(a: nat, b: nat)
    ensures Pow2(a + b) == Pow2(a) * Pow2(b)
    decreases b
  {
    if b > 0 {
      Pow2Add(a, b - 1);
      assert Pow2(a + b) == 2 * Pow2(a + (b - 1));
      assert Pow2(a) * Pow2(b) == Pow2(a) * (2 * Pow2(b - 1)) == 2 * (Pow2(a) * Pow2(b - 1));
    }
  }

  lemma {:induction false} Pow2Monotone(a: nat, b: nat)
    requires a <= b
    ensures Pow2(a) <= Pow2(b)
    decreases b - a
  {
    if a < b { Pow2Monotone(a, b - 1); }
  }

  lemma Pow2Word()
    ensures Pow2(64) == WORD
  {
    assert Pow2(4) == 16;
    Pow2Add(4, 4);
    assert Pow2(8) == 0x100;
    Pow2Add(8, 8);
    assert Pow2(16) == 0x1_0000;
    Pow2Add(16, 16);
    assert Pow2(32) == 0x1_0000_0000;
    Pow2Add(32, 32);
  }

  /** Bitwise "and", bit by bit from the low end. */
  function And(a: nat, b: nat): nat {
    if a == 0 || b == 0 then 0 else (a % 2) * (b % 2) + 2 * And(a / 2, b / 2)
  }

  /** Bitwise "or". */
  function Or(a: nat, b: nat): nat
    decreases a + b
  {
    if a == 0 then b
    else if b == 0 then a
    else (if a % 2 == 1 then 1 else b % 2) + 2 * Or(a / 2, b / 2)
  }

  /** Bitwise "exclusive or". */
  function Xor(a: nat, b: nat): nat
    decreases a + b
  {
    if a == 0 then b
    else if b == 0 then a
    else (a % 2 + b % 2) % 2 + 2 * Xor(a / 2, b / 2)
  }

  /** The bits of a that b does not have: `a & !b`. */
  function AndNot(a: nat, b: nat): nat {
    if a == 0 then 0
    else (if b % 2 == 1 then 0 else a % 2) + 2 * AndNot(a / 2, b / 2)
  }

  /** Whether bit i is set. */
  predicate Bit(w: nat, i: nat)
    decreases i
  {
    if i == 0 then w % 2 == 1 else Bit(w / 2, i - 1)
  }

  /** The number of set bits (`count_ones`). */
  function Popcount(w: nat): nat {
    if w == 0 then 0 else w % 2 + Popcount(w / 2)
  }

  lemma {:induction false} BitZero(i: nat)
    ensures !Bit(0, i)
    decreases i
  {
    if i > 0 { BitZero(i - 1); }
  }

  lemma {:induction false} BitAnd(a: nat, b: nat, i: nat)
    ensures Bit(And(a, b), i) <==> Bit(a, i) && Bit(b, i)
    decreases i
  {
    if a == 0 || b == 0 {
      BitZero(i);
    } else {
      var low, h := (a % 2) * (b % 2), And(a / 2, b / 2);
      assert a % 2 == 0 || a % 2 == 1;
      assert And(a, b) == low + 2 * h;
      HalfBit(low, h);
      if i > 0 { BitAnd(a / 2, b / 2, i - 1); }
    }
  }

  lemma {:induction false} BitXor(a: nat, b: nat, i: nat)
    ensures Bit(Xor(a, b), i) <==> Bit(a, i) != Bit(b, i)
    decreases i
  {
    if a == 0 || b == 0 {
      BitZero(i);
    } else {
      var low, h := (a % 2 + b % 2) % 2, Xor(a / 2, b / 2);
      HalfBit(low, h);
      if i > 0 { BitXor(a / 2, b / 2, i - 1); }
    }
  }

  /** Exclusive or keeps within n bits. */
  lemma {:induction false} XorFits(a: nat, b: nat, n: nat)
    requires a < Pow2(n) && b < Pow2(n)
    ensures Xor(a, b) < Pow2(n)
    decreases n
  {
    if a != 0 && b != 0 { XorFits(a / 2, b / 2, n - 1); }
  }

  /** Exclusive or with the same number tells numbers apart. */
  lemma {:induction false} XorTells(h: nat, a: nat, b: nat)
    requires Xor(h, a) == Xor(h, b)
    ensures a == b
    decreases h + a + b
  {
    if h > 0 || a > 0 || b > 0 {
      XorParts(h, a);
      XorParts(h, b);
      XorTells(h / 2, a / 2, b / 2);
      LowTells(h % 2, a % 2, b % 2);
    }
  }

  lemma LowTells(h: nat, a: nat, b: nat)
    requires h < 2 && a < 2 && b < 2 && (h + a) % 2 == (h + b) % 2
    ensures a == b
  {}

  lemma XorParts(a: nat, b: nat)
    ensures Xor(a, b) % 2 == (a % 2 + b % 2) % 2 && Xor(a, b) / 2 == Xor(a / 2, b / 2)
  {
    if a == 0 {
      LowBit(b);
    } else if b == 0 {
      LowBit(a);
    } else {
      HalfBit((a % 2 + b % 2) % 2, Xor(a / 2, b / 2));
    }
  }

  lemma LowBit(n: nat)
    ensures n % 2 % 2 == n % 2
  {}

  lemma {:induction false} BitOr(a: nat, b: nat, i: nat)
    ensures Bit(Or(a, b), i) <==> Bit(a, i) || Bit(b, i)
    decreases i
  {
    if a == 0 || b == 0 {
      BitZero(i);
    } else {
      var low, h := if a % 2 == 1 then 1 else b % 2, Or(a / 2, b / 2);
      assert Or(a, b) == low + 2 * h;
      HalfBit(low, h);
      if i > 0 { BitOr(a / 2, b / 2, i - 1); }
    }
  }

  lemma {:induction false} BitAndNot(a: nat, b: nat, i: nat)
    ensures Bit(AndNot(a, b), i) <==> Bit(a, i) && !Bit(b, i)
    decreases i
  {
    if a == 0 {
      BitZero(i);
    } else {
      var low, h := if b % 2 == 1 then 0 else a % 2, AndNot(a / 2, b / 2);
      assert AndNot(a, b) == low + 2 * h;
      HalfBit(low, h);
      if i > 0 { BitAndNot(a / 2, b / 2, i - 1); }
    }
  }

  lemma HalfBit(low: nat, h: nat)
    requires low < 2
    ensures (low + 2 * h) / 2 == h && (low + 2 * h) % 2 == low
  {}

  lemma {:induction false} BitPow2(k: nat, i: nat)
    ensures Bit(Pow2(k), i) <==> i == k
    decreases i
  {
    if k == 0 {
      if i > 0 { BitZero(i - 1); }
    } else if i > 0 {
      assert Pow2(k) / 2 == Pow2(k - 1);
      BitPow2(k - 1, i - 1);
    }
  }

  /** Testing a single-bit mask reads that bit. */
  lemma {:induction false} AndPow2(a: nat, k: nat)
    ensures And(a, Pow2(k)) != 0 <==> Bit(a, k)
    decreases k
  {
    if a == 0 {
      BitZero(k);
    } else if k > 0 {
      assert Pow2(k) / 2 == Pow2(k - 1) && Pow2(k) % 2 == 0;
      AndPow2(a / 2, k - 1);
    }
  }

  lemma {:induction false} AndAtMost(a: nat, b: nat)
    ensures And(a, b) <= a
  {
    if a > 0 && b > 0 {
      AndAtMost(a / 2, b / 2);
      assert b % 2 == 0 || b % 2 == 1;
    }
  }

  lemma {:induction false} AndNotAtMost(a: nat, b: nat)
    ensures AndNot(a, b) <= a
  {
    if a > 0 { AndNotAtMost(a / 2, b / 2); }
  }

  lemma {:induction false} OrBound(a: nat, b: nat, n: nat)
    requires a < Pow2(n) && b < Pow2(n)
    ensures Or(a, b) < Pow2(n)
    decreases n
  {
    if n > 0 && a > 0 && b > 0 {
      OrBound(a / 2, b / 2, n - 1);
    }
  }

  /** Masking with 2^k - 1 is the remainder by 2^k. */
  lemma {:induction false} AndMask(a: nat, k: nat)
    ensures And(a, Pow2(k) - 1) == a % Pow2(k)
    decreases k
  {
    if k == 0 {
    } else if a == 0 {
    } else {
      var h := Pow2(k - 1);
      assert (2 * h - 1) / 2 == h - 1 && (2 * h - 1) % 2 == 1;
      AndMask(a / 2, k - 1);
      HalfMod(a, h);
    }
  }

  lemma HalfMod(a: nat, h: nat)
    requires h > 0
    ensures a % (2 * h) == a % 2 + 2 * ((a / 2) % h)
  {
    var q, r := (a / 2) / h, (a / 2) % h;
    assert a / 2 == q * h + r;
    assert a == a % 2 + 2 * (a / 2);
    assert a == q * (2 * h) + (a % 2 + 2 * r);
    ModUnique(a, 2 * h, q, a % 2 + 2 * r);
  }

  /** A 64-bit counter that wrapped still masks to the true position: the capacity divides 2^64. */
  lemma MaskAfterWrap(n: nat, k: nat)
    requires k <= 64
    ensures And(n % WORD, Pow2(k) - 1) == n % Pow2(k)
  {
    Pow2Word();
    Pow2Add(k, 64 - k);
    AndMask(n % WORD, k);
    ModMod(n, Pow2(k), Pow2(64 - k));
  }

  /** Wrapping subtraction of two 64-bit counters. */
  function WrappingSub(a: nat, b: nat): (r: nat)
    requires a < WORD && b < WORD
  {
    (a - b) % WORD
  }

  /** It recovers the true distance of two counters that are less than 2^64 apart. */
  lemma WrappedDistance(t: nat, h: nat)
    requires h <= t < h + WORD
    ensures WrappingSub(t % WORD, h % WORD) == t - h
  {}

  /** Positions less than m apart fall into different slots. */
  lemma DistinctSlots(i: nat, j: nat, m: nat)
    requires i < j < i + m
    ensures i % m != j % m
  {
    var d := j / m - i / m;
    assert i == (i / m) * m + i % m && j == (j / m) * m + j % m;
    assert d * m == (j / m) * m - (i / m) * m;
    if i % m == j % m {
      MulBound(d, m);
    }
  }
}
