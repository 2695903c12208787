/** Sets of small numbers stored one bit each in 64-bit words. */
module Bitmaps {
  import opened Bits
  import opened Modular

  predicate BitAt(words: seq<nat>, pos: nat)
    requires pos / 64 < |words|
  {
    Bit(words[pos / 64], pos % 64)
  }

  ghost function Ones(words: seq<nat>): set<nat> {
    set pos: nat | pos < 64 * |words| && BitAt(words, pos)
  }

  ghost predicate Words(words: seq<nat>) {
    forall i :: 0 <= i < |words| ==> words[i] < WORD
  }

  lemma SetBitAt(words: seq<nat>, pos: nat)
    requires pos < 64 * |words| && Words(words)
    ensures var b := words[pos / 64 := Or(words[pos / 64], Pow2(pos % 64))];
            Words(b) && Ones(b) == Ones(words) + {pos}
  {
    var w, mask := words[pos / 64], Pow2(pos % 64);
    var b := words[pos / 64 := Or(w, mask)];
    Pow2Word();
    Pow2Monotone(pos % 64 + 1, 64);
    OrBound(w, mask, 64);
    forall q: nat | q < 64 * |b| ensures BitAt(b, q) <==> q == pos || BitAt(words, q) {
      if q / 64 == pos / 64 {
        BitOr(w, mask, q % 64);
        BitPow2(pos % 64, q % 64);
      }
    }
  }

  lemma ClearBitAt(words: seq<nat>, pos: nat)
    requires pos < 64 * |words| && Words(words)
    ensures var b := words[pos / 64 := AndNot(words[pos / 64], Pow2(pos % 64))];
            Words(b) && Ones(b) == Ones(words) - {pos}
  {
    var w, mask := words[pos / 64], Pow2(pos % 64);
    var b := words[pos / 64 := AndNot(w, mask)];
    AndNotAtMost(w, mask);
    forall q: nat | q < 64 * |b| ensures BitAt(b, q) <==> q != pos && BitAt(words, q) {
      if q / 64 == pos / 64 {
        BitAndNot(w, mask, q % 64);
        BitPow2(pos % 64, q % 64);
      }
    }
  }

  lemma ZeroOnes(words: seq<nat>)
    requires forall i :: 0 <= i < |words| ==> words[i] == 0
    ensures Ones(words) == {}
  {
    forall pos: nat | pos < 64 * |words| ensures !BitAt(words, pos) {
      BitZero(pos % 64);
    }
  }

  // ---------------------------------------------------------------------------------------------
  // Population count
  // ---------------------------------------------------------------------------------------------

  /** The set bits of w below position n, counted one by one. */
  function CountBits(w: nat, n: nat): nat {
    if n == 0 then 0 else CountBits(w, n - 1) + if Bit(w, n - 1) then 1 else 0
  }

  lemma {:induction false} CountBitsHalf(w: nat, n: nat)
    requires n > 0
    ensures CountBits(w, n) == w % 2 + CountBits(w / 2, n - 1)
  {
    if n == 1 {
      assert CountBits(w, 0) == 0 && CountBits(w / 2, 0) == 0;
    } else {
      CountBitsHalf(w, n - 1);
    }
  }

  lemma {:induction false} PopcountCounts(w: nat, n: nat)
    requires w < Pow2(n)
    ensures Popcount(w) == CountBits(w, n)
    decreases n
  {
    if n > 0 {
      CountBitsHalf(w, n);
      PopcountCounts(w / 2, n - 1);
    }
  }

  /** The set positions below n, counted one by one. */
  function CountBelow(words: seq<nat>, n: nat): nat
    requires n <= 64 * |words|
  {
    if n == 0 then 0 else CountBelow(words, n - 1) + if BitAt(words, n - 1) then 1 else 0
  }

  lemma {:induction false} CountBelowIsSize(words: seq<nat>, n: nat)
    requires n <= 64 * |words|
    ensures |set pos: nat | pos < n && BitAt(words, pos)| == CountBelow(words, n)
  {
    var s := set pos: nat | pos < n && BitAt(words, pos);
    if n == 0 {
      assert s == {};
    } else {
      CountBelowIsSize(words, n - 1);
      var s' := set pos: nat | pos < n - 1 && BitAt(words, pos);
      assert s == if BitAt(words, n - 1) then s' + {n - 1} else s';
    }
  }

  lemma {:induction false} CountInWord(words: seq<nat>, k: nat, j: nat)
    requires k < |words| && j <= 64
    ensures CountBelow(words, 64 * k + j) == CountBelow(words, 64 * k) + CountBits(words[k], j)
    decreases j
  {
    if j > 0 {
      CountInWord(words, k, j - 1);
      ModUnique(64 * k + (j - 1), 64, k, j - 1);
    }
  }

  lemma WordCounts(w: nat)
    requires w < WORD
    ensures Popcount(w) == CountBits(w, 64)
  {
    Pow2Word();
    PopcountCounts(w, 64);
  }

  /** A word adds its population count. */
  lemma WordStep(words: seq<nat>, k: nat, width: nat)
    requires k < |words| && words[k] < WORD && width == 64
    ensures CountBelow(words, 64 * k + width) == CountBelow(words, 64 * k) + Popcount(words[k])
  {
    WordCounts(words[k]);
    CountInWord(words, k, width);
  }

  function Total(words: seq<nat>): nat
    decreases |words|
  {
    if words == [] then 0 else Total(words[..|words| - 1]) + Popcount(words[|words| - 1])
  }

  lemma TotalPrefix(words: seq<nat>, k: nat)
    requires k < |words|
    ensures Total(words[..k + 1]) == Total(words[..k]) + Popcount(words[k])
  {
    assert words[..k + 1][..k] == words[..k];
  }

  lemma {:induction false} TotalCounts(words: seq<nat>, k: nat)
    requires k <= |words| && Words(words)
    ensures Total(words[..k]) == CountBelow(words, 64 * k)
  {
    if k > 0 {
      TotalCounts(words, k - 1);
      TotalPrefix(words, k - 1);
      WordStep(words, k - 1, 64);
    }
  }

  /** Summing the population counts of the words gives the number of members. */
  lemma PopcountIsCardinality(words: seq<nat>)
    requires Words(words)
    ensures Total(words) == |Ones(words)|
  {
    TotalCounts(words, |words|);
    assert words[..|words|] == words;
    CountBelowIsSize(words, 64 * |words|);
    assert Ones(words) == set pos: nat | pos < 64 * |words| && BitAt(words, pos);
  }
}
