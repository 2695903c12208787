/** The polynomial rolling hash of crates/clawdesk-acp/src/delta_stream.rs, modulo the Mersenne
  * prime 2^61 - 1, with the accumulated power that makes a checkpoint resumable. */
module RollingHash {
  import opened Modular

  type Byte = b: int | 0 <= b < 256

  const M: nat := 0x1FFF_FFFF_FFFF_FFFF
  const BASE: nat := 131
  const U64: nat := 0x1_0000_0000_0000_0000
  const U128: nat := 0x1_0000_0000_0000_0000_0000_0000_0000_0000

  // ---------------------------------------------------------------------------------------------
  // What the hash is
  // ---------------------------------------------------------------------------------------------

  function Power(b: nat, e: nat): nat {
    if e == 0 then 1 else b * Power(b, e - 1)
  }

  /** The polynomial of the bytes at BASE, by Horner's rule, without reduction. */
  function Poly(data: seq<Byte>): nat
    decreases |data|
  {
    if data == [] then 0 else Poly(data[..|data| - 1]) * BASE + data[|data| - 1]
  }

  function Hash(data: seq<Byte>): nat {
    Poly(data) % M
  }

  /** The documented form: the sum of data[i] * BASE^(len - 1 - i). */
  function WeightedSum(data: seq<Byte>): nat
    decreases |data|
  {
    if data == [] then 0 else data[0] * Power(BASE, |data| - 1) + WeightedSum(data[1..])
  }

  lemma Associate(x: nat, y: nat, z: nat)
    ensures x * (y * z) == (x * y) * z
  {}

  lemma {:induction false} PowerAdd(b: nat, m: nat, n: nat)
    ensures Power(b, m + n) == Power(b, m) * Power(b, n)
    decreases m
  {
    if m > 0 {
      PowerAdd(b, m - 1, n);
      assert Power(b, m + n) == b * Power(b, (m - 1) + n);
      Associate(b, Power(b, m - 1), Power(b, n));
    }
  }

  lemma {:induction false} PowerSquare(b: nat, e: nat)
    ensures Power(b, 2 * e) == Power(b * b, e)
    decreases e
  {
    if e > 0 {
      PowerSquare(b, e - 1);
      PowerAdd(b, 2, 2 * (e - 1));
      assert Power(b, 2) == b * Power(b, 1) == b * b;
    }
  }

  lemma {:induction false} PowerOfMod(b: nat, e: nat)
    ensures Power(b % M, e) % M == Power(b, e) % M
    decreases e
  {
    if e > 0 {
      PowerOfMod(b, e - 1);
      ModMulBoth(b % M, Power(b % M, e - 1), M);
      ModMulBoth(b, Power(b, e - 1), M);
    }
  }

  /** H(S || C) = H(S) * BASE^|C| + H(C), on the polynomials themselves. */
  lemma {:induction false} PolyConcat(s: seq<Byte>, c: seq<Byte>)
    ensures Poly(s + c) == Poly(s) * Power(BASE, |c|) + Poly(c)
    decreases |c|
  {
    if c == [] {
      assert s + c == s;
    } else {
      var c', x := c[..|c| - 1], c[|c| - 1];
      PolyConcat(s, c');
      assert (s + c)[..|s + c| - 1] == s + c';
      assert Power(BASE, |c|) == BASE * Power(BASE, |c'|);
      assert (Poly(s) * Power(BASE, |c'|)) * BASE == Poly(s) * (BASE * Power(BASE, |c'|));
    }
  }

  /** Horner's rule computes the documented sum. */
  lemma {:induction false} PolyIsWeightedSum(data: seq<Byte>)
    ensures Poly(data) == WeightedSum(data)
    decreases |data|
  {
    if data != [] {
      PolyIsWeightedSum(data[1..]);
      PolyConcat([data[0]], data[1..]);
      assert [data[0]] + data[1..] == data;
      assert [data[0]][..0] == [];
      assert Poly([data[0]]) == data[0];
    }
  }

  /** The base is 131. */
  lemma HashOfTwo(a: Byte, b: Byte)
    ensures Hash([a, b]) == 131 * a + b
  {
    assert [a, b][..1] == [a] && [a][..0] == [];
    assert Poly([a]) == a;
  }

  /** The modulus is 2^61 - 1. */
  lemma ModulusIsMersenne()
    ensures M == Power(2, 61) - 1
  {
    assert Power(2, 3) == 8;
    DoublePower(3, 8);
    DoublePower(6, 64);
    DoublePower(12, 4096);
    DoublePower(24, 16777216);
    PowerAdd(2, 48, 12);
    assert Power(2, 61) == 2 * Power(2, 60);
  }

  lemma DoublePower(e: nat, p: nat)
    requires Power(2, e) == p
    ensures Power(2, 2 * e) == p * p
  {
    PowerAdd(2, e, e);
  }

  // ---------------------------------------------------------------------------------------------
  // Modular arithmetic as computed
  // ---------------------------------------------------------------------------------------------

  function ModMul(a: nat, b: nat): nat {
    (a * b) % M
  }

  function ModAdd(a: nat, b: nat): nat {
    (a + b) % M
  }

  /** The 128-bit intermediate never overflows on 64-bit operands. */
  lemma ModMulFits(a: nat, b: nat)
    requires a < U64 && b < U64
    ensures a * b < U128
  {
    MulMonotone(a, b, U64 - 1, U64 - 1);
  }

  /** Binary exponentiation. */
  method ModPow(base0: nat, exp0: nat) returns (result: nat)
    ensures result == Power(base0, exp0) % M
  {
    if exp0 == 0 {
      return 1;
    }
    var base: nat, exp: nat := base0 % M, exp0;
    result := 1;
    PowerOfMod(base0, exp0);
    while exp > 0
      invariant result < M
      invariant (result * Power(base, exp)) % M == Power(base0, exp0) % M
    {
      ghost var r0, b0, e0 := result, base, exp;
      if exp % 2 == 1 {
        result := ModMul(result, base);
      }
      exp := exp / 2;
      if exp > 0 {
        base := ModMul(base, base);
      }
      SquareStep(r0, b0, e0);
    }
  }

  /** One round of binary exponentiation keeps the product it stands for. */
  lemma SquareStep(r: nat, b: nat, e: nat)
    requires e > 0
    ensures var r' := if e % 2 == 1 then ModMul(r, b) else r;
            var b' := if e / 2 > 0 then ModMul(b, b) else b;
            (r' * Power(b', e / 2)) % M == (r * Power(b, e)) % M
  {
    var s := if e % 2 == 1 then r * b else r;
    var r' := if e % 2 == 1 then ModMul(r, b) else r;
    var b' := if e / 2 > 0 then ModMul(b, b) else b;
    SplitOddFactor(r, b, e);
    PowerOfMod(b * b, e / 2);
    ModMulCongruent(r', s, Power(b', e / 2), Power(b * b, e / 2), M);
  }

  lemma {:induction false} SplitOddFactor(r: nat, b: nat, e: nat)
    requires e > 0
    ensures r * Power(b, e) == (if e % 2 == 1 then r * b else r) * Power(b * b, e / 2)
  {
    PowerSquare(b, e / 2);
    if e % 2 == 1 {
      var q := Power(b * b, e / 2);
      assert Power(b, e) == b * q;
      assert r * (b * q) == (r * b) * q;
    }
  }

  method HashBytes(data: seq<Byte>) returns (h: nat)
    ensures h == Hash(data)
  {
    h := 0;
    for i := 0 to |data|
      invariant h == Hash(data[..i])
    {
      assert data[..i + 1][..i] == data[..i];
      ModMulLeft(Poly(data[..i]), BASE, M);
      ModAddLeft(Poly(data[..i]) * BASE, data[i], M);
      h := ModAdd(ModMul(h, BASE), data[i]);
    }
    assert data[..|data|] == data;
  }

  // ---------------------------------------------------------------------------------------------
  // The composable hash
  // ---------------------------------------------------------------------------------------------

  datatype HashState = HashState(hash: nat, power: nat)

  const EMPTY_HASH := HashState(0, 1)

  /** What one append does to any state, also one restored from a checkpoint. */
  function Appended(h: HashState, data: seq<Byte>): HashState {
    if data == [] then h
    else HashState(ModAdd(ModMul(h.hash, Power(BASE, |data|) % M), Hash(data)), ModMul(h.power, Power(BASE, |data|) % M))
  }

  /** The state of a given text. */
  function StateOf(text: seq<Byte>): HashState {
    HashState(Hash(text), Power(BASE, |text|) % M)
  }

  /** Appending to the state of a text gives the state of the longer text. */
  lemma AppendedTracks(text: seq<Byte>, data: seq<Byte>)
    ensures Appended(StateOf(text), data) == StateOf(text + data)
  {
    if data == [] {
      assert text + data == text;
    } else {
      var p := Power(BASE, |data|);
      PolyConcat(text, data);
      ModMulBoth(Poly(text), p, M);
      ModAddLeft(Poly(text) * p, Hash(data), M);
      ModAddLeft(Poly(data), Poly(text) * p, M);
      assert (Hash(data) + Poly(text) * p) % M == (Poly(text) * p + Poly(data)) % M;
      PowerAdd(BASE, |text|, |data|);
      ModMulBoth(Power(BASE, |text|), p, M);
    }
  }

  function Flatten(chunks: seq<seq<Byte>>): seq<Byte>
    decreases |chunks|
  {
    if chunks == [] then [] else Flatten(chunks[..|chunks| - 1]) + chunks[|chunks| - 1]
  }

  function AppendAll(h: HashState, chunks: seq<seq<Byte>>): HashState
    decreases |chunks|
  {
    if chunks == [] then h else Appended(AppendAll(h, chunks[..|chunks| - 1]), chunks[|chunks| - 1])
  }

  /** However a text is split into chunks, appending them gives the hash and the power of the text. */
  lemma {:induction false} EverySplitHashesAlike(chunks: seq<seq<Byte>>)
    ensures AppendAll(EMPTY_HASH, chunks) == StateOf(Flatten(chunks))
    decreases |chunks|
  {
    if chunks != [] {
      EverySplitHashesAlike(chunks[..|chunks| - 1]);
      AppendedTracks(Flatten(chunks[..|chunks| - 1]), chunks[|chunks| - 1]);
    }
  }

  /** The hash as an object that is updated in place. */
  class Roller {
    var hash: nat
    var pPower: nat

    function State(): HashState
      reads this
    {
      HashState(hash, pPower)
    }

    constructor ()
      ensures State() == EMPTY_HASH == StateOf([])
    {
      hash, pPower := 0, 1;
    }

    constructor FromData(data: seq<Byte>)
      ensures State() == StateOf(data)
    {
      hash, pPower := 0, 1;
      new;
      AppendedTracks([], data);
      assert [] + data == data;
      Append(data);
    }

    constructor FromCheckpointState(hash: nat, pPower: nat)
      ensures State() == HashState(hash, pPower)
    {
      this.hash, this.pPower := hash, pPower;
    }

    method Append(data: seq<Byte>)
      modifies this
      ensures State() == Appended(old(State()), data)
    {
      if data == [] {
        return;
      }
      var pPow := ModPow(BASE, |data|);
      var chunkHash := HashBytes(data);
      hash := ModAdd(ModMul(hash, pPow), chunkHash);
      pPower := ModMul(pPower, pPow);
    }
  }
}
