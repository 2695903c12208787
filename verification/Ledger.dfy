/** The delivery ledger of crates/clawdesk-acp/src/streaming.rs (`DeliveryLedger`): two generations
  * of a Bloom filter over 64-bit words.
  *
  * `Gens` is what the two bitmaps stand for: the keys inserted into each generation. The class keeps
  * the bitmaps equal to the positions those keys hash to, and the run lemmas say what that means for
  * the promise "never false negatives within the two-generation window".
  */
module DeliveryLedger {
  import opened Bits
  import opened Bitmaps
  import opened Modular
  import opened Sets

  type Key = seq<nat>  // the bytes of an idempotency key

  const BLOOM_K: nat := 7

  // ---------------------------------------------------------------------------------------------
  // Hashing
  // ---------------------------------------------------------------------------------------------

  /** FNV-1a over the bytes of a key, from a given seed, in wrapping 64-bit arithmetic. */
  function Fnv(seed: nat, key: Key): nat
    decreases |key|
  {
    if key == [] then seed
    else (Xor(Fnv(seed, key[..|key| - 1]), key[|key| - 1]) * 0x100000001b3) % WORD
  }

  /** The i-th probe: (h1 + i * h2) mod m, the sum and product wrapping. */
  function Probe(h1: nat, h2: nat, i: nat, m: nat): (p: nat)
    requires m > 0
    ensures p < m
  {
    ((h1 + i * h2 % WORD) % WORD) % m
  }

  function Positions(key: Key, m: nat): (ps: seq<nat>)
    requires m > 0
    ensures |ps| == BLOOM_K && forall i :: 0 <= i < |ps| ==> ps[i] < m
  {
    var h1, h2 := Fnv(0xcbf29ce484222325, key), Fnv(0x6c62272e07bb0142, key);
    seq(BLOOM_K, i requires 0 <= i < BLOOM_K => Probe(h1, h2, i, m))
  }

  /** The seven positions are an arithmetic progression in 64-bit arithmetic, reduced to the bitmap. */
  lemma PositionsAre(key: Key, m: nat, i: nat)
    requires m > 0 && i < 7
    ensures |Positions(key, m)| == 7
    ensures Positions(key, m)[i] ==
      (Fnv(14695981039346656037, key) + i * Fnv(7809847782465536322, key)) % 0x1_0000_0000_0000_0000 % m
  {
    var h1, h2 := Fnv(14695981039346656037, key), Fnv(7809847782465536322, key);
    ModAddLeft(i * h2, h1, WORD);
  }

  /** The hash starts at the seed, and a byte of 0 multiplies it by the FNV prime. */
  lemma FnvStarts(seed: nat, key: Key)
    ensures Fnv(seed, []) == seed
    ensures Fnv(seed, key + [0]) == Fnv(seed, key) * 1099511628211 % 0x1_0000_0000_0000_0000
  {
    assert (key + [0])[..|key|] == key;
  }

  /** Keys that differ in the last byte alone never have the same hash: the FNV prime is odd. */
  lemma FnvTellsLast(seed: nat, key: Key, a: nat, b: nat)
    requires Fnv(seed, key) < WORD && a < 256 && b < 256 && Fnv(seed, key + [a]) == Fnv(seed, key + [b])
    ensures a == b
  {
    StepUndone(seed, key, a);
    StepUndone(seed, key, b);
    XorTells(Fnv(seed, key), a, b);
  }

  lemma StepUndone(seed: nat, key: Key, a: nat)
    requires Fnv(seed, key) < WORD && a < 256
    ensures Fnv(seed, key + [a]) * 0xce965057aff6957b % WORD == Xor(Fnv(seed, key), a)
  {
    assert (key + [a])[..|key|] == key;
    Mixed(Fnv(seed, key), a);
    FactorUndone(Xor(Fnv(seed, key), a));
  }

  lemma Mixed(h: nat, a: nat)
    requires h < WORD && a < 256
    ensures Xor(h, a) % WORD == Xor(h, a)
  {
    Pow2Word();
    XorFits(h, a, 64);
  }

  lemma FactorUndone(x: nat)
    ensures (x * 0x100000001b3 % WORD) * 0xce965057aff6957b % WORD == x % WORD
  {
    ModUndone(x, 0x100000001b3, 0xce965057aff6957b, 0xce_9650_590f, WORD);
  }

  // ---------------------------------------------------------------------------------------------
  // Bitmaps as sets of positions
  // ---------------------------------------------------------------------------------------------

  /** Tests whether every probed bit is set. */
  method TestAll(bitmap: array<nat>, positions: seq<nat>) returns (b: bool)
    requires forall i :: 0 <= i < |positions| ==> positions[i] < 64 * bitmap.Length
    ensures b <==> SetOf(positions) <= Ones(bitmap[..])
  {
    for n := 0 to |positions|
      invariant forall i :: 0 <= i < n ==> positions[i] in Ones(bitmap[..])
    {
      var pos := positions[n];
      AndPow2(bitmap[pos / 64], pos % 64);
      if And(bitmap[pos / 64], Pow2(pos % 64)) == 0 {
        assert pos in SetOf(positions) && pos !in Ones(bitmap[..]);
        return false;
      }
    }
    return true;
  }

  /** Sets every probed bit, in place. */
  method SetAll(bitmap: array<nat>, positions: seq<nat>)
    requires forall i :: 0 <= i < |positions| ==> positions[i] < 64 * bitmap.Length
    requires Words(bitmap[..])
    modifies bitmap
    ensures Words(bitmap[..]) && Ones(bitmap[..]) == old(Ones(bitmap[..])) + SetOf(positions)
  {
    for n := 0 to |positions|
      invariant Words(bitmap[..])
      invariant Ones(bitmap[..]) == old(Ones(bitmap[..])) + SetOf(positions[..n])
    {
      var pos := positions[n];
      ghost var before := bitmap[..];
      SetBitAt(before, pos);
      bitmap[pos / 64] := Or(bitmap[pos / 64], Pow2(pos % 64));
      assert bitmap[..] == before[pos / 64 := Or(before[pos / 64], Pow2(pos % 64))];
      SetOfAppend(positions, n);
    }
    assert positions[..|positions|] == positions;
  }

  lemma SetOfAppend(ps: seq<nat>, n: nat)
    requires n < |ps|
    ensures SetOf(ps[..n + 1]) == SetOf(ps[..n]) + {ps[n]}
  {}

  // ---------------------------------------------------------------------------------------------
  // What the bitmaps stand for
  // ---------------------------------------------------------------------------------------------

  /** The keys inserted into each generation, oldest first, and how many were ever inserted. */
  datatype Gens = Gens(current: seq<Key>, previous: seq<Key>, total: nat, maxEntries: nat, bits: nat) {
    ghost predicate Valid() {
      maxEntries >= 1 && bits > 0
    }

    /** The answer to "was it delivered": every probe of the key is covered by one generation. */
    ghost predicate Knows(key: Key)
      requires Valid()
    {
      || SetOf(Positions(key, bits)) <= Cover(current, bits)
      || SetOf(Positions(key, bits)) <= Cover(previous, bits)
    }

    /** Marking a key: ignored when known, otherwise inserted, rotating a full generation first. */
    ghost function Mark(key: Key): Gens
      requires Valid()
    {
      if Knows(key) then this else Insert(key)
    }

    function Insert(key: Key): Gens {
      if |current| >= maxEntries then Gens([key], current, total + 1, maxEntries, bits)
      else Gens(current + [key], previous, total + 1, maxEntries, bits)
    }
  }

  /** All positions some key of a generation hashes to. */
  ghost function Cover(keys: seq<Key>, m: nat): set<nat>
    requires m > 0
    decreases |keys|
  {
    if keys == [] then {} else Cover(keys[..|keys| - 1], m) + SetOf(Positions(keys[|keys| - 1], m))
  }

  lemma CoverAppend(keys: seq<Key>, key: Key, m: nat)
    requires m > 0
    ensures Cover(keys + [key], m) == Cover(keys, m) + SetOf(Positions(key, m))
  {}

  lemma {:induction false} CoverHas(keys: seq<Key>, m: nat, i: nat)
    requires m > 0 && i < |keys|
    ensures SetOf(Positions(keys[i], m)) <= Cover(keys, m)
    decreases |keys|
  {
    if i < |keys| - 1 {
      CoverHas(keys[..|keys| - 1], m, i);
    }
  }

  // ---------------------------------------------------------------------------------------------
  // Runs
  // ---------------------------------------------------------------------------------------------

  /** The ledger after marking keys in turn, and the keys for which `mark_delivered` said true. */
  ghost function MarkAll(g: Gens, keys: seq<Key>): Gens
    requires g.Valid()
    ensures MarkAll(g, keys).Valid()
    decreases |keys|
  {
    if keys == [] then g else MarkAll(g, keys[..|keys| - 1]).Mark(keys[|keys| - 1])
  }

  ghost function Accepted(g: Gens, keys: seq<Key>): seq<Key>
    requires g.Valid()
    decreases |keys|
  {
    if keys == [] then []
    else
      var before := MarkAll(g, keys[..|keys| - 1]);
      var log := Accepted(g, keys[..|keys| - 1]);
      var last := keys[|keys| - 1];
      if before.Knows(last) then log else log + [last]
  }

  function Fresh(maxEntries: nat): (g: Gens)
    ensures g.Valid()
  {
    Gens([], [], 0, if maxEntries == 0 then 1 else maxEntries, if maxEntries * 10 < 64 then 64 else maxEntries * 10)
  }

  /** The two generations are the tail of the accepted log: all of it until the first rotation, and
    * from then on more than maxEntries and at most twice maxEntries keys. */
  ghost predicate Tail(g: Gens, log: seq<Key>) {
    && |g.current| <= g.maxEntries && g.total == |log|
    && |g.previous| + |g.current| <= |log|
    && g.previous + g.current == log[|log| - |g.previous| - |g.current|..]
    && (g.previous == [] ==> |g.current| == |log|)
    && (g.previous != [] ==> |g.previous| == g.maxEntries && |g.current| >= 1)
  }

  lemma MarkKeepsTail(g: Gens, log: seq<Key>, key: Key)
    requires g.Valid() && Tail(g, log)
    ensures Tail(g.Mark(key), if g.Knows(key) then log else log + [key])
  {
    if !g.Knows(key) {
      InsertKeepsTail(g, log, key);
    }
  }

  lemma InsertKeepsTail(g: Gens, log: seq<Key>, key: Key)
    requires g.maxEntries >= 1 && Tail(g, log)
    ensures Tail(g.Insert(key), log + [key])
  {
    if |g.current| >= g.maxEntries {
      RotateKeepsTail(g, log, key);
    } else {
      var d := |log| - |g.previous| - |g.current|;
      SuffixAppend(log, d, key);
      assert g.previous + (g.current + [key]) == (g.previous + g.current) + [key];
    }
  }

  lemma RotateKeepsTail(g: Gens, log: seq<Key>, key: Key)
    requires g.maxEntries >= 1 && Tail(g, log) && |g.current| == g.maxEntries
    ensures Tail(Gens([key], g.current, g.total + 1, g.maxEntries, g.bits), log + [key])
  {
    var d := |log| - |g.current|;
    SuffixOfSuffix(g.previous, g.current, log, d - |g.previous|);
    SuffixAppend(log, d, key);
  }

  lemma SuffixAppend(log: seq<Key>, d: nat, key: Key)
    requires d <= |log|
    ensures (log + [key])[d..] == log[d..] + [key]
  {}

  lemma SuffixOfSuffix(xs: seq<Key>, ys: seq<Key>, log: seq<Key>, d: nat)
    requires d <= |log| && log[d..] == xs + ys
    ensures d + |xs| <= |log| && log[d + |xs|..] == ys
  {
    assert |log[d..]| == |log| - d;
    assert log[d + |xs|..] == log[d..][|xs|..];
  }

  lemma {:induction false} RunsKeepTail(g: Gens, keys: seq<Key>)
    requires g.Valid() && Tail(g, [])
    ensures Tail(MarkAll(g, keys), Accepted(g, keys))
    decreases |keys|
  {
    if keys != [] {
      RunsKeepTail(g, keys[..|keys| - 1]);
      MarkKeepsTail(MarkAll(g, keys[..|keys| - 1]), Accepted(g, keys[..|keys| - 1]), keys[|keys| - 1]);
    }
  }

  lemma TailKnown(g: Gens, log: seq<Key>, i: nat)
    requires g.Valid() && Tail(g, log) && i < |log| <= i + g.maxEntries + 1
    ensures g.Knows(log[i])
  {
    var d := |log| - |g.previous| - |g.current|;
    assert i >= d;
    assert log[i] == (g.previous + g.current)[i - d];
    if i - d < |g.previous| {
      CoverHas(g.previous, g.bits, i - d);
    } else {
      CoverHas(g.current, g.bits, i - d - |g.previous|);
    }
  }

  /** Over every run: a key that was accepted is still reported delivered while no more than
    * `max_entries` further keys have been accepted, across any number of rotations. */
  lemma {:induction false} NoFalseNegatives(maxEntries: nat, keys: seq<Key>, i: nat)
    requires
      var log := Accepted(Fresh(maxEntries), keys);
      i < |log| && |log| - 1 - i <= Fresh(maxEntries).maxEntries
    ensures MarkAll(Fresh(maxEntries), keys).Knows(Accepted(Fresh(maxEntries), keys)[i])
  {
    RunsKeepTail(Fresh(maxEntries), keys);
    SettingsKept(Fresh(maxEntries), keys);
    TailKnown(MarkAll(Fresh(maxEntries), keys), Accepted(Fresh(maxEntries), keys), i);
  }

  lemma {:induction false} SettingsKept(g: Gens, keys: seq<Key>)
    requires g.Valid()
    ensures MarkAll(g, keys).maxEntries == g.maxEntries && MarkAll(g, keys).bits == g.bits
    decreases |keys|
  {
    if keys != [] { SettingsKept(g, keys[..|keys| - 1]); }
  }

  /** Over every run: `total_deliveries` counts the true answers. */
  lemma TotalCountsAccepted(maxEntries: nat, keys: seq<Key>)
    ensures MarkAll(Fresh(maxEntries), keys).total == |Accepted(Fresh(maxEntries), keys)|
  {}

  lemma {:induction false} CoverFrom(keys: seq<Key>, m: nat, p: nat) returns (n: nat, j: nat)
    requires m > 0 && p in Cover(keys, m)
    ensures n < |keys| && j < 7 && Positions(keys[n], m)[j] == p
    decreases |keys|
  {
    var last := |keys| - 1;
    if p in Cover(keys[..last], m) {
      n, j := CoverFrom(keys[..last], m, p);
    } else {
      n := last;
      assert p in Positions(keys[last], m);
      j :| 0 <= j < 7 && Positions(keys[last], m)[j] == p;
    }
  }

  /** A key is reported delivered only if each of its seven positions is one of an accepted key that is still in
    * the window of two generations. */
  lemma KnownIsCovered(start: Gens, keys: seq<Key>, key: Key, p: nat) returns (n: nat, j: nat)
    requires start.Valid() && Tail(start, []) && MarkAll(start, keys).Knows(key) && p in Positions(key, start.bits)
    ensures var log := Accepted(start, keys); n < |log| <= n + 2 * start.maxEntries
    ensures j < 7 && Positions(Accepted(start, keys)[n], start.bits)[j] == p
  {
    RunsKeepTail(start, keys);
    SettingsKept(start, keys);
    var g := MarkAll(start, keys);
    assert p in SetOf(Positions(key, g.bits));
    n, j := CoveredFrom(g, Accepted(start, keys), p);
  }

  /** A new ledger has ten bits for each entry, and at least 64, and reports nothing delivered. */
  lemma FreshLedger(maxEntries: nat, key: Key)
    ensures Tail(Fresh(maxEntries), []) && !Fresh(maxEntries).Knows(key)
    ensures Fresh(maxEntries).bits == if maxEntries < 7 then 64 else 10 * maxEntries
    ensures Fresh(maxEntries).maxEntries == maxEntries || (maxEntries == 0 && Fresh(maxEntries).maxEntries == 1)
  {
    var ps := Positions(key, Fresh(maxEntries).bits);
    assert ps[0] in SetOf(ps);
  }

  lemma CoveredFrom(g: Gens, log: seq<Key>, p: nat) returns (n: nat, j: nat)
    requires g.Valid() && Tail(g, log) && (p in Cover(g.previous, g.bits) || p in Cover(g.current, g.bits))
    ensures n < |log| <= n + 2 * g.maxEntries && j < 7 && Positions(log[n], g.bits)[j] == p
  {
    var d := |log| - |g.previous| - |g.current|;
    var at: nat;
    if p in Cover(g.previous, g.bits) {
      at, j := CoverFrom(g.previous, g.bits, p);
    } else {
      at, j := CoverFrom(g.current, g.bits, p);
      at := |g.previous| + at;
    }
    assert (g.previous + g.current)[at] == log[d + at];
    n := d + at;
  }

  lemma UnknownIsOld(g: Gens, log: seq<Key>, i: nat)
    requires g.Valid() && Tail(g, log) && i < |log| && !g.Knows(log[i])
    ensures |log| - i - 1 > g.maxEntries
  {
    if |log| - i - 1 <= g.maxEntries {
      TailKnown(g, log, i);
    }
  }

  /** Two acceptances of one key have more than maxEntries other acceptances between them. */
  ghost predicate OncePerWindow(log: seq<Key>, maxEntries: nat) {
    forall i, j :: 0 <= i < j < |log| && log[i] == log[j] ==> j - i - 1 > maxEntries
  }

  lemma AcceptKeepsOnce(g: Gens, log: seq<Key>, key: Key)
    requires g.Valid() && Tail(g, log) && OncePerWindow(log, g.maxEntries) && !g.Knows(key)
    ensures OncePerWindow(log + [key], g.maxEntries)
  {
    forall i | 0 <= i < |log| && log[i] == key ensures |log| - i - 1 > g.maxEntries {
      UnknownIsOld(g, log, i);
    }
    OnceAppend(log, key, g.maxEntries);
  }

  lemma OnceAppend(log: seq<Key>, key: Key, maxEntries: nat)
    requires OncePerWindow(log, maxEntries)
    requires forall i :: 0 <= i < |log| && log[i] == key ==> |log| - i - 1 > maxEntries
    ensures OncePerWindow(log + [key], maxEntries)
  {}

  lemma {:induction false} RunKeepsOnce(g: Gens, keys: seq<Key>)
    requires g.Valid() && Tail(g, [])
    ensures OncePerWindow(Accepted(g, keys), g.maxEntries)
    decreases |keys|
  {
    if keys != [] {
      var before := keys[..|keys| - 1];
      RunKeepsOnce(g, before);
      RunsKeepTail(g, before);
      SettingsKept(g, before);
      if !MarkAll(g, before).Knows(keys[|keys| - 1]) {
        AcceptKeepsOnce(MarkAll(g, before), Accepted(g, before), keys[|keys| - 1]);
      }
    }
  }

  /** Over every run: exactly-once within the window. No key is accepted again until more than
    * `max_entries` other acceptances have come in between. */
  lemma {:induction false} AcceptedOncePerWindow(maxEntries: nat, keys: seq<Key>)
    ensures OncePerWindow(Accepted(Fresh(maxEntries), keys), Fresh(maxEntries).maxEntries)
  {
    RunKeepsOnce(Fresh(maxEntries), keys);
  }

  // ---------------------------------------------------------------------------------------------
  // The ledger as the source runs it
  // ---------------------------------------------------------------------------------------------

  class Ledger {
    var current: array<nat>
    var previous: array<nat>
    var currentCount: nat
    var totalDeliveries: nat
    const maxEntries: nat
    const numBits: nat
    const numWords: nat
    ghost var gens: Gens

    ghost predicate Valid()
      reads this, current, previous
    {
      && current != previous
      && numBits > 0 && numWords == (numBits + 63) / 64 && maxEntries >= 1
      && current.Length == numWords && previous.Length == numWords
      && Words(current[..]) && Words(previous[..])
      && gens.maxEntries == maxEntries && gens.bits == numBits
      && |gens.current| == currentCount && gens.total == totalDeliveries
      && Ones(current[..]) == Cover(gens.current, numBits)
      && Ones(previous[..]) == Cover(gens.previous, numBits)
    }

    constructor (maxEntries: nat)
      ensures Valid() && gens == Fresh(maxEntries) && fresh(current) && fresh(previous)
    {
      numBits := if maxEntries * 10 < 64 then 64 else maxEntries * 10;
      numWords := ((if maxEntries * 10 < 64 then 64 else maxEntries * 10) + 63) / 64;
      var n := ((if maxEntries * 10 < 64 then 64 else maxEntries * 10) + 63) / 64;
      var cur := new nat[n](_ => 0);
      var prev := new nat[n](_ => 0);
      current, previous := cur, prev;
      currentCount, totalDeliveries := 0, 0;
      this.maxEntries := if maxEntries == 0 then 1 else maxEntries;
      gens := Fresh(maxEntries);
      new;
      ZeroOnes(current[..]);
      ZeroOnes(previous[..]);
    }

    /** True exactly when the key is new to both generations; the key is then inserted. */
    method MarkDelivered(key: Key) returns (isNew: bool)
      requires Valid()
      modifies this, current, previous
      ensures Valid() && gens == old(gens).Mark(key)
      ensures isNew <==> !old(gens).Knows(key)
    {
      var positions := Positions(key, numBits);
      var inCurrent := TestAll(current, positions);
      var inPrevious := TestAll(previous, positions);
      if inCurrent || inPrevious {
        return false;
      }
      if currentCount >= maxEntries {
        Rotate();
      }
      Insert(key, positions);
      return true;
    }

    method Insert(key: Key, positions: seq<nat>)
      requires Valid() && positions == Positions(key, numBits)
      modifies this, current
      ensures Valid() && current == old(current) && previous == old(previous)
      ensures gens == old(gens).(current := old(gens).current + [key], total := old(gens).total + 1)
    {
      SetAll(current, positions);
      CoverAppend(gens.current, key, numBits);
      currentCount := currentCount + 1;
      totalDeliveries := totalDeliveries + 1;
      gens := gens.(current := gens.current + [key], total := gens.total + 1);
    }

    /** Swaps the bitmaps and clears the new current one. */
    method Rotate()
      requires Valid()
      modifies this, previous
      ensures Valid() && gens == old(gens).(current := [], previous := old(gens).current)
      ensures {current, previous} == old({current, previous})
    {
      current, previous := previous, current;
      ghost var kept := previous[..];
      for i := 0 to current.Length
        invariant forall j :: 0 <= j < i ==> current[j] == 0
        invariant previous[..] == kept
        modifies current
      {
        current[i] := 0;
      }
      currentCount := 0;
      gens := gens.(current := [], previous := gens.current);
      ZeroOnes(current[..]);
    }

    method IsDelivered(key: Key) returns (b: bool)
      requires Valid()
      ensures b <==> gens.Knows(key)
    {
      var positions := Positions(key, numBits);
      b := TestAll(current, positions);
      if !b {
        b := TestAll(previous, positions);
      }
    }
  }
}
