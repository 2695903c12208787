/** The capability bit sets of crates/clawdesk-acp/src/capability.rs and the agent card's cached
  * closure (crates/clawdesk-acp/src/agent_card.rs). A set is a fixed number of 64-bit words. */
module Capability {
  import opened Wrappers
  import opened Bits
  import opened Bitmaps
  import opened Sets
  import opened Taxonomy

  type CapSet = seq<nat>  // the words

  ghost predicate Sized(s: CapSet, n: nat) {
    |s| == n && Words(s)
  }

  function Empty(n: nat): (s: CapSet)
    ensures |s| == n && forall i :: 0 <= i < n ==> s[i] == 0
  {
    if n == 0 then [] else Empty(n - 1) + [0]
  }

  /** Panics in the source when the capability lies beyond the words. */
  method Insert(s: CapSet, cap: Cap) returns (r: CapSet)
    requires Words(s) && cap / 64 < |s|
    ensures Sized(r, |s|) && Ones(r) == Ones(s) + {cap}
  {
    SetBitAt(s, cap);
    r := s[cap / 64 := Or(s[cap / 64], Pow2(cap % 64))];
  }

  method Remove(s: CapSet, cap: Cap) returns (r: CapSet)
    requires Words(s)
    ensures Sized(r, |s|) && Ones(r) == Ones(s) - {cap}
  {
    r := s;
    if cap / 64 < |s| {
      ClearBitAt(s, cap);
      r := s[cap / 64 := AndNot(s[cap / 64], Pow2(cap % 64))];
    }
  }

  method Contains(s: CapSet, cap: Cap) returns (b: bool)
    ensures b <==> cap in Ones(s)
  {
    if cap / 64 >= |s| {
      return false;
    }
    AndPow2(s[cap / 64], cap % 64);
    b := And(s[cap / 64], Pow2(cap % 64)) != 0;
  }

  method Intersection(s: CapSet, t: CapSet) returns (r: CapSet)
    requires |s| == |t| && Words(s) && Words(t)
    ensures Sized(r, |s|) && Ones(r) == Ones(s) * Ones(t)
  {
    r := Empty(|s|);
    for i := 0 to |s|
      invariant |r| == |s|
      invariant forall j :: 0 <= j < i ==> r[j] == And(s[j], t[j])
    {
      r := r[i := And(s[i], t[i])];
    }
    forall j | 0 <= j < |s| ensures r[j] < WORD {
      AndAtMost(s[j], t[j]);
    }
    forall p: nat | p < 64 * |s| ensures BitAt(r, p) <==> BitAt(s, p) && BitAt(t, p) {
      BitAnd(s[p / 64], t[p / 64], p % 64);
    }
  }

  method Union(s: CapSet, t: CapSet) returns (r: CapSet)
    requires |s| == |t| && Words(s) && Words(t)
    ensures Sized(r, |s|) && Ones(r) == Ones(s) + Ones(t)
  {
    r := Empty(|s|);
    for i := 0 to |s|
      invariant |r| == |s|
      invariant forall j :: 0 <= j < i ==> r[j] == Or(s[j], t[j])
    {
      r := r[i := Or(s[i], t[i])];
    }
    Pow2Word();
    forall j | 0 <= j < |s| ensures r[j] < WORD {
      OrBound(s[j], t[j], 64);
    }
    forall p: nat | p < 64 * |s| ensures BitAt(r, p) <==> BitAt(s, p) || BitAt(t, p) {
      BitOr(s[p / 64], t[p / 64], p % 64);
    }
  }

  /** Population count is cardinality. */
  method Count(s: CapSet) returns (total: nat)
    requires Words(s)
    ensures total == |Ones(s)|
  {
    total := 0;
    for i := 0 to |s|
      invariant total == Total(s[..i])
    {
      assert s[..i + 1][..i] == s[..i];
      total := total + Popcount(s[i]);
    }
    assert s[..|s|] == s;
    PopcountIsCardinality(s);
  }

  /** Every capability of `done` that is set has its ancestors set, up to the chain still to walk. */
  ghost predicate ClosedUpTo(reg: Registry, members: set<Cap>, done: nat, rest: set<Cap>)
    requires reg.Valid()
  {
    forall c :: c in members && c < done ==> Ancestors(reg, c) <= members + rest
  }

  /** Walks the parent chain of every capability that is set. */
  method Close(reg: Registry, s: CapSet) returns (closed: CapSet)
    requires reg.Valid() && Words(s) && reg.Size() <= 64 * |s|
    ensures Sized(closed, |s|) && Ones(closed) == Closure(reg, Ones(s))
  {
    ClosureExtends(reg, Ones(s));
    ClosureClosed(reg, Ones(s));
    closed := CloseWithin(reg, s, Closure(reg, Ones(s)));
    CompleteIsClosed(reg, Ones(s), Ones(closed));
  }

  method CloseWithin(reg: Registry, s: CapSet, ghost target: set<Cap>) returns (closed: CapSet)
    requires reg.Valid() && Words(s) && reg.Size() <= 64 * |s|
    requires Ones(s) <= target && Closed(reg, target)
    ensures Sized(closed, |s|) && Ones(s) <= Ones(closed) <= target
    ensures ClosedUpTo(reg, Ones(closed), reg.Size(), {})
  {
    closed := s;
    for cap := 0 to reg.Size()
      invariant Sized(closed, |s|) && Ones(s) <= Ones(closed) <= target
      invariant ClosedUpTo(reg, Ones(closed), cap, {})
    {
      var present := Contains(closed, cap);
      if present {
        closed := WalkChain(reg, closed, cap, target);
      }
    }
  }

  /** Sets every ancestor of one capability. */
  method WalkChain(reg: Registry, s: CapSet, cap: Cap, ghost target: set<Cap>) returns (closed: CapSet)
    requires reg.Valid() && Words(s) && cap < reg.Size() <= 64 * |s|
    requires cap in Ones(s) && Ones(s) <= target && Closed(reg, target) && ClosedUpTo(reg, Ones(s), cap, {})
    ensures Sized(closed, |s|) && Ones(s) <= Ones(closed) <= target
    ensures ClosedUpTo(reg, Ones(closed), cap + 1, {})
  {
    closed := s;
    var current := reg.Parent(cap);
    AncestorsUnfold(reg, cap);
    while current.Some?
      invariant Sized(closed, |s|) && Ones(s) <= Ones(closed) <= target
      invariant current.Some? ==> current.value in target && current.value < reg.Size()
      invariant ClosedUpTo(reg, Ones(closed), cap + 1, Chain(reg, current))
      decreases if current.Some? then reg.Height(current.value) + 1 else 0
    {
      var parent := current.value;
      AncestorsUnfold(reg, parent);
      closed := Insert(closed, parent);
      current := reg.Parent(parent);
      if current.Some? { reg.ParentIsLower(parent); }
    }
  }

  lemma CompleteIsClosed(reg: Registry, s: set<Cap>, t: set<Cap>)
    requires reg.Valid() && s <= t <= Closure(reg, s) && ClosedUpTo(reg, t, reg.Size(), {})
    ensures t == Closure(reg, s)
  {}

  // ---------------------------------------------------------------------------------------------
  // Scores
  // ---------------------------------------------------------------------------------------------

  /** The share of the required capabilities that is held; 1 when nothing is required. */
  ghost function Overlap(held: set<Cap>, required: set<Cap>): real {
    if required == {} then 1.0 else |held * required| as real / |required| as real
  }

  method OverlapScore(s: CapSet, required: CapSet) returns (score: real)
    requires |s| == |required| && Words(s) && Words(required)
    ensures score == Overlap(Ones(s), Ones(required))
  {
    var n := Count(required);
    if n == 0 {
      return 1.0;
    }
    var both := Intersection(s, required);
    var k := Count(both);
    score := k as real / n as real;
  }

  lemma OverlapBounds(held: set<Cap>, required: set<Cap>)
    ensures 0.0 <= Overlap(held, required) <= 1.0
    ensures Overlap(held, required) == 1.0 <==> required <= held
  {
    if required != {} {
      var both := held * required;
      assert required == both + (required - both);
      assert |required| == |both| + |required - both|;
      RatioIsOne(|both|, |required|);
      if |both| == |required| {
        assert required - both == {};
      }
      if required <= held {
        assert both == required;
      }
    }
  }

  /** Each required capability earns an equal share, and nothing else earns any. */
  lemma OverlapStep(held: set<Cap>, required: set<Cap>, c: Cap)
    requires required != {} && c !in held
    ensures Overlap({}, required) == 0.0
    ensures c in required ==> Overlap(held + {c}, required) == Overlap(held, required) + 1.0 / |required| as real
    ensures c !in required ==> Overlap(held + {c}, required) == Overlap(held, required)
  {
    assert {} * required == {};
    if c in required {
      assert (held + {c}) * required == held * required + {c};
      OneMoreShare(|held * required|, |required|);
    } else {
      assert (held + {c}) * required == held * required;
    }
  }

  lemma OneMoreShare(k: nat, n: nat)
    requires n > 0
    ensures (k + 1) as real / n as real == k as real / n as real + 1.0 / n as real
  {}

  lemma RatioIsOne(k: nat, n: nat)
    requires k <= n && n > 0
    ensures 0.0 <= k as real / n as real <= 1.0
    ensures k as real / n as real == 1.0 <==> k == n
  {}

  /** Holding more never scores less. */
  lemma OverlapMonotone(a: set<Cap>, b: set<Cap>, required: set<Cap>)
    requires a <= b
    ensures Overlap(a, required) <= Overlap(b, required)
  {
    if required != {} {
      var x, y := a * required, b * required;
      assert y == x + (y - x);
      assert |y| == |x| + |y - x|;
      RatioMonotone(|x|, |y|, |required|);
    }
  }

  lemma RatioMonotone(j: nat, k: nat, n: nat)
    requires j <= k && n > 0
    ensures j as real / n as real <= k as real / n as real
  {}

  /** Collects a list of capabilities into a set. */
  method Collect(caps: seq<Cap>, width: nat) returns (s: CapSet)
    requires forall i :: 0 <= i < |caps| ==> caps[i] < 64 * width
    ensures Sized(s, width) && Ones(s) == SetOf(caps)
  {
    s := Empty(width);
    ZeroOnes(s);
    for i := 0 to |caps|
      invariant Sized(s, width) && Ones(s) == SetOf(caps[..i])
    {
      s := Insert(s, caps[i]);
      assert caps[..i + 1] == caps[..i] + [caps[i]];
    }
    assert caps[..|caps|] == caps;
  }

  /** Every set that fits has words. */
  lemma {:induction false} SomeWords(s: set<Cap>, width: nat) returns (words: CapSet)
    requires forall c :: c in s ==> c < 64 * width
    ensures Sized(words, width) && Ones(words) == s
    decreases |s|
  {
    if s == {} {
      words := Empty(width);
      ZeroOnes(words);
    } else {
      var c :| c in s;
      var rest := SomeWords(s - {c}, width);
      SetBitAt(rest, c);
      words := rest[c / 64 := Or(rest[c / 64], Pow2(c % 64))];
    }
  }

  /** The card's score against a list of requirements. */
  ghost function CardScore(reg: Registry, offered: seq<Cap>, required: seq<Cap>): real
    requires reg.Valid()
  {
    if required == [] then 1.0 else Overlap(Closure(reg, SetOf(offered)), Closure(reg, SetOf(required)))
  }

  /** Some offered capability implies c. */
  ghost predicate Offers(reg: Registry, offered: seq<Cap>, c: Cap)
    requires reg.Valid()
  {
    Implied(reg, SetOf(offered), c)
  }

  /** A card scores 1 exactly when it offers every required capability, directly or by implication. */
  lemma PerfectCard(reg: Registry, offered: seq<Cap>, required: seq<Cap>)
    requires reg.Valid()
    ensures 0.0 <= CardScore(reg, offered, required) <= 1.0
    ensures CardScore(reg, offered, required) == 1.0 <==> forall c :: c in required ==> Offers(reg, offered, c)
  {
    var held, need := Closure(reg, SetOf(offered)), Closure(reg, SetOf(required));
    OverlapBounds(held, need);
    NeedWithinHeld(reg, SetOf(required), held, SetOf(offered));
    assert forall c :: c in required <==> c in SetOf(required);
  }

  lemma NeedWithinHeld(reg: Registry, need: set<Cap>, held: set<Cap>, offered: set<Cap>)
    requires reg.Valid() && held == Closure(reg, offered)
    ensures Closure(reg, need) <= held <==> need <= held
  {
    ClosureExtends(reg, need);
    ClosureClosed(reg, offered);
    if need <= held { ClosureIsLeast(reg, need, held); }
  }

  // ---------------------------------------------------------------------------------------------
  // The agent card
  // ---------------------------------------------------------------------------------------------

  class AgentCard {
    const reg: Registry
    const width: nat
    var capabilities: seq<Cap>
    var capSet: Option<CapSet>

    /** The cached set, when there is one, is the closure of the list. */
    ghost predicate Valid()
      reads this
    {
      && reg.Valid() && reg.Size() <= 64 * width
      && (forall i :: 0 <= i < |capabilities| ==> capabilities[i] < reg.Size())
      && (capSet.Some? ==> Sized(capSet.value, width) && Ones(capSet.value) == Closure(reg, SetOf(capabilities)))
    }

    constructor (reg: Registry, width: nat)
      requires reg.Valid() && reg.Size() <= 64 * width
      ensures Valid() && capabilities == [] && this.reg == reg && this.width == width
    {
      this.reg, this.width := reg, width;
      capabilities, capSet := [], None;
    }

    method AddCapability(cap: Cap)
      requires Valid() && cap < reg.Size()
      modifies this
      ensures Valid() && capSet.Some?
      ensures capabilities == if cap in old(capabilities) then old(capabilities) else old(capabilities) + [cap]
    {
      if cap !in capabilities {
        capabilities := capabilities + [cap];
        capSet := None;
      }
      RebuildCapset();
    }

    method SetCapabilities(caps: seq<Cap>)
      requires Valid() && forall i :: 0 <= i < |caps| ==> caps[i] < reg.Size()
      modifies this
      ensures Valid() && capSet.Some? && capabilities == caps
    {
      capabilities, capSet := caps, None;
      RebuildCapset();
    }

    method RebuildCapset()
      requires Valid()
      modifies this`capSet
      ensures Valid() && capSet.Some?
    {
      var raw := Collect(capabilities, width);
      var closed := Close(reg, raw);
      capSet := Some(closed);
    }

    /** The closed set, computed on first use. */
    method ClosedCapset() returns (s: CapSet)
      requires Valid()
      modifies this`capSet
      ensures Valid() && capSet == Some(s) && (old(capSet).Some? ==> capSet == old(capSet))
      ensures Sized(s, width) && Ones(s) == Closure(reg, SetOf(capabilities))
    {
      if capSet.None? {
        RebuildCapset();
      }
      s := capSet.value;
    }

    method HasCapability(cap: Cap) returns (b: bool)
      requires Valid()
      modifies this`capSet
      ensures Valid() && (b <==> Offers(reg, capabilities, cap))
    {
      var s := ClosedCapset();
      b := Contains(s, cap);
    }

    method CapabilityScore(required: seq<Cap>) returns (score: real)
      requires Valid() && forall i :: 0 <= i < |required| ==> required[i] < reg.Size()
      modifies this`capSet
      ensures Valid() && score == CardScore(reg, capabilities, required)
    {
      if required == [] {
        return 1.0;
      }
      var offered := ClosedCapset();
      var raw := Collect(required, width);
      var closed := Close(reg, raw);
      score := OverlapScore(offered, closed);
    }
  }

  /** Adding a capability adds exactly what it implies. */
  lemma AddedClosure(reg: Registry, caps: seq<Cap>, cap: Cap)
    requires reg.Valid()
    ensures Closure(reg, SetOf(caps + [cap])) == Closure(reg, SetOf(caps)) + Ancestors(reg, cap)
    ensures cap in caps ==> Ancestors(reg, cap) <= Closure(reg, SetOf(caps))
  {}

  lemma ClosureOfOne(reg: Registry, cap: Cap)
    requires reg.Valid()
    ensures Closure(reg, {cap}) == Ancestors(reg, cap)
  {}
}
