/** Graded capability sets, the quality score and taxonomy similarity
  * (crates/clawdesk-acp/src/capability_algebra.rs). Proficiencies are reals. */
module Algebra {
  import opened Wrappers
  import opened Taxonomy

  type Levels = map<Cap, real>

  function Min(x: real, y: real): real { if x <= y then x else y }

  function Max(x: real, y: real): real { if x <= y then y else x }

  function Clamp(x: real, low: real, high: real): real { Max(low, Min(x, high)) }

  function Proficiency(levels: Levels, c: Cap): real {
    if c in levels then levels[c] else 0.0
  }

  ghost predicate Graded(levels: Levels) {
    forall c :: c in levels ==> 0.0 <= levels[c] <= 1.0
  }

  // ---------------------------------------------------------------------------------------------
  // The lattice
  // ---------------------------------------------------------------------------------------------

  ghost predicate Below(a: Levels, b: Levels) {
    forall c: Cap :: Proficiency(a, c) <= Proficiency(b, c)
  }

  ghost predicate IsMeet(a: Levels, b: Levels, r: Levels) {
    forall c: Cap :: Proficiency(r, c) == Min(Proficiency(a, c), Proficiency(b, c))
  }

  ghost predicate IsJoin(a: Levels, b: Levels, r: Levels) {
    forall c: Cap :: Proficiency(r, c) == Max(Proficiency(a, c), Proficiency(b, c))
  }

  ghost predicate LowerBound(a: Levels, b: Levels, r: Levels) {
    Graded(r) && Below(r, a) && Below(r, b)
  }

  ghost predicate UpperBound(a: Levels, b: Levels, r: Levels) {
    Graded(r) && Below(a, r) && Below(b, r)
  }

  ghost predicate GreatestLower(a: Levels, b: Levels, r: Levels) {
    LowerBound(a, b, r) && forall s :: LowerBound(a, b, s) ==> Below(s, r)
  }

  ghost predicate LeastUpper(a: Levels, b: Levels, r: Levels) {
    UpperBound(a, b, r) && forall s :: UpperBound(a, b, s) ==> Below(r, s)
  }

  /** The set that holds one capability. */
  function Only(c: Cap, level: real): Levels { map[c := level] }

  /** The pointwise minimum is the greatest lower bound, and nothing else is. */
  lemma MeetIsGreatestLowerBound(a: Levels, b: Levels, r: Levels)
    requires Graded(a) && Graded(b) && Graded(r)
    ensures IsMeet(a, b, r) <==> GreatestLower(a, b, r)
  {
    if GreatestLower(a, b, r) {
      forall c: Cap ensures Proficiency(r, c) == Min(Proficiency(a, c), Proficiency(b, c)) {
        var s := Only(c, Min(Proficiency(a, c), Proficiency(b, c)));
        assert LowerBound(a, b, s);
        assert Proficiency(s, c) <= Proficiency(r, c);
      }
    }
  }

  /** The levels of both, the larger where they share a capability. */
  function Merged(a: Levels, b: Levels): Levels {
    map c | c in a.Keys + b.Keys :: Max(Proficiency(a, c), Proficiency(b, c))
  }

  /** The pointwise maximum is the least upper bound, and nothing else is. */
  lemma JoinIsLeastUpperBound(a: Levels, b: Levels, r: Levels)
    requires Graded(a) && Graded(b) && Graded(r)
    ensures IsJoin(a, b, r) <==> LeastUpper(a, b, r)
  {
    if LeastUpper(a, b, r) {
      var s := Merged(a, b);
      forall c: Cap ensures Proficiency(s, c) == Max(Proficiency(a, c), Proficiency(b, c)) {}
      assert UpperBound(a, b, s);
      forall c: Cap ensures Proficiency(r, c) == Max(Proficiency(a, c), Proficiency(b, c)) {
        assert Proficiency(r, c) <= Proficiency(s, c);
      }
    }
  }

  class GradedCapSet {
    var levels: Levels

    ghost predicate Valid()
      reads this
    {
      Graded(levels)
    }

    constructor ()
      ensures Valid() && levels == map[]
    {
      levels := map[];
    }

    method Insert(cap: Cap, proficiency: real)
      requires Valid()
      modifies this
      ensures Valid() && levels == old(levels)[cap := Clamp(proficiency, 0.0, 1.0)]
    {
      levels := levels[cap := Clamp(proficiency, 0.0, 1.0)];
    }

    /** A new set; the capabilities are visited in any order, and a zero level is not stored. */
    method Meet(other: GradedCapSet) returns (r: GradedCapSet)
      requires Valid() && other.Valid()
      ensures fresh(r) && r.Valid() && IsMeet(levels, other.levels, r.levels)
      ensures r.levels.Keys == set c | c in levels && Min(levels[c], Proficiency(other.levels, c)) > 0.0
    {
      var kept: Levels := map[];
      var rest := levels.Keys;
      while rest != {}
        invariant Graded(kept) && rest <= levels.Keys
        invariant forall c :: c in kept ==> c in levels && c !in rest
        invariant forall c :: c in levels && c !in rest ==>
          Proficiency(kept, c) == Min(levels[c], Proficiency(other.levels, c)) &&
          (c in kept <==> Min(levels[c], Proficiency(other.levels, c)) > 0.0)
        decreases |rest|
      {
        var cap :| cap in rest;
        rest := rest - {cap};
        var least := Min(levels[cap], Proficiency(other.levels, cap));
        if least > 0.0 {
          kept := kept[cap := Clamp(least, 0.0, 1.0)];
        }
      }
      r := new GradedCapSet();
      r.levels := kept;
    }

    /** Starts from a copy and raises every level that the other set holds higher. */
    method Join(other: GradedCapSet) returns (r: GradedCapSet)
      requires Valid() && other.Valid()
      ensures fresh(r) && r.Valid() && IsJoin(levels, other.levels, r.levels)
      ensures r.levels.Keys == levels.Keys + set c | c in other.levels && other.levels[c] > 0.0
    {
      var joined := levels;
      var rest := other.levels.Keys;
      while rest != {}
        invariant Graded(joined) && rest <= other.levels.Keys
        invariant forall c: Cap :: RaisedAt(joined, levels, other.levels, rest, c)
        decreases |rest|
      {
        var cap :| cap in rest;
        RaiseOne(joined, levels, other.levels, rest, cap);
        rest := rest - {cap};
        if other.levels[cap] > Proficiency(joined, cap) {
          joined := joined[cap := Clamp(other.levels[cap], 0.0, 1.0)];
        }
      }
      AllRaised(joined, levels, other.levels);
      r := new GradedCapSet();
      r.levels := joined;
    }
  }

  /** Where the join of a and b stands at c: raised once b's level was looked at, as in a until then. */
  ghost predicate RaisedAt(joined: Levels, a: Levels, b: Levels, rest: set<Cap>, c: Cap) {
    if c in b && c !in rest
    then Proficiency(joined, c) == Max(Proficiency(a, c), b[c]) && (c in joined <==> c in a || b[c] > 0.0)
    else Proficiency(joined, c) == Proficiency(a, c) && (c in joined <==> c in a)
  }

  lemma RaiseOne(joined: Levels, a: Levels, b: Levels, rest: set<Cap>, cap: Cap)
    requires Graded(a) && Graded(b) && Graded(joined) && cap in rest && cap in b
    requires forall c: Cap :: RaisedAt(joined, a, b, rest, c)
    ensures var more := if b[cap] > Proficiency(joined, cap) then joined[cap := Clamp(b[cap], 0.0, 1.0)] else joined;
      Graded(more) && forall c: Cap :: RaisedAt(more, a, b, rest - {cap}, c)
  {
    var more := if b[cap] > Proficiency(joined, cap) then joined[cap := Clamp(b[cap], 0.0, 1.0)] else joined;
    forall c: Cap ensures RaisedAt(more, a, b, rest - {cap}, c) {
      assert RaisedAt(joined, a, b, rest, c);
    }
  }

  lemma AllRaised(joined: Levels, a: Levels, b: Levels)
    requires Graded(a) && Graded(b) && forall c: Cap :: RaisedAt(joined, a, b, {}, c)
    ensures IsJoin(a, b, joined) && joined.Keys == a.Keys + set c | c in b && b[c] > 0.0
  {
    forall c: Cap
      ensures Proficiency(joined, c) == Max(Proficiency(a, c), Proficiency(b, c))
      ensures c in joined <==> c in a || (c in b && b[c] > 0.0)
    {
      assert RaisedAt(joined, a, b, {}, c);
    }
  }

  // ---------------------------------------------------------------------------------------------
  // The quality score
  // ---------------------------------------------------------------------------------------------

  datatype Requirement = Requirement(capability: Cap, threshold: real, weight: real) {
    ghost predicate Valid() { 0.01 <= threshold <= 1.0 && weight >= 0.0 }
  }

  function NewRequirement(cap: Cap, threshold: real, weight: real): (r: Requirement)
    ensures r.Valid() && r.capability == cap
    ensures 0.01 <= threshold <= 1.0 ==> r.threshold == threshold
    ensures weight >= 0.0 ==> r.weight == weight
  {
    Requirement(cap, Clamp(threshold, 0.01, 1.0), Max(weight, 0.0))
  }

  /** The fields are public; with a threshold of zero the source divides zero by zero. */
  ghost predicate AllDefined(reqs: seq<Requirement>) {
    forall i :: 0 <= i < |reqs| ==> reqs[i].threshold != 0.0
  }

  ghost predicate AllValid(reqs: seq<Requirement>) {
    forall i :: 0 <= i < |reqs| ==> reqs[i].Valid()
  }

  const NEGLIGIBLE: real := 0.0000000001

  ghost function Satisfaction(req: Requirement, levels: Levels): real
    requires req.threshold != 0.0
  {
    Min(Proficiency(levels, req.capability), req.threshold) / req.threshold
  }

  ghost function Term(req: Requirement, levels: Levels): real
    requires req.threshold != 0.0
  {
    req.weight * Satisfaction(req, levels)
  }

  ghost function WeightedSum(reqs: seq<Requirement>, levels: Levels): real
    requires AllDefined(reqs)
    decreases |reqs|
  {
    if reqs == [] then 0.0
    else
      var last := reqs[|reqs| - 1];
      WeightedSum(reqs[..|reqs| - 1], levels) + Term(last, levels)
  }

  ghost function TotalWeight(reqs: seq<Requirement>): real
    decreases |reqs|
  {
    if reqs == [] then 0.0 else TotalWeight(reqs[..|reqs| - 1]) + reqs[|reqs| - 1].weight
  }

  ghost function Quality(reqs: seq<Requirement>, levels: Levels): real
    requires AllDefined(reqs)
  {
    if reqs == [] || TotalWeight(reqs) < NEGLIGIBLE then 1.0 else WeightedSum(reqs, levels) / TotalWeight(reqs)
  }

  method QualityScore(reqs: seq<Requirement>, agent: GradedCapSet) returns (score: real)
    requires AllDefined(reqs)
    ensures score == Quality(reqs, agent.levels)
  {
    if reqs == [] {
      return 1.0;
    }
    var weightedSum, totalWeight := 0.0, 0.0;
    for i := 0 to |reqs|
      invariant weightedSum == WeightedSum(reqs[..i], agent.levels) && totalWeight == TotalWeight(reqs[..i])
    {
      assert reqs[..i + 1][..i] == reqs[..i];
      var req := reqs[i];
      var satisfaction := Min(Proficiency(agent.levels, req.capability), req.threshold) / req.threshold;
      weightedSum := weightedSum + req.weight * satisfaction;
      totalWeight := totalWeight + req.weight;
    }
    assert reqs[..|reqs|] == reqs;
    if totalWeight < NEGLIGIBLE {
      return 1.0;
    }
    score := weightedSum / totalWeight;
  }

  /** One requirement is met to the share of its threshold that the level reaches. */
  lemma {:induction false} QualityOfOne(req: Requirement, levels: Levels)
    requires req.threshold > 0.0 && req.weight >= 0.0000000001
    ensures AllDefined([req])
    ensures var level := if req.capability in levels then levels[req.capability] else 0.0;
      Quality([req], levels) * req.threshold == if level < req.threshold then level else req.threshold
  {
    assert [req][..0] == [];
    assert TotalWeight([req]) == TotalWeight([]) + req.weight;
    assert WeightedSum([req], levels) == WeightedSum([], levels) + Term(req, levels);
    Cancel(req.weight, Satisfaction(req, levels));
    QuotientTimes(Min(Proficiency(levels, req.capability), req.threshold), req.threshold);
  }

  /** Requirements that weigh next to nothing together are as good as none. */
  lemma LightIsMet(reqs: seq<Requirement>, levels: Levels)
    requires AllDefined(reqs) && TotalWeight(reqs) < 0.0000000001
    ensures Quality(reqs, levels) == 1.0
  {}

  lemma Cancel(w: real, x: real)
    requires w > 0.0
    ensures w * x / w == x
  {
    var q := w * x / w;
    assert q * w == w * x;
    if q != x { ProductsDiffer(q, x, w); }
  }

  lemma ProductsDiffer(x: real, y: real, w: real)
    requires w > 0.0 && x != y
    ensures x * w != y * w
  {
    assert (x - y) * w == x * w - y * w;
    if x < y { assert (y - x) * w > 0.0; } else { assert (x - y) * w > 0.0; }
  }

  lemma QuotientTimes(x: real, d: real)
    requires d != 0.0
    ensures x / d * d == x
  {}

  /** Lists of requirements count by their weight. */
  lemma {:induction false} QualityOfLists(a: seq<Requirement>, b: seq<Requirement>, levels: Levels)
    requires AllDefined(a) && AllDefined(b) && TotalWeight(a) >= NEGLIGIBLE && TotalWeight(b) >= NEGLIGIBLE
    ensures AllDefined(a + b) && TotalWeight(a + b) == TotalWeight(a) + TotalWeight(b)
    ensures Quality(a + b, levels) * TotalWeight(a + b) == Quality(a, levels) * TotalWeight(a) + Quality(b, levels) * TotalWeight(b)
  {
    SumsOfLists(a, b, levels);
    QualityTimes(a, levels);
    QualityTimes(b, levels);
    QualityTimes(a + b, levels);
  }

  lemma QualityTimes(reqs: seq<Requirement>, levels: Levels)
    requires AllDefined(reqs) && TotalWeight(reqs) >= NEGLIGIBLE
    ensures Quality(reqs, levels) * TotalWeight(reqs) == WeightedSum(reqs, levels)
  {
    assert reqs != [];
    QuotientTimes(WeightedSum(reqs, levels), TotalWeight(reqs));
  }

  lemma {:induction false} SumsOfLists(a: seq<Requirement>, b: seq<Requirement>, levels: Levels)
    requires AllDefined(a) && AllDefined(b)
    ensures AllDefined(a + b) && TotalWeight(a + b) == TotalWeight(a) + TotalWeight(b)
    ensures WeightedSum(a + b, levels) == WeightedSum(a, levels) + WeightedSum(b, levels)
    decreases |b|
  {
    if b == [] {
      assert a + b == a;
    } else {
      SumsOfLists(a, b[..|b| - 1], levels);
      assert (a + b)[..|a + b| - 1] == a + b[..|b| - 1];
    }
  }

  predicate Satisfies(req: Requirement, levels: Levels) {
    Proficiency(levels, req.capability) >= req.threshold
  }

  predicate SatisfiesAll(reqs: seq<Requirement>, levels: Levels) {
    forall i :: 0 <= i < |reqs| ==> Satisfies(reqs[i], levels)
  }

  lemma QuotientLaws(x: real, y: real, d: real)
    requires d > 0.0 && x <= y
    ensures x / d <= y / d
    ensures x >= 0.0 ==> x / d >= 0.0
    ensures y == d <==> y / d == 1.0
    ensures y < d <==> y / d < 1.0
  {
    var p, q := x / d, y / d;
    assert p * d == x && q * d == y;
    assert (q - p) * d == y - x;
    assert (1.0 - q) * d == d - y;
  }

  lemma ProductLaws(w: real, x: real, y: real)
    requires w >= 0.0 && x <= y
    ensures w * x <= w * y
  {}

  lemma SatisfactionMonotone(req: Requirement, a: Levels, b: Levels)
    requires req.Valid() && Below(a, b)
    ensures Satisfaction(req, a) <= Satisfaction(req, b)
  {}

  lemma {:induction false} SumMonotone(reqs: seq<Requirement>, a: Levels, b: Levels)
    requires AllValid(reqs) && Below(a, b)
    ensures WeightedSum(reqs, a) <= WeightedSum(reqs, b)
    decreases |reqs|
  {
    if reqs != [] {
      var last := reqs[|reqs| - 1];
      SumMonotone(reqs[..|reqs| - 1], a, b);
      SatisfactionMonotone(last, a, b);
      ProductLaws(last.weight, Satisfaction(last, a), Satisfaction(last, b));
    }
  }

  ghost predicate WeightedMet(reqs: seq<Requirement>, levels: Levels) {
    forall i :: 0 <= i < |reqs| && reqs[i].weight > 0.0 ==> Satisfies(reqs[i], levels)
  }

  lemma LastMet(reqs: seq<Requirement>, levels: Levels)
    requires reqs != []
    ensures WeightedMet(reqs, levels) <==>
      WeightedMet(reqs[..|reqs| - 1], levels) &&
      (reqs[|reqs| - 1].weight > 0.0 ==> Satisfies(reqs[|reqs| - 1], levels))
  {}

  /** One requirement contributes its whole weight exactly when it is met or weighs nothing. */
  lemma TermLaws(req: Requirement, levels: Levels)
    requires req.Valid() && Graded(levels)
    ensures 0.0 <= Term(req, levels) <= req.weight
    ensures Term(req, levels) == req.weight <==> (req.weight > 0.0 ==> Satisfies(req, levels))
  {}

  lemma {:induction false} SumBounds(reqs: seq<Requirement>, levels: Levels)
    requires AllValid(reqs) && Graded(levels)
    ensures 0.0 <= WeightedSum(reqs, levels) <= TotalWeight(reqs)
    ensures WeightedSum(reqs, levels) == TotalWeight(reqs) <==> WeightedMet(reqs, levels)
    decreases |reqs|
  {
    if reqs != [] {
      var front := reqs[..|reqs| - 1];
      SumBounds(front, levels);
      TermLaws(reqs[|reqs| - 1], levels);
      LastMet(reqs, levels);
    }
  }

  /** The score lies in [0,1] and is 1 exactly when every requirement that weighs something is met,
    * or the requirements together weigh next to nothing. */
  lemma QualityBounds(reqs: seq<Requirement>, levels: Levels)
    requires AllValid(reqs) && Graded(levels)
    ensures 0.0 <= Quality(reqs, levels) <= 1.0
    ensures Quality(reqs, levels) == 1.0 <==>
      reqs == [] || TotalWeight(reqs) < NEGLIGIBLE || WeightedMet(reqs, levels)
  {
    SumBounds(reqs, levels);
    if reqs != [] && TotalWeight(reqs) >= NEGLIGIBLE {
      QuotientLaws(WeightedSum(reqs, levels), WeightedSum(reqs, levels), TotalWeight(reqs));
    }
  }

  /** More proficiency never scores less. */
  lemma QualityMonotone(reqs: seq<Requirement>, a: Levels, b: Levels)
    requires AllValid(reqs) && Below(a, b)
    ensures Quality(reqs, a) <= Quality(reqs, b)
  {
    SumMonotone(reqs, a, b);
    if reqs != [] && TotalWeight(reqs) >= NEGLIGIBLE {
      QuotientLaws(WeightedSum(reqs, a), WeightedSum(reqs, b), TotalWeight(reqs));
    }
  }

  /** Two agents together score at least as well as either; what they share, at most as well. */
  lemma QualityOfBounds(reqs: seq<Requirement>, a: Levels, b: Levels, meet: Levels, join: Levels)
    requires AllValid(reqs) && IsMeet(a, b, meet) && IsJoin(a, b, join)
    ensures Quality(reqs, meet) <= Min(Quality(reqs, a), Quality(reqs, b))
    ensures Max(Quality(reqs, a), Quality(reqs, b)) <= Quality(reqs, join)
  {
    QualityMonotone(reqs, meet, a);
    QualityMonotone(reqs, meet, b);
    QualityMonotone(reqs, a, join);
    QualityMonotone(reqs, b, join);
  }

  // When the score can be trusted ------------------------------------------------------------------

  /** Some requirement that weighs something asks at least as much of the same capability. */
  ghost predicate Covered(reqs: seq<Requirement>, req: Requirement) {
    exists j :: 0 <= j < |reqs| && Covers(reqs[j], req)
  }

  ghost predicate Covers(other: Requirement, req: Requirement) {
    other.weight > 0.0 && other.capability == req.capability && other.threshold >= req.threshold
  }

  ghost predicate Telling(reqs: seq<Requirement>) {
    reqs == [] ||
    (TotalWeight(reqs) >= NEGLIGIBLE && forall i :: 0 <= i < |reqs| ==> Covered(reqs, reqs[i]))
  }

  ghost predicate Agrees(reqs: seq<Requirement>, levels: Levels)
    requires AllValid(reqs)
  {
    Quality(reqs, levels) == 1.0 <==> SatisfiesAll(reqs, levels)
  }

  /** The highest threshold on c among the requirements that weigh something. */
  ghost function Ceiling(reqs: seq<Requirement>, c: Cap): (r: real)
    requires AllValid(reqs)
    ensures 0.0 <= r <= 1.0
    decreases |reqs|
  {
    if reqs == [] then 0.0
    else
      var last, rest := reqs[|reqs| - 1], Ceiling(reqs[..|reqs| - 1], c);
      if last.weight > 0.0 && last.capability == c then Max(rest, last.threshold) else rest
  }

  lemma NotCovered(reqs: seq<Requirement>, req: Requirement)
    requires reqs != []
    ensures Covered(reqs, req) <==> Covered(reqs[..|reqs| - 1], req) || Covers(reqs[|reqs| - 1], req)
  {}

  lemma {:induction false} CeilingIsHighest(reqs: seq<Requirement>, c: Cap, req: Requirement)
    requires AllValid(reqs) && req.Valid() && req.capability == c && !Covered(reqs, req)
    ensures Ceiling(reqs, c) < req.threshold
    ensures forall j :: 0 <= j < |reqs| && reqs[j].weight > 0.0 && reqs[j].capability == c ==>
      reqs[j].threshold <= Ceiling(reqs, c)
    decreases |reqs|
  {
    if reqs != [] {
      var front, last := reqs[..|reqs| - 1], reqs[|reqs| - 1];
      NotCovered(reqs, req);
      CeilingIsHighest(front, c, req);
      forall j | 0 <= j < |reqs| && reqs[j].weight > 0.0 && reqs[j].capability == c
        ensures reqs[j].threshold <= Ceiling(reqs, c)
      {
        if j < |front| { assert reqs[j] == front[j]; }
      }
    }
  }

  ghost function Asked(reqs: seq<Requirement>): set<Cap> {
    set i | 0 <= i < |reqs| :: reqs[i].capability
  }

  /** Everything at full level, but c only as high as the weighted requirements ask. */
  ghost function JustEnough(reqs: seq<Requirement>, c: Cap): Levels
    requires AllValid(reqs)
  {
    map d | d in Asked(reqs) :: if d == c then Ceiling(reqs, c) else 1.0
  }

  lemma JustEnoughFoolsTheScore(reqs: seq<Requirement>, i: nat)
    requires AllValid(reqs) && i < |reqs| && !Covered(reqs, reqs[i])
    ensures var levels := JustEnough(reqs, reqs[i].capability);
      Graded(levels) && WeightedMet(reqs, levels) && !SatisfiesAll(reqs, levels)
  {
    var c := reqs[i].capability;
    var levels := JustEnough(reqs, c);
    CeilingIsHighest(reqs, c, reqs[i]);
    forall j | 0 <= j < |reqs| && reqs[j].weight > 0.0 ensures Satisfies(reqs[j], levels) {
      assert reqs[j].capability in levels;
    }
    assert reqs[i].capability in levels;
    assert !Satisfies(reqs[i], levels);
  }

  lemma CoveredIsMet(reqs: seq<Requirement>, levels: Levels, i: nat)
    requires i < |reqs| && Covered(reqs, reqs[i]) && WeightedMet(reqs, levels)
    ensures Satisfies(reqs[i], levels)
  {}

  /** A score of 1 means all requirements are met, whoever the agent, exactly when the requirements
    * weigh at least 1e-10 together and none of them is left to a weightless entry. */
  lemma PerfectScoreMeansSatisfied(reqs: seq<Requirement>)
    requires AllValid(reqs)
    ensures (forall levels :: Graded(levels) ==> Agrees(reqs, levels)) <==> Telling(reqs)
  {
    if Telling(reqs) {
      forall levels | Graded(levels) ensures Agrees(reqs, levels) {
        QualityBounds(reqs, levels);
        if reqs != [] && WeightedMet(reqs, levels) {
          forall i | 0 <= i < |reqs| ensures Satisfies(reqs[i], levels) {
            CoveredIsMet(reqs, levels, i);
          }
        }
      }
    } else if TotalWeight(reqs) < NEGLIGIBLE {
      var none: Levels := map[];
      QualityBounds(reqs, none);
      assert !Satisfies(reqs[0], none);
      assert Graded(none) && !Agrees(reqs, none);
    } else {
      var i :| 0 <= i < |reqs| && !Covered(reqs, reqs[i]);
      var levels := JustEnough(reqs, reqs[i].capability);
      JustEnoughFoolsTheScore(reqs, i);
      QualityBounds(reqs, levels);
      assert Graded(levels) && !Agrees(reqs, levels);
    }
  }

  /** In particular when every weight is positive and together they weigh enough. */
  lemma PositiveWeightsTell(reqs: seq<Requirement>, levels: Levels)
    requires AllValid(reqs) && Graded(levels) && TotalWeight(reqs) >= NEGLIGIBLE
    requires forall i :: 0 <= i < |reqs| ==> reqs[i].weight > 0.0
    ensures Quality(reqs, levels) == 1.0 <==> SatisfiesAll(reqs, levels)
  {
    forall i | 0 <= i < |reqs| ensures Covered(reqs, reqs[i]) {
      assert Covers(reqs[i], reqs[i]);
    }
    PerfectScoreMeansSatisfied(reqs);
    assert Agrees(reqs, levels);
  }

  // ---------------------------------------------------------------------------------------------
  // Taxonomy similarity
  // ---------------------------------------------------------------------------------------------

  ghost function Depth(reg: Registry, c: Cap): nat
    requires reg.Valid()
    decreases reg.Height(c)
  {
    match reg.Parent(c)
    case None => 0
    case Some(p) => reg.ParentIsLower(c); 1 + Depth(reg, p)
  }

  ghost function ChainLength(reg: Registry, c: Option<Cap>): nat
    requires reg.Valid()
  {
    match c
    case None => 0
    case Some(x) => 1 + Depth(reg, x)
  }

  method TaxonomyDepth(reg: Registry, cap: Cap) returns (depth: nat)
    requires reg.Valid()
    ensures depth == Depth(reg, cap)
  {
    depth := 0;
    var current := reg.Parent(cap);
    while current.Some?
      invariant depth + ChainLength(reg, current) == Depth(reg, cap)
      decreases ChainLength(reg, current)
    {
      depth := depth + 1;
      current := reg.Parent(current.value);
    }
  }

  /** Collects the chain above a, then walks up from b to the first capability on it. */
  method LowestCommonAncestor(reg: Registry, a: Cap, b: Cap) returns (lca: Option<Cap>)
    requires reg.Valid()
    ensures lca == Lca(reg, a, b)
  {
    var ancestors := [a];
    var current := reg.Parent(a);
    AncestorsUnfold(reg, a);
    while current.Some?
      invariant (set x | x in ancestors) + Chain(reg, current) == Ancestors(reg, a)
      decreases ChainLength(reg, current)
    {
      AncestorsUnfold(reg, current.value);
      ghost var before := set x | x in ancestors;
      ancestors := ancestors + [current.value];
      assert (set x | x in ancestors) == before + {current.value};
      current := reg.Parent(current.value);
    }
    assert forall x: Cap :: x in ancestors <==> x in (set x | x in ancestors);
    var walk := Some(b);
    while walk.Some?
      invariant Lca(reg, a, b) == LcaFrom(reg, a, walk)
      decreases ChainLength(reg, walk)
    {
      if walk.value in ancestors {
        return walk;
      }
      walk := reg.Parent(walk.value);
    }
    lca := None;  // b itself was the first one looked for
  }

  /** The first capability on the way up from b that a implies. */
  ghost function Lca(reg: Registry, a: Cap, b: Cap): Option<Cap>
    requires reg.Valid()
    decreases reg.Height(b)
  {
    if b in Ancestors(reg, a) then Some(b)
    else match reg.Parent(b)
      case None => None
      case Some(p) => reg.ParentIsLower(b); Lca(reg, a, p)
  }

  ghost function LcaFrom(reg: Registry, a: Cap, b: Option<Cap>): Option<Cap>
    requires reg.Valid()
  {
    match b
    case None => None
    case Some(x) => Lca(reg, a, x)
  }

  lemma {:induction false} DepthOfAncestor(reg: Registry, c: Cap, x: Cap)
    requires reg.Valid() && x in Ancestors(reg, c)
    ensures x == c || Depth(reg, x) < Depth(reg, c)
    decreases reg.Height(c)
  {
    if x != c {
      reg.ParentIsLower(c);
      DepthOfAncestor(reg, reg.Parent(c).value, x);
    }
  }

  ghost predicate Common(reg: Registry, a: Cap, b: Cap, x: Cap)
    requires reg.Valid()
  {
    x in Ancestors(reg, a) && x in Ancestors(reg, b)
  }

  lemma {:induction false} LcaImplied(reg: Registry, a: Cap, b: Cap)
    requires reg.Valid()
    ensures Lca(reg, a, b).Some? ==> Common(reg, a, b, Lca(reg, a, b).value)
    decreases reg.Height(b)
  {
    SelfAndParent(reg, b);
    if b !in Ancestors(reg, a) && reg.Parent(b).Some? {
      reg.ParentIsLower(b);
      LcaImplied(reg, a, reg.Parent(b).value);
      AncestorsUnfold(reg, b);
    }
  }

  /** Every common ancestor is implied by the one found. */
  lemma {:induction false} LcaBelowCommon(reg: Registry, a: Cap, b: Cap, x: Cap)
    requires reg.Valid() && Common(reg, a, b, x)
    ensures Lca(reg, a, b).Some? && x in Ancestors(reg, Lca(reg, a, b).value)
    decreases reg.Height(b)
  {
    if b !in Ancestors(reg, a) {
      reg.ParentIsLower(b);
      LcaBelowCommon(reg, a, reg.Parent(b).value, x);
    }
  }

  /** The walk finds a common ancestor that is deeper than every other one, and finds none only when
    * there is none. */
  lemma LcaIsDeepest(reg: Registry, a: Cap, b: Cap)
    requires reg.Valid()
    ensures Lca(reg, a, b).None? <==> forall x: Cap :: !Common(reg, a, b, x)
    ensures Lca(reg, a, b).Some? ==> Common(reg, a, b, Lca(reg, a, b).value)
    ensures forall x: Cap :: Common(reg, a, b, x) && Some(x) != Lca(reg, a, b) ==>
      Depth(reg, x) < Depth(reg, Lca(reg, a, b).value)
  {
    LcaImplied(reg, a, b);
    forall x: Cap | Common(reg, a, b, x)
      ensures Lca(reg, a, b).Some? && x in Ancestors(reg, Lca(reg, a, b).value)
      ensures x == Lca(reg, a, b).value || Depth(reg, x) < Depth(reg, Lca(reg, a, b).value)
    {
      LcaBelowCommon(reg, a, b, x);
      DepthOfAncestor(reg, Lca(reg, a, b).value, x);
    }
  }

  lemma LcaSymmetric(reg: Registry, a: Cap, b: Cap)
    requires reg.Valid()
    ensures Lca(reg, a, b) == Lca(reg, b, a)
  {
    LcaIsDeepest(reg, a, b);
    LcaIsDeepest(reg, b, a);
    if Lca(reg, a, b).Some? { assert Common(reg, b, a, Lca(reg, a, b).value); }
    if Lca(reg, b, a).Some? { assert Common(reg, a, b, Lca(reg, b, a).value); }
  }

  function Larger(m: nat, n: nat): nat { if m >= n then m else n }

  ghost function Similarity(reg: Registry, a: Cap, b: Cap): real
    requires reg.Valid()
  {
    if a == b then 1.0
    else match Lca(reg, a, b)
      case None => 0.0
      case Some(l) =>
        var deepest := Larger(Depth(reg, a), Depth(reg, b));
        if deepest == 0 then 0.0 else (1.0 + Depth(reg, l) as real) / (1.0 + deepest as real)
  }

  method TaxonomySimilarity(reg: Registry, a: Cap, b: Cap) returns (score: real)
    requires reg.Valid()
    ensures score == Similarity(reg, a, b)
  {
    if a == b {
      return 1.0;
    }
    var lca := LowestCommonAncestor(reg, a, b);
    if lca.None? {
      return 0.0;
    }
    var lcaDepth := TaxonomyDepth(reg, lca.value);
    var depthA := TaxonomyDepth(reg, a);
    var depthB := TaxonomyDepth(reg, b);
    var maxDepth := Larger(depthA, depthB);
    if maxDepth == 0 {
      return 0.0;
    }
    score := (1.0 + lcaDepth as real) / (1.0 + maxDepth as real);
  }

  /** The score for different capabilities with a common ancestor; two roots never get this far. */
  lemma {:induction false} RelatedScore(reg: Registry, a: Cap, b: Cap)
    requires reg.Valid() && a != b && Lca(reg, a, b).Some?
    ensures var deepest := Larger(Depth(reg, a), Depth(reg, b));
      deepest > Depth(reg, Lca(reg, a, b).value) &&
      Similarity(reg, a, b) == (1.0 + Depth(reg, Lca(reg, a, b).value) as real) / (1.0 + deepest as real)
  {
    LcaImplied(reg, a, b);
    DepthOfAncestor(reg, a, Lca(reg, a, b).value);
    DepthOfAncestor(reg, b, Lca(reg, a, b).value);
  }

  ghost predicate Unrelated(reg: Registry, a: Cap, b: Cap)
    requires reg.Valid()
  {
    forall x: Cap :: !Common(reg, a, b, x)
  }

  /** Symmetric, in [0,1], 1 exactly for equal capabilities, 0 exactly for unrelated ones. */
  lemma {:induction false} SimilarityLaws(reg: Registry, a: Cap, b: Cap)
    requires reg.Valid()
    ensures Similarity(reg, a, b) == Similarity(reg, b, a)
    ensures 0.0 <= Similarity(reg, a, b) <= 1.0
    ensures Similarity(reg, a, b) == 1.0 <==> a == b
    ensures Similarity(reg, a, b) == 0.0 <==> Unrelated(reg, a, b)
  {
    LcaSymmetric(reg, a, b);
    LcaIsDeepest(reg, a, b);
    SelfAndParent(reg, a);
    if a == b {
      assert Common(reg, a, b, a);
    } else if Lca(reg, a, b).Some? {
      RelatedScore(reg, a, b);
      FractionBelowOne(Depth(reg, Lca(reg, a, b).value), Larger(Depth(reg, a), Depth(reg, b)));
    }
  }

  lemma {:induction false} AncestorsCount(reg: Registry, c: Cap)
    requires reg.Valid()
    ensures |Ancestors(reg, c)| == Depth(reg, c) + 1
    decreases reg.Height(c)
  {
    if reg.Parent(c).Some? {
      var p := reg.Parent(c).value;
      reg.ParentIsLower(c);
      AncestorsCount(reg, p);
      if c in Ancestors(reg, p) { AncestorsAreLower(reg, p, c); }
    }
  }

  /** The common ancestors are those of the lowest one. */
  lemma CommonAreItsAncestors(reg: Registry, a: Cap, b: Cap)
    requires reg.Valid()
    ensures Ancestors(reg, a) * Ancestors(reg, b) == if Lca(reg, a, b).Some? then Ancestors(reg, Lca(reg, a, b).value) else {}
  {
    LcaIsDeepest(reg, a, b);
    if Lca(reg, a, b).Some? {
      AncestorsTransitive(reg, a, Lca(reg, a, b).value);
      AncestorsTransitive(reg, b, Lca(reg, a, b).value);
    }
    forall x | x in Ancestors(reg, a) * Ancestors(reg, b)
      ensures Lca(reg, a, b).Some? && x in Ancestors(reg, Lca(reg, a, b).value)
    {
      LcaBelowCommon(reg, a, b, x);
    }
  }

  /** What the score is: the capabilities that both imply, as a share of what the one that implies more does. */
  lemma {:induction false} SimilarityIsShare(reg: Registry, a: Cap, b: Cap, x: nat, y: nat, both: nat)
    requires reg.Valid() && x == |Ancestors(reg, a)| && y == |Ancestors(reg, b)|
    requires both == |Ancestors(reg, a) * Ancestors(reg, b)|
    ensures (if x >= y then x else y) > 0 && Similarity(reg, a, b) == both as real / (if x >= y then x else y) as real
  {
    AncestorsCount(reg, a);
    AncestorsCount(reg, b);
    if a == b {
      assert Ancestors(reg, a) * Ancestors(reg, b) == Ancestors(reg, a);
      SharesAsReals(Depth(reg, a), Depth(reg, a));
    } else {
      CommonAreItsAncestors(reg, a, b);
      var l, deepest := Lca(reg, a, b), Larger(Depth(reg, a), Depth(reg, b));
      assert deepest + 1 == if x >= y then x else y;
      if l.Some? {
        AncestorsCount(reg, l.value);
        RelatedScore(reg, a, b);
        SharesAsReals(Depth(reg, l.value), deepest);
      } else {
        SharesAsReals(0, deepest);
      }
    }
  }

  lemma SharesAsReals(k: nat, n: nat)
    ensures (1.0 + k as real) / (1.0 + n as real) == (k + 1) as real / (n + 1) as real
    ensures (n + 1) as real / (n + 1) as real == 1.0 && 0 as real / (n + 1) as real == 0.0
  {}

  lemma FractionBelowOne(k: nat, n: nat)
    requires k < n
    ensures 0.0 < (1.0 + k as real) / (1.0 + n as real) < 1.0
  {
    QuotientLaws(1.0 + k as real, 1.0 + k as real, 1.0 + n as real);
    var q := (1.0 + k as real) / (1.0 + n as real);
    assert q * (1.0 + n as real) == 1.0 + k as real;
  }

  /** Along a chain, similarity to the bottom falls strictly on the way up. */
  lemma {:induction false} NearerAncestorIsMoreSimilar(reg: Registry, c: Cap, near: Cap, far: Cap)
    requires reg.Valid() && near in Ancestors(reg, c) && far in Ancestors(reg, near) && far != near
    ensures Similarity(reg, c, far) < Similarity(reg, c, near)
  {
    AncestorsTransitive(reg, c, near);
    DepthOfAncestor(reg, near, far);
    DepthOfAncestor(reg, c, near);
    SimilarityLaws(reg, c, far);
    if near != c {
      RelatedScore(reg, c, near);
      RelatedScore(reg, c, far);
      FractionGrows(Depth(reg, far), Depth(reg, near), Depth(reg, c));
    }
  }

  lemma FractionGrows(j: nat, k: nat, n: nat)
    requires j < k
    ensures (1.0 + j as real) / (1.0 + n as real) < (1.0 + k as real) / (1.0 + n as real)
  {}
}
