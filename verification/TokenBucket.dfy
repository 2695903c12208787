/** The lock-free token bucket of crates/clawdesk-adapters/src/rate_limit.rs.
  *
  * Every atomic access is a step and the steps of all threads interleave; a weak compare-exchange may
  * also fail for no reason. Amounts are millitokens, rates millitokens per second, times nanoseconds.
  * Floating-point products are exact here, and `as i64` truncates.
  */
module TokenBucket {
  import opened Modular

  const NANOS: nat := 1_000_000_000

  /** What elapsed time is worth: rate * elapsed, truncated; a rate that is not positive adds nothing. */
  function Credit(rate: int, elapsed: nat): (add: nat)
    ensures rate >= 0 ==> add * 1_000_000_000 <= rate * elapsed
  {
    if rate <= 0 then 0 else rate * elapsed / 1_000_000_000
  }

  // ---------------------------------------------------------------------------------------------
  // The interleaved machine
  // ---------------------------------------------------------------------------------------------

  /** Where a thread is inside `try_acquire_n`. */
  datatype Pc =
    | Idle
    | Read(cost: int, now: nat)              // has read the clock
    | Swapped(cost: int, elapsed: nat)       // has swapped last_refill
    | Adding(cost: int, add: nat)            // knows its credit, about to load tokens
    | CasAdd(cost: int, add: nat, cur: int)  // in the refill loop
    | Spending(cost: int)                    // refill done, about to load tokens
    | CasSpend(cost: int, cur: int)          // in the acquire loop

  datatype State = State(capacity: int, rate: int, tokens: int, lastRefill: nat, clock: nat,
                         threads: seq<Pc>, granted: int, timeCredited: nat)

  datatype Step =
    | Tick(nanos: nat)
    | SetRate(rate: int)
    | Begin(t: nat, cost: int)
    | Swap(t: nat)
    | LoadRate(t: nat)
    | LoadForAdd(t: nat)
    | TryAdd(t: nat, spurious: bool)
    | LoadForSpend(t: nat)
    | TrySpend(t: nat, spurious: bool)

  ghost predicate Enabled(s: State, step: Step) {
    match step
    case Tick(_) => true
    case SetRate(_) => true
    case Begin(t, _) => t < |s.threads| && s.threads[t].Idle?
    case Swap(t) => t < |s.threads| && s.threads[t].Read?
    case LoadRate(t) => t < |s.threads| && s.threads[t].Swapped?
    case LoadForAdd(t) => t < |s.threads| && s.threads[t].Adding?
    case TryAdd(t, _) => t < |s.threads| && s.threads[t].CasAdd?
    case LoadForSpend(t) => t < |s.threads| && s.threads[t].Spending?
    case TrySpend(t, _) => t < |s.threads| && s.threads[t].CasSpend?
  }

  function Min(a: int, b: int): int {
    if a <= b then a else b
  }

  ghost function After(s: State, step: Step): State
    requires Enabled(s, step)
  {
    match step
    case Tick(nanos) => s.(clock := s.clock + nanos)
    case SetRate(rate) => s.(rate := rate)
    case Begin(t, cost) => s.(threads := s.threads[t := Read(cost, s.clock)])
    case Swap(t) =>
      var pc := s.threads[t];
      var elapsed := if pc.now >= s.lastRefill then pc.now - s.lastRefill else 0;
      s.(lastRefill := pc.now, threads := s.threads[t := Swapped(pc.cost, elapsed)],
         timeCredited := s.timeCredited + elapsed)
    case LoadRate(t) =>
      var pc := s.threads[t];
      var add := Credit(s.rate, pc.elapsed);
      s.(threads := s.threads[t := if add > 0 then Adding(pc.cost, add) else Spending(pc.cost)])
    case LoadForAdd(t) =>
      var pc := s.threads[t];
      s.(threads := s.threads[t := CasAdd(pc.cost, pc.add, s.tokens)])
    case TryAdd(t, spurious) =>
      var pc := s.threads[t];
      if s.tokens == pc.cur && !spurious
      then s.(tokens := Min(pc.cur + pc.add, s.capacity), threads := s.threads[t := Spending(pc.cost)])
      else s.(threads := s.threads[t := CasAdd(pc.cost, pc.add, s.tokens)])
    case LoadForSpend(t) =>
      var pc := s.threads[t];
      s.(threads := s.threads[t := CasSpend(pc.cost, s.tokens)])
    case TrySpend(t, spurious) =>
      var pc := s.threads[t];
      if pc.cur < pc.cost then s.(threads := s.threads[t := Idle])           // false
      else if s.tokens == pc.cur && !spurious
      then s.(tokens := pc.cur - pc.cost, granted := s.granted + pc.cost, threads := s.threads[t := Idle])  // true
      else s.(threads := s.threads[t := CasSpend(pc.cost, s.tokens)])
  }

  /** A full bucket, nobody in it. */
  ghost predicate Init(s: State) {
    && s.capacity >= 0 && s.tokens == s.capacity && s.lastRefill == 0 && s.timeCredited == 0 && s.granted == 0
    && forall t :: 0 <= t < |s.threads| ==> s.threads[t].Idle?
  }

  ghost predicate Runs(s: State, steps: seq<Step>, end: State)
    decreases |steps|
  {
    if steps == [] then s == end
    else Enabled(s, steps[0]) && Runs(After(s, steps[0]), steps[1..], end)
  }

  // ---------------------------------------------------------------------------------------------
  // Sums over the threads
  // ---------------------------------------------------------------------------------------------

  ghost function Total(f: Pc -> nat, threads: seq<Pc>): nat
    decreases |threads|
  {
    if threads == [] then 0 else Total(f, threads[..|threads| - 1]) + f(threads[|threads| - 1])
  }

  lemma {:induction false} TotalUpdate(f: Pc -> nat, threads: seq<Pc>, t: nat, pc: Pc)
    requires t < |threads|
    ensures Total(f, threads[t := pc]) + f(threads[t]) == Total(f, threads) + f(pc)
    decreases |threads|
  {
    var n := |threads| - 1;
    var changed := threads[t := pc];
    if t == n {
      assert changed[..n] == threads[..n];
    } else {
      TotalUpdate(f, threads[..n], t, pc);
      assert changed[..n] == threads[..n][t := pc];
    }
  }

  lemma {:induction false} TotalIdle(f: Pc -> nat, threads: seq<Pc>)
    requires f(Idle) == 0 && forall t :: 0 <= t < |threads| ==> threads[t].Idle?
    ensures Total(f, threads) == 0
    decreases |threads|
  {
    if threads != [] { TotalIdle(f, threads[..|threads| - 1]); }
  }

  /** Credit a refill knows but has not added yet. */
  function Owed(pc: Pc): nat {
    match pc
    case Adding(_, add) => add
    case CasAdd(_, add, _) => add
    case _ => 0
  }

  /** Elapsed time a refill has claimed but not priced yet. */
  function Unpriced(pc: Pc): nat {
    match pc
    case Swapped(_, elapsed) => elapsed
    case _ => 0
  }

  // ---------------------------------------------------------------------------------------------
  // Conservation
  // ---------------------------------------------------------------------------------------------

  /** What a step earns, in nano-millitokens: the rate a refill loads, times the time it claimed. */
  ghost function Earns(s: State, step: Step): nat
    requires Enabled(s, step)
  {
    if step.LoadRate? && s.rate > 0 then s.rate * s.threads[step.t].elapsed else 0
  }

  /** The sum of rate * elapsed over the refills of a run, each at the rate it found. */
  ghost function Earned(s: State, steps: seq<Step>): nat
    decreases |steps|
  {
    if steps != [] && Enabled(s, steps[0]) then Earns(s, steps[0]) + Earned(After(s, steps[0]), steps[1..]) else 0
  }

  ghost function Account(s: State): int {
    s.granted + s.tokens + Total(Owed, s.threads)
  }

  /** No step makes more tokens than it earns. */
  lemma ConservedStep(s: State, step: Step)
    requires Enabled(s, step)
    ensures 1_000_000_000 * (Account(After(s, step)) - Account(s)) <= Earns(s, step)
  {
    if !step.Tick? && !step.SetRate? {
      TotalUpdate(Owed, s.threads, step.t, After(s, step).threads[step.t]);
    }
  }

  lemma {:induction false} RunConserves(s: State, steps: seq<Step>, end: State)
    requires Runs(s, steps, end)
    ensures 1_000_000_000 * (Account(end) - Account(s)) <= Earned(s, steps)
    decreases |steps|
  {
    if steps != [] {
      ConservedStep(s, steps[0]);
      RunConserves(After(s, steps[0]), steps[1..], end);
    }
  }

  /** For every interleaving, whatever the costs and the rate changes: what was granted and is still
    * held is at most the capacity plus the sum of rate * elapsed over the refills, despite truncation,
    * lost races, spurious failures and clamping. */
  lemma TokensConserved(s: State, steps: seq<Step>, end: State)
    requires Init(s) && Runs(s, steps, end)
    ensures 0 <= end.tokens && 1_000_000_000 * (end.granted + end.tokens - s.capacity) <= Earned(s, steps)
  {
    RunConserves(s, steps, end);
    TotalIdle(Owed, s.threads);
    TokensBounded(s, steps, end);
  }

  // What is lost ---------------------------------------------------------------------------------------------

  /** What a refill adds beyond the capacity is cut off. */
  ghost function Spills(s: State, step: Step): nat
    requires Enabled(s, step)
  {
    if step.TryAdd? && !step.spurious && s.tokens == s.threads[step.t].cur && s.tokens + s.threads[step.t].add > s.capacity
    then s.tokens + s.threads[step.t].add - s.capacity else 0
  }

  ghost function Spilled(s: State, steps: seq<Step>): nat
    decreases |steps|
  {
    if steps != [] && Enabled(s, steps[0]) then Spills(s, steps[0]) + Spilled(After(s, steps[0]), steps[1..]) else 0
  }

  /** The refills that were priced. */
  function Refills(steps: seq<Step>): nat {
    if steps == [] then 0 else Refills(steps[1..]) + if steps[0].LoadRate? then 1 else 0
  }

  /** Truncation takes less than one millitoken. */
  lemma CreditTruncates(rate: int, elapsed: nat)
    ensures rate > 0 ==> Credit(rate, elapsed) * 1_000_000_000 <= rate * elapsed < (Credit(rate, elapsed) + 1) * 1_000_000_000
    ensures rate <= 0 ==> Credit(rate, elapsed) == 0
  {}

  /** No step loses more than the spill and, in a refill, the truncated part of a millitoken. */
  lemma LostStep(s: State, step: Step)
    requires Enabled(s, step)
    ensures 1_000_000_000 * (Account(After(s, step)) + Spills(s, step) - Account(s)) >=
      Earns(s, step) - if step.LoadRate? then 999_999_999 else 0
  {
    if !step.Tick? && !step.SetRate? {
      TotalUpdate(Owed, s.threads, step.t, After(s, step).threads[step.t]);
    }
    if step.LoadRate? { CreditTruncates(s.rate, s.threads[step.t].elapsed); }
  }

  lemma {:induction false} RunLoses(s: State, steps: seq<Step>, end: State)
    requires Runs(s, steps, end)
    ensures 1_000_000_000 * (Account(end) + Spilled(s, steps) - Account(s)) >= Earned(s, steps) - 999_999_999 * Refills(steps)
    decreases |steps|
  {
    if steps != [] {
      LostStep(s, steps[0]);
      RunLoses(After(s, steps[0]), steps[1..], end);
    }
  }

  /** For every interleaving: what was granted, is still held, is still owed by a refill under way and was cut
    * off at the capacity falls short of the capacity plus the sum of rate * elapsed by less than one millitoken
    * for each refill. */
  lemma TokensArrive(s: State, steps: seq<Step>, end: State)
    requires Init(s) && Runs(s, steps, end)
    ensures 1_000_000_000 * (end.granted + end.tokens + Total(Owed, end.threads) + Spilled(s, steps) - s.capacity) >=
      Earned(s, steps) - 999_999_999 * Refills(steps)
  {
    RunLoses(s, steps, end);
    TotalIdle(Owed, s.threads);
  }

  ghost predicate NoNegativeCost(steps: seq<Step>) {
    forall i :: 0 <= i < |steps| && steps[i].Begin? ==> steps[i].cost >= 0
  }

  ghost predicate CostsOk(s: State) {
    forall t :: 0 <= t < |s.threads| && !s.threads[t].Idle? ==> s.threads[t].cost >= 0
  }

  /** Tokens never go below zero; they stay within the capacity while no cost is negative. */
  lemma {:induction false} TokensBounded(s: State, steps: seq<Step>, end: State)
    requires 0 <= s.tokens && 0 <= s.capacity && Runs(s, steps, end)
    ensures 0 <= end.tokens && end.capacity == s.capacity
    ensures s.tokens <= s.capacity && CostsOk(s) && NoNegativeCost(steps) ==> end.tokens <= end.capacity
    decreases |steps|
  {
    if steps != [] {
      if NoNegativeCost(steps) {
        forall i | 0 <= i < |steps| - 1 && steps[1..][i].Begin? ensures steps[1..][i].cost >= 0 {
          assert steps[i + 1].Begin?;
        }
        assert steps[0].Begin? ==> steps[0].cost >= 0;
      }
      TokensBounded(After(s, steps[0]), steps[1..], end);
    }
  }

  // ---------------------------------------------------------------------------------------------
  // Credited time and real time
  // ---------------------------------------------------------------------------------------------

  /** How far a swap sets the last refill instant back. */
  ghost function SetsBack(s: State, step: Step): nat
    requires Enabled(s, step)
  {
    if step.Swap? && s.threads[step.t].now < s.lastRefill then s.lastRefill - s.threads[step.t].now else 0
  }

  ghost function Setback(s: State, steps: seq<Step>): nat
    decreases |steps|
  {
    if steps != [] && Enabled(s, steps[0]) then SetsBack(s, steps[0]) + Setback(After(s, steps[0]), steps[1..]) else 0
  }

  /** For every interleaving: the time credited runs ahead of the last refill instant by exactly what late
    * swaps set it back. */
  lemma {:induction false} CreditedTime(s: State, steps: seq<Step>, end: State)
    requires Runs(s, steps, end)
    ensures end.timeCredited - end.lastRefill == s.timeCredited - s.lastRefill + Setback(s, steps)
    decreases |steps|
  {
    if steps != [] { CreditedTime(After(s, steps[0]), steps[1..], end); }
  }

  /** The thread that swaps read the clock no earlier than the one that swapped before it. */
  ghost predicate InOrder(s: State, step: Step)
    requires Enabled(s, step)
  {
    step.Swap? ==> s.threads[step.t].now >= s.lastRefill
  }

  ghost predicate OrderedRun(s: State, steps: seq<Step>)
    decreases |steps|
  {
    steps != [] && Enabled(s, steps[0]) ==> InOrder(s, steps[0]) && OrderedRun(After(s, steps[0]), steps[1..])
  }

  lemma {:induction false} OrderedMeansNoSetback(s: State, steps: seq<Step>)
    ensures OrderedRun(s, steps) <==> Setback(s, steps) == 0
    decreases |steps|
  {
    if steps != [] && Enabled(s, steps[0]) { OrderedMeansNoSetback(After(s, steps[0]), steps[1..]); }
  }

  /** Over every run of a new bucket, no time is credited twice exactly when every swap is in clock order. */
  lemma TimeHonestExactly(s: State, steps: seq<Step>, end: State)
    requires Init(s) && Runs(s, steps, end)
    ensures end.timeCredited == end.lastRefill + Setback(s, steps)
    ensures end.timeCredited == end.lastRefill <==> OrderedRun(s, steps)
  {
    CreditedTime(s, steps, end);
    OrderedMeansNoSetback(s, steps);
  }

  // At the highest rate --------------------------------------------------------------------------------

  /** No clock reading is ahead of the clock. */
  ghost predicate Past(s: State) {
    s.lastRefill <= s.clock && forall t :: 0 <= t < |s.threads| && s.threads[t].Read? ==> s.threads[t].now <= s.clock
  }

  lemma {:induction false} StaysPast(s: State, steps: seq<Step>, end: State)
    requires Past(s) && Runs(s, steps, end)
    ensures Past(end)
    decreases |steps|
  {
    if steps != [] { StaysPast(After(s, steps[0]), steps[1..], end); }
  }

  ghost predicate RatesWithin(steps: seq<Step>, r: nat) {
    forall i :: 0 <= i < |steps| && steps[i].SetRate? ==> steps[i].rate <= r
  }

  lemma EarnsAtMost(s: State, step: Step, r: nat)
    requires Enabled(s, step) && s.rate <= r
    ensures Earns(s, step) + r * Total(Unpriced, After(s, step).threads) <=
      r * (After(s, step).timeCredited - s.timeCredited + Total(Unpriced, s.threads))
  {
    if !step.Tick? && !step.SetRate? {
      TotalUpdate(Unpriced, s.threads, step.t, After(s, step).threads[step.t]);
    }
    if step.LoadRate? {
      var elapsed := s.threads[step.t].elapsed;
      if s.rate > 0 { MulMonotone(s.rate, elapsed, r, elapsed); }
      Distribute(r, elapsed, Total(Unpriced, After(s, step).threads));
    }
  }

  lemma Distribute(r: nat, a: nat, b: nat)
    ensures r * (a + b) == r * a + r * b
  {}

  lemma {:induction false} EarnedAtMost(s: State, steps: seq<Step>, end: State, r: nat)
    requires Runs(s, steps, end) && s.rate <= r && RatesWithin(steps, r)
    ensures s.timeCredited <= end.timeCredited
    ensures Earned(s, steps) + r * Total(Unpriced, end.threads) <=
      r * (end.timeCredited - s.timeCredited + Total(Unpriced, s.threads))
    decreases |steps|
  {
    if steps != [] {
      var next := After(s, steps[0]);
      assert steps[0].SetRate? ==> steps[0].rate <= r;
      forall i | 0 <= i < |steps| - 1 && steps[1..][i].SetRate? ensures steps[1..][i].rate <= r {
        assert steps[i + 1].SetRate?;
      }
      EarnsAtMost(s, steps[0], r);
      EarnedAtMost(next, steps[1..], end, r);
      Distribute(r, next.timeCredited - s.timeCredited + Total(Unpriced, s.threads), end.timeCredited - next.timeCredited);
      Distribute(r, end.timeCredited - next.timeCredited, Total(Unpriced, next.threads));
    }
  }

  /** For every interleaving: the total granted is at most the capacity plus the highest rate times the
    * elapsed time and what late swaps set back; in clock order, just the elapsed time. */
  lemma {:induction false} RateIsKept(s: State, steps: seq<Step>, end: State, r: nat)
    requires Init(s) && s.rate <= r && Runs(s, steps, end) && RatesWithin(steps, r)
    ensures 1_000_000_000 * (end.granted - s.capacity) <= r * (end.clock + Setback(s, steps))
    ensures OrderedRun(s, steps) ==> 1_000_000_000 * (end.granted - s.capacity) <= r * end.clock
  {
    TokensConserved(s, steps, end);
    TokensBounded(s, steps, end);
    EarnedInTime(s, steps, end, r);
    OrderedMeansNoSetback(s, steps);
  }

  lemma {:induction false} EarnedInTime(s: State, steps: seq<Step>, end: State, r: nat)
    requires Init(s) && s.rate <= r && Runs(s, steps, end) && RatesWithin(steps, r)
    ensures Earned(s, steps) <= r * (end.clock + Setback(s, steps))
  {
    EarnedAtMost(s, steps, end, r);
    TotalIdle(Unpriced, s.threads);
    TimeHonestExactly(s, steps, end);
    StaysPast(s, steps, end);
    MulMonotone(0, Total(Unpriced, end.threads), r, Total(Unpriced, end.threads));
    MulMonotone(r, end.timeCredited, r, end.clock + Setback(s, steps));
  }

  // A run that breaks the rate -----------------------------------------------------------------------------

  /** Three threads on a full bucket that holds two seconds' worth, at a rate that never changes. */
  ghost predicate Fresh(s: State) {
    Init(s) && s.clock == 0 && |s.threads| >= 3 && s.rate > 0 && s.capacity >= 2 * s.rate
  }

  predicate SteadyRate(steps: seq<Step>) {
    forall i :: 0 <= i < |steps| ==> !steps[i].SetRate?
  }

  /** Out of clock order the rate is not kept. The bucket is emptied; thread 0 reads the clock, thread 1
    * reads it a second later, swaps first and spends what both seconds earned; thread 0's late swap sets
    * the last refill back, and thread 2 spends the second second's earnings again. */
  lemma LateSwapGrantsTwice(s: State) returns (steps: seq<Step>, end: State)
    requires Fresh(s)
    ensures Runs(s, steps, end) && SteadyRate(steps) && end.rate == s.rate && Setback(s, steps) == NANOS
    ensures end.clock == 2 * NANOS && end.granted == s.capacity + 3 * s.rate
    ensures 1_000_000_000 * (end.granted - s.capacity) > s.rate * end.clock
  {
    var empty, emptied := EmptyTheBucket(s);
    var late, swapped := SwapLate(emptied);
    var second, spent := Finish(swapped, 1);
    var again, third := ThirdRefill(spent);
    var last, e := Finish(third, 2);
    end := e;
    steps := Appended(s, empty, emptied, late, swapped);
    steps := Appended(s, steps, swapped, second, spent);
    steps := Appended(s, steps, spent, again, third);
    steps := Appended(s, steps, third, last, end);
    CreditedTime(s, steps, end);
    assert s.rate * end.clock == 2 * NANOS * s.rate;
  }

  /** From the swap to the answer, alone: the refill adds, then the cost is spent. */
  lemma Finish(s: State, t: nat) returns (steps: seq<Step>, end: State)
    requires t < |s.threads| && s.threads[t].Swapped? && 0 <= s.tokens <= s.capacity
    requires s.threads[t].cost <= Min(s.tokens + Credit(s.rate, s.threads[t].elapsed), s.capacity)
    ensures Runs(s, steps, end) && SteadyRate(steps)
    ensures var pc := s.threads[t];
      end == s.(tokens := Min(s.tokens + Credit(s.rate, pc.elapsed), s.capacity) - pc.cost, granted := s.granted + pc.cost,
                threads := s.threads[t := Idle])
  {
    var s1 := After(s, LoadRate(t));
    if s1.threads[t].Spending? {
      var tail, e := Spend(s1, t);
      end := e;
      steps := RunOf(s, LoadRate(t), tail, end);
    } else {
      var s2 := After(s1, LoadForAdd(t));
      var s3 := After(s2, TryAdd(t, false));
      var tail, e := Spend(s3, t);
      end := e;
      tail := RunOf(s2, TryAdd(t, false), tail, end);
      tail := RunOf(s1, LoadForAdd(t), tail, end);
      steps := RunOf(s, LoadRate(t), tail, end);
    }
  }

  lemma Spend(s: State, t: nat) returns (steps: seq<Step>, end: State)
    requires t < |s.threads| && s.threads[t].Spending? && s.threads[t].cost <= s.tokens
    ensures Runs(s, steps, end) && SteadyRate(steps)
    ensures end == s.(tokens := s.tokens - s.threads[t].cost, granted := s.granted + s.threads[t].cost,
                      threads := s.threads[t := Idle])
  {
    var s1 := After(s, LoadForSpend(t));
    end := After(s1, TrySpend(t, false));
    var tail := RunOf(s1, TrySpend(t, false), [], end);
    steps := RunOf(s, LoadForSpend(t), tail, end);
  }

  lemma EmptyTheBucket(s: State) returns (steps: seq<Step>, end: State)
    requires Fresh(s)
    ensures Runs(s, steps, end) && SteadyRate(steps) && end == s.(tokens := 0, granted := s.capacity, threads := end.threads)
    ensures |end.threads| == |s.threads| && forall t :: 0 <= t < 3 ==> end.threads[t].Idle?
  {
    var s1 := After(s, Begin(0, s.capacity));
    var s2 := After(s1, Swap(0));
    var tail, e := Finish(s2, 0);
    end := e;
    tail := RunOf(s1, Swap(0), tail, end);
    steps := RunOf(s, Begin(0, s.capacity), tail, end);
  }

  /** Two clock readings a second apart, swapped in the other order. */
  lemma SwapLate(s: State) returns (steps: seq<Step>, end: State)
    requires s.clock == s.lastRefill == s.timeCredited == 0 && |s.threads| >= 3
    requires forall t :: 0 <= t < 3 ==> s.threads[t].Idle?
    ensures Runs(s, steps, end) && SteadyRate(steps) && |end.threads| >= 3 && end.threads[1] == Swapped(2 * s.rate, 2 * NANOS) && end.threads[2].Idle?
    ensures end == s.(clock := 2 * NANOS, lastRefill := NANOS, timeCredited := 2 * NANOS, threads := end.threads)
  {
    var s1 := After(s, Tick(NANOS));
    var s2 := After(s1, Begin(0, 0));
    var s3 := After(s2, Tick(NANOS));
    var s4 := After(s3, Begin(1, 2 * s.rate));
    var s5 := After(s4, Swap(1));
    end := After(s5, Swap(0));
    var tail := RunOf(s5, Swap(0), [], end);
    tail := RunOf(s4, Swap(1), tail, end);
    tail := RunOf(s3, Begin(1, 2 * s.rate), tail, end);
    tail := RunOf(s2, Tick(NANOS), tail, end);
    tail := RunOf(s1, Begin(0, 0), tail, end);
    steps := RunOf(s, Tick(NANOS), tail, end);
  }

  lemma ThirdRefill(s: State) returns (steps: seq<Step>, end: State)
    requires s.clock == 2 * NANOS && s.lastRefill == NANOS && |s.threads| >= 3 && s.threads[2].Idle?
    ensures Runs(s, steps, end) && SteadyRate(steps) && |end.threads| >= 3 && end.threads[2] == Swapped(s.rate, NANOS)
    ensures end == s.(lastRefill := 2 * NANOS, timeCredited := s.timeCredited + NANOS, threads := end.threads)
  {
    var s1 := After(s, Begin(2, s.rate));
    end := After(s1, Swap(2));
    var tail := RunOf(s1, Swap(2), [], end);
    steps := RunOf(s, Begin(2, s.rate), tail, end);
  }

  lemma RunOf(s: State, step: Step, rest: seq<Step>, end: State) returns (steps: seq<Step>)
    requires Enabled(s, step) && Runs(After(s, step), rest, end)
    ensures Runs(s, steps, end) && steps == [step] + rest
  {
    steps := [step] + rest;
    assert steps[1..] == rest;
  }

  lemma Appended(s: State, steps: seq<Step>, mid: State, more: seq<Step>, end: State) returns (all: seq<Step>)
    requires Runs(s, steps, mid) && SteadyRate(steps) && Runs(mid, more, end) && SteadyRate(more)
    ensures Runs(s, all, end) && SteadyRate(all)
  {
    RunsConcat(s, steps, mid, more, end);
    all := steps + more;
  }

  lemma {:induction false} RunsConcat(s: State, steps: seq<Step>, mid: State, more: seq<Step>, end: State)
    requires Runs(s, steps, mid) && Runs(mid, more, end)
    ensures Runs(s, steps + more, end)
    decreases |steps|
  {
    if steps == [] {
      assert steps + more == more;
    } else {
      RunsConcat(After(s, steps[0]), steps[1..], mid, more, end);
      assert (steps + more)[1..] == steps[1..] + more;
    }
  }

  /** An acquisition keeps the tokens within the capacity, from every level, exactly when its cost is
    * not negative; a negative count overfills a full bucket. */
  lemma CostMustNotBeNegative(capacity: nat, cost: int)
    ensures (forall s: State, t: nat ::
               s.capacity == capacity && 0 <= s.tokens <= capacity && Enabled(s, TrySpend(t, false))
               && s.threads[t].cost == cost
               ==> 0 <= After(s, TrySpend(t, false)).tokens <= capacity)
            <==> cost >= 0
  {
    if cost < 0 {
      var s := State(capacity, 0, capacity, 0, 0, [CasSpend(cost, capacity)], 0, 0);
      assert Enabled(s, TrySpend(0, false));
      assert After(s, TrySpend(0, false)).tokens == capacity - cost;
    }
  }

  /** Truncation loses credit when refills come in small pieces, and never gains any. */
  lemma SplittingNeverGains(rate: nat, a: nat, b: nat)
    ensures Credit(rate, a) + Credit(rate, b) <= Credit(rate, a + b)
  {}

  // ---------------------------------------------------------------------------------------------
  // One thread at a time, and the controller that sets the rate
  // ---------------------------------------------------------------------------------------------

  function Elapsed(now: nat, last: nat): nat {
    if now >= last then now - last else 0
  }

  /** The level after a refill; the clamp is applied only when something is added. */
  function Refilled(tokens: int, add: nat, capacity: nat): int {
    if add > 0 then Min(tokens + add, capacity) else tokens
  }

  // One caller after another

  datatype Solo = Solo(tokens: int, lastRefill: nat, granted: int)

  datatype Request = Request(cost: int, now: nat)

  function SoloAfter(capacity: nat, rate: int, b: Solo, r: Request): Solo {
    var level := Refilled(b.tokens, Credit(rate, Elapsed(r.now, b.lastRefill)), capacity);
    if r.cost <= level then Solo(level - r.cost, r.now, b.granted + r.cost) else Solo(level, r.now, b.granted)
  }

  function SoloAfterAll(capacity: nat, rate: int, b: Solo, rs: seq<Request>): Solo
    decreases |rs|
  {
    if rs == [] then b else SoloAfter(capacity, rate, SoloAfterAll(capacity, rate, b, rs[..|rs| - 1]), rs[|rs| - 1])
  }

  /** The clock does not run backwards, and what elapsed time is worth never fills the bucket. */
  predicate Unfilled(capacity: nat, rate: int, b: Solo, rs: seq<Request>)
    decreases |rs|
  {
    rs == [] ||
    (var before, now := SoloAfterAll(capacity, rate, b, rs[..|rs| - 1]), rs[|rs| - 1].now;
     && Unfilled(capacity, rate, b, rs[..|rs| - 1]) && before.lastRefill <= now
     && 1_000_000_000 * before.tokens + rate * (now - before.lastRefill) <= 1_000_000_000 * capacity)
  }

  /** Over every such run at a positive rate, what was granted and is held is what there was at the start and
    * rate * elapsed, less a part of a millitoken for each request. So a caller that asks often gets its rate. */
  lemma {:induction false} RateArrives(capacity: nat, rate: int, b: Solo, rs: seq<Request>)
    requires rate > 0 && Unfilled(capacity, rate, b, rs)
    ensures var end := SoloAfterAll(capacity, rate, b, rs);
      var gained := 1_000_000_000 * (end.granted + end.tokens - b.granted - b.tokens);
      b.lastRefill <= end.lastRefill && gained <= rate * (end.lastRefill - b.lastRefill) <= gained + 999_999_999 * |rs|
    decreases |rs|
  {
    if rs != [] {
      var front, last := rs[..|rs| - 1], rs[|rs| - 1];
      var before, end := SoloAfterAll(capacity, rate, b, front), SoloAfterAll(capacity, rate, b, rs);
      RateArrives(capacity, rate, b, front);
      CreditTruncates(rate, last.now - before.lastRefill);
      MulAdd(rate, before.lastRefill - b.lastRefill, last.now - before.lastRefill);
    }
  }

  /** A request is granted exactly when what is there and what elapsed time is worth cover it, up to the capacity. */
  lemma GrantedExactly(capacity: nat, rate: int, b: Solo, r: Request)
    requires rate > 0 && b.tokens <= capacity && b.lastRefill <= r.now
    ensures var covered := r.cost <= capacity && 1_000_000_000 * r.cost <= 1_000_000_000 * b.tokens + rate * (r.now - b.lastRefill);
      SoloAfter(capacity, rate, b, r).granted == b.granted + if covered then r.cost else 0
  {
    CreditTruncates(rate, r.now - b.lastRefill);
  }

  /** A rate that is not positive, or a clock that has not moved on, earns nothing; what is there is left alone,
    * also beyond the capacity. */
  lemma NothingEarned(capacity: nat, rate: int, b: Solo, r: Request)
    requires rate <= 0 || r.now <= b.lastRefill
    ensures var end := SoloAfter(capacity, rate, b, r);
      end.tokens + end.granted == b.tokens + b.granted && end.lastRefill == r.now
    ensures SoloAfter(capacity, rate, b, r).granted == b.granted + if r.cost <= b.tokens then r.cost else 0
  {
    if rate > 0 { CreditTruncates(rate, 0); }
  }

  lemma MulAdd(r: int, x: int, y: int)
    ensures r * (x + y) == r * x + r * y
  {}

  class Bucket {
    const capacityMilli: nat
    var refillRateMilli: int
    var tokensMilli: int
    var lastRefillNanos: nat

    ghost predicate Valid()
      reads this
    {
      0 <= tokensMilli
    }

    constructor (capacityMilli: nat, rateMilli: int)
      ensures Valid() && tokensMilli == capacityMilli && lastRefillNanos == 0
      ensures this.capacityMilli == capacityMilli && refillRateMilli == rateMilli
    {
      this.capacityMilli := capacityMilli;
      refillRateMilli, tokensMilli, lastRefillNanos := rateMilli, capacityMilli, 0;
    }

    method Refill(now: nat)
      requires Valid()
      modifies this`tokensMilli, this`lastRefillNanos
      ensures Valid() && lastRefillNanos == now
      ensures tokensMilli == Refilled(old(tokensMilli), Credit(refillRateMilli, Elapsed(now, old(lastRefillNanos))), capacityMilli)
    {
      var elapsed := if now >= lastRefillNanos then now - lastRefillNanos else 0;
      lastRefillNanos := now;
      var add := Credit(refillRateMilli, elapsed);
      if add > 0 {
        tokensMilli := Min(tokensMilli + add, capacityMilli);
      }
    }

    /** Any cost, also a negative one, which the source turns into extra tokens. */
    method TryAcquire(costMilli: int, now: nat) returns (ok: bool)
      requires Valid()
      modifies this`tokensMilli, this`lastRefillNanos
      ensures Valid() && lastRefillNanos == now
      ensures SoloAfter(capacityMilli, refillRateMilli, Solo(old(tokensMilli), old(lastRefillNanos), 0), Request(costMilli, now)) ==
        Solo(tokensMilli, lastRefillNanos, if ok then costMilli else 0)
      ensures ok <==> costMilli <= Refilled(old(tokensMilli), Credit(refillRateMilli, Elapsed(now, old(lastRefillNanos))), capacityMilli)
      ensures old(tokensMilli) <= capacityMilli && costMilli >= 0 ==> tokensMilli <= capacityMilli
    {
      Refill(now);
      if tokensMilli < costMilli {
        return false;
      }
      tokensMilli := tokensMilli - costMilli;
      return true;
    }

    /** Floors the rate at 0.1 tokens per second. */
    method SetRefillRate(tokensPerSecond: real)
      modifies this`refillRateMilli
      ensures refillRateMilli >= 100
      ensures refillRateMilli as real <= 1000.0 * MaxReal(tokensPerSecond, 0.1) < refillRateMilli as real + 1.0
    {
      var clamped := MaxReal(tokensPerSecond, 0.1);
      refillRateMilli := (clamped * 1000.0).Floor;
    }
  }

  function MaxReal(a: real, b: real): real {
    if a >= b then a else b
  }

  function Clamp(x: real, lo: real, hi: real): real {
    if x < lo then lo else if x > hi then hi else x
  }

  datatype Gains = Gains(kp: real, ki: real, kd: real) {
    /** Proportional, integral and derivative terms. */
    function Adjustment(error: real, integral: real, change: real, dt: real): real
      requires dt > 0.0
    {
      kp * error + ki * integral + kd * change / dt
    }
  }

  /** What `Observe` answers to a response that was not rejected. */
  function Tuned(gains: Gains, base: real, integral: real, prevError: real, error: real, dt: real, lo: real, hi: real): real
    requires dt > 0.0
  {
    Clamp(base + gains.Adjustment(error, SumSoFar(integral, error, dt), error - prevError, dt), lo, hi)
  }

  /** The error summed over time, kept within 10 either way. */
  function SumSoFar(integral: real, error: real, dt: real): real {
    Clamp(integral + error * dt, -10.0, 10.0)
  }

  /** A slower response never raises the rate, whatever the controller has seen before. */
  lemma SlowerNeverRaises(gains: Gains, base: real, integral: real, prevError: real, target: real, fast: real, slow: real,
                          dt: real, lo: real, hi: real)
    requires gains.kp >= 0.0 && gains.ki >= 0.0 && gains.kd >= 0.0 && dt > 0.0 && lo <= hi && fast <= slow
    ensures Tuned(gains, base, integral, prevError, target - slow, dt, lo, hi) <=
            Tuned(gains, base, integral, prevError, target - fast, dt, lo, hi)
  {
    TunedRises(gains, base, integral, prevError, target - slow, target - fast, dt, lo, hi);
  }

  lemma TunedRises(gains: Gains, base: real, integral: real, prevError: real, e1: real, e2: real, dt: real, lo: real, hi: real)
    requires gains.kp >= 0.0 && gains.ki >= 0.0 && gains.kd >= 0.0 && dt > 0.0 && lo <= hi && e1 <= e2
    ensures Tuned(gains, base, integral, prevError, e1, dt, lo, hi) <= Tuned(gains, base, integral, prevError, e2, dt, lo, hi)
  {
    var i1, i2 := SumSoFar(integral, e1, dt), SumSoFar(integral, e2, dt);
    SumRises(integral, e1, e2, dt);
    AdjustmentRises(gains, e1, e2, i1, i2, e1 - prevError, e2 - prevError, dt);
    ClampRises(base + gains.Adjustment(e1, i1, e1 - prevError, dt), base + gains.Adjustment(e2, i2, e2 - prevError, dt), lo, hi);
  }

  lemma SumRises(integral: real, e1: real, e2: real, dt: real)
    requires dt > 0.0 && e1 <= e2
    ensures SumSoFar(integral, e1, dt) <= SumSoFar(integral, e2, dt)
  {
    var x, y := e1 * dt, e2 * dt;
    Scaled(dt, e1, e2);
    assert x <= y;
    ClampRises(integral + x, integral + y, -10.0, 10.0);
  }

  /** The sum is kept within 10 either way, and is the plain sum in between. */
  lemma SumKept(integral: real, error: real, dt: real)
    ensures -10.0 <= SumSoFar(integral, error, dt) <= 10.0
    ensures -10.0 <= integral + error * dt <= 10.0 ==> SumSoFar(integral, error, dt) == integral + error * dt
    ensures integral + error * dt > 10.0 ==> SumSoFar(integral, error, dt) == 10.0
    ensures integral + error * dt < -10.0 ==> SumSoFar(integral, error, dt) == -10.0
  {}

  lemma ClampRises(x: real, y: real, lo: real, hi: real)
    requires x <= y && lo <= hi
    ensures lo <= Clamp(x, lo, hi) <= Clamp(y, lo, hi) <= hi
  {}

  lemma AdjustmentRises(gains: Gains, e1: real, e2: real, i1: real, i2: real, c1: real, c2: real, dt: real)
    requires gains.kp >= 0.0 && gains.ki >= 0.0 && gains.kd >= 0.0 && dt > 0.0 && e1 <= e2 && i1 <= i2 && c1 <= c2
    ensures gains.Adjustment(e1, i1, c1, dt) <= gains.Adjustment(e2, i2, c2, dt)
  {
    ErrorRaises(gains, e1, e2, i1, c1, dt);
    SumRaises(gains, e2, i1, i2, c1, dt);
    ChangeRaises(gains, e2, i2, c1, c2, dt);
  }

  lemma ErrorRaises(gains: Gains, e1: real, e2: real, i: real, c: real, dt: real)
    requires gains.kp >= 0.0 && dt > 0.0 && e1 <= e2
    ensures gains.Adjustment(e1, i, c, dt) <= gains.Adjustment(e2, i, c, dt)
  {
    Scaled(gains.kp, e1, e2);
  }

  lemma SumRaises(gains: Gains, e: real, i1: real, i2: real, c: real, dt: real)
    requires gains.ki >= 0.0 && dt > 0.0 && i1 <= i2
    ensures gains.Adjustment(e, i1, c, dt) <= gains.Adjustment(e, i2, c, dt)
  {
    Scaled(gains.ki, i1, i2);
  }

  lemma ChangeRaises(gains: Gains, e: real, i: real, c1: real, c2: real, dt: real)
    requires gains.kd >= 0.0 && dt > 0.0 && c1 <= c2
    ensures gains.Adjustment(e, i, c1, dt) <= gains.Adjustment(e, i, c2, dt)
  {
    Scaled(gains.kd, c1, c2);
    Divided(gains.kd * c1, gains.kd * c2, dt);
  }

  lemma Scaled(k: real, x: real, y: real)
    requires k >= 0.0 && x <= y
    ensures k * x <= k * y && x * k <= y * k
  {
    assert k * (y - x) >= 0.0;
    assert k * (y - x) == k * y - k * x;
    assert x * k == k * x && y * k == k * y;
  }

  lemma Divided(x: real, y: real, d: real)
    requires d > 0.0 && x <= y
    ensures x / d <= y / d
  {
    var p, q := x / d, y / d;
    assert p * d == x && q * d == y;
    assert (q - p) * d == y - x;
  }

  /** Each gain acts on its own error: on the current one, on the sum so far, on the change per second. */
  lemma GainsAct(kp: real, ki: real, kd: real, error: real, integral: real, change: real, dt: real)
    requires dt > 0.0
    ensures Gains(kp, 0.0, 0.0).Adjustment(error, integral, change, dt) == kp * error
    ensures Gains(0.0, ki, 0.0).Adjustment(error, integral, change, dt) == ki * integral
    ensures Gains(0.0, 0.0, kd).Adjustment(error, integral, change, dt) * dt == kd * change
  {}

  /** A rejection halves the rate, the second in a row quarters it, down to a sixteenth from the fourth on, and
    * never below the floor. */
  lemma BackoffHalves(rate: real, rejections: nat, floor: real)
    requires rate >= floor > 0.0 && rejections >= 1
    ensures var cut := if rejections == 1 then rate / 2.0 else if rejections == 2 then rate / 4.0
        else if rejections == 3 then rate / 8.0 else rate / 16.0;
      BackedOff(rate, rejections, floor) == if cut > floor then cut else floor
  {
    assert Halvings(1) == 0.5 && Halvings(2) == 0.25 && Halvings(3) == 0.125;
    assert Halvings(4) == 0.5 * Halvings(3) == 0.0625;
  }

  function Halvings(n: nat): real
    requires n <= 4
  {
    if n == 0 then 1.0 else 0.5 * Halvings(n - 1)
  }

  /** The latency controller. */
  class AdaptiveRateController {
    const gains: Gains
    const targetLatency: real
    const minRate: real
    const maxRate: real
    var baseRate: real
    var integral: real
    var prevError: real
    var consecutive429s: nat

    ghost predicate Valid()
      reads this
    {
      0.0 < minRate <= baseRate <= 10.0 * minRate && maxRate == 30.0 * minRate && -10.0 <= integral <= 10.0
    }

    constructor (baseRate: real, targetLatency: real, gains: Gains)
      requires baseRate > 0.0
      ensures Valid() && this.baseRate == baseRate && minRate == baseRate * 0.1 && maxRate == baseRate * 3.0
    {
      this.gains, this.targetLatency := gains, targetLatency;
      this.baseRate, minRate, maxRate := baseRate, baseRate * 0.1, baseRate * 3.0;
      integral, prevError, consecutive429s := 0.0, 0.0, 0;
    }

    /** The new rate always lies between the floor and the ceiling. The base rate never rises: a
      * rejection cuts it for good, and a good response only adjusts around it. */
    method Observe(latency: real, dt: real, isRateLimited: bool) returns (newRate: real)
      requires Valid() && dt >= 0.001
      modifies this
      ensures Valid() && minRate <= newRate <= maxRate && baseRate <= old(baseRate)
      ensures isRateLimited ==>
                && consecutive429s == old(consecutive429s) + 1 && integral == 0.0 && prevError == old(prevError)
                && newRate == baseRate == BackedOff(old(baseRate), consecutive429s, minRate)
      ensures !isRateLimited ==>
                && consecutive429s == 0 && baseRate == old(baseRate) && prevError == targetLatency - latency
                && integral == Clamp(old(integral) + prevError * dt, -10.0, 10.0)
                && newRate == Tuned(gains, baseRate, old(integral), old(prevError), targetLatency - latency, dt, minRate, maxRate)
    {
      if isRateLimited {
        newRate := BackOff();
        return;
      }
      consecutive429s := 0;
      var error := targetLatency - latency;
      integral := Clamp(integral + error * dt, -10.0, 10.0);
      var adjustment := gains.Adjustment(error, integral, error - prevError, dt);
      prevError := error;
      newRate := Clamp(baseRate + adjustment, minRate, maxRate);
    }

    /** Cuts the base rate by one half for each rejection in a row, four at most. */
    method BackOff() returns (newRate: real)
      requires Valid()
      modifies this`consecutive429s, this`integral, this`baseRate
      ensures Valid() && consecutive429s == old(consecutive429s) + 1 && integral == 0.0
      ensures newRate == baseRate == BackedOff(old(baseRate), consecutive429s, minRate) <= old(baseRate)
    {
      consecutive429s := consecutive429s + 1;
      BackedOffBounds(baseRate, consecutive429s, minRate);
      integral := 0.0;
      newRate := BackedOff(baseRate, consecutive429s, minRate);
      baseRate := newRate;
    }
  }

  function BackedOff(rate: real, rejections: nat, floor: real): real {
    MaxReal(rate * Halvings(if rejections < 4 then rejections else 4), floor)
  }

  lemma BackedOffBounds(rate: real, rejections: nat, floor: real)
    requires 0.0 < floor <= rate
    ensures floor <= BackedOff(rate, rejections, floor) <= rate
  {
    CutsDown(rate, if rejections < 4 then rejections else 4);
  }

  lemma {:induction false} CutsDown(rate: real, n: nat)
    requires rate >= 0.0 && n <= 4
    ensures 0.0 <= rate * Halvings(n) <= rate
    decreases n
  {
    if n > 0 {
      CutsDown(rate, n - 1);
      assert rate * Halvings(n) == 0.5 * (rate * Halvings(n - 1));
    }
  }
}
