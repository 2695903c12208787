/** Concurrent calls of `allow_request` while a breaker opens and is open
  * (crates/clawdesk-adapters/src/circuit_breaker.rs), until a result is recorded.
  *
  * Every atomic access and every reading of the clock is a step, and the steps of all callers and of the
  * thread that opened the breaker interleave. The opener has set the state and has yet to bump the open count
  * and to store the opening time. The source ignores the result of a caller's compare-exchange and lets the
  * caller pass either way. All threads see the accesses in one order.
  */
module ProbeRace {
  import opened Wrappers
  import CircuitBreaker

  /** What the breaker holds when its state has just been set to open: the opening time (0 for none) and the
    * open count are those of the last time it opened. n callers are yet to come. */
  datatype Start = Start(n: nat, clock: nat, openedAt: nat, openCount: nat, backoff: CircuitBreaker.Backoff) {
    predicate Valid() { openedAt <= clock }
  }

  datatype Opener =
    | Switched
    | Counted            // has bumped the open count
    | Timed(time: nat)   // has read the clock
    | Settled            // has stored the time

  /** Where a caller is. */
  datatype Pc =
    | Idle
    | SawOpen                            // loaded the state: open
    | SawTime(since: nat)                // loaded the opening time, which is not 0
    | SawBoth(since: nat, count: nat)    // loaded the open count
    | Due                                // the backoff is over
    | Passed
    | Refused

  datatype State = State(opener: Opener, openedAt: nat, openCount: nat, halfOpen: bool, clock: nat, callers: seq<Pc>)

  datatype Step =
    | Tick(ms: nat)
    | AddCount | ReadClock | StoreTime
    | Load(t: nat) | LoadTime(t: nat) | LoadCount(t: nat) | Check(t: nat) | Cas(t: nat)

  function Opened(o: Start): State {
    State(Switched, o.openedAt, o.openCount, false, o.clock, seq(o.n, _ => Idle))
  }

  ghost predicate Enabled(s: State, step: Step) {
    match step
    case Tick(_) => true
    case AddCount => s.opener.Switched?
    case ReadClock => s.opener.Counted?
    case StoreTime => s.opener.Timed?
    case Load(t) => t < |s.callers| && s.callers[t].Idle?
    case LoadTime(t) => t < |s.callers| && s.callers[t].SawOpen?
    case LoadCount(t) => t < |s.callers| && s.callers[t].SawTime?
    case Check(t) => t < |s.callers| && s.callers[t].SawBoth?
    case Cas(t) => t < |s.callers| && s.callers[t].Due?
  }

  /** The backoff is over for someone who read this opening time, count and clock. */
  predicate Over(o: Start, since: nat, count: nat, now: nat) {
    CircuitBreaker.SaturatingSub(now, since) >= o.backoff.Wait(count)
  }

  ghost function After(o: Start, s: State, step: Step): State
    requires Enabled(s, step)
  {
    match step
    case Tick(ms) => s.(clock := s.clock + ms)
    case AddCount => s.(openCount := s.openCount + 1, opener := Counted)
    case ReadClock => s.(opener := Timed(s.clock))
    case StoreTime => s.(openedAt := s.opener.time, opener := Settled)
    case Load(t) => s.(callers := s.callers[t := if s.halfOpen then Refused else SawOpen])
    case LoadTime(t) => s.(callers := s.callers[t := if s.openedAt > 0 then SawTime(s.openedAt) else Refused])
    case LoadCount(t) => s.(callers := s.callers[t := SawBoth(s.callers[t].since, s.openCount)])
    case Check(t) =>
      s.(callers := s.callers[t := if Over(o, s.callers[t].since, s.callers[t].count, s.clock) then Due else Refused])
    case Cas(t) => s.(halfOpen := true, callers := s.callers[t := Passed])
  }

  /** The steps are enabled one after the other. */
  ghost predicate Run(o: Start, steps: seq<Step>)
    decreases |steps|, 0
  {
    steps == [] ||
    (Run(o, steps[..|steps| - 1]) && Enabled(End(o, steps[..|steps| - 1]), steps[|steps| - 1]))
  }

  ghost function End(o: Start, steps: seq<Step>): State
    requires Run(o, steps)
    decreases |steps|, 1
  {
    if steps == [] then Opened(o) else After(o, End(o, steps[..|steps| - 1]), steps[|steps| - 1])
  }

  lemma OneMore(o: Start, steps: seq<Step>, step: Step)
    requires Run(o, steps) && Enabled(End(o, steps), step)
    ensures Run(o, steps + [step]) && End(o, steps + [step]) == After(o, End(o, steps), step)
  {
    assert (steps + [step])[..|steps|] == steps;
  }

  lemma TwoMore(o: Start, steps: seq<Step>, x: Step, y: Step) returns (all: seq<Step>)
    requires Run(o, steps) && Enabled(End(o, steps), x) && Enabled(After(o, End(o, steps), x), y)
    ensures all == steps + [x, y] && Run(o, all) && End(o, all) == After(o, After(o, End(o, steps), x), y)
  {
    OneMore(o, steps, x);
    OneMore(o, steps + [x], y);
    all := steps + [x] + [y];
  }

  // What happened, read off the steps ------------------------------------------------------------------------

  predicate Did(steps: seq<Step>, step: Step)
    decreases |steps|
  {
    steps != [] && (steps[|steps| - 1] == step || Did(steps[..|steps| - 1], step))
  }

  /** Some caller has done its compare-exchange. */
  predicate Probed(steps: seq<Step>)
    decreases |steps|
  {
    steps != [] && (steps[|steps| - 1].Cas? || Probed(steps[..|steps| - 1]))
  }

  /** The time on the clock. */
  function Clock(clock: nat, steps: seq<Step>): nat
    decreases |steps|
  {
    if steps == [] then clock
    else Clock(clock, steps[..|steps| - 1]) + if steps[|steps| - 1].Tick? then steps[|steps| - 1].ms else 0
  }

  /** The clock when a step was taken. */
  function When(clock: nat, steps: seq<Step>, step: Step): Option<nat>
    decreases |steps|
  {
    if steps == [] then None
    else
      var front := steps[..|steps| - 1];
      if steps[|steps| - 1] == step then Some(Clock(clock, front)) else When(clock, front, step)
  }

  /** The caller loaded the state before anyone's compare-exchange. */
  predicate LoadedEarly(steps: seq<Step>, t: nat)
    decreases |steps|
  {
    steps != [] &&
    (var front, last := steps[..|steps| - 1], steps[|steps| - 1];
     LoadedEarly(front, t) || (last == Load(t) && !Probed(front)))
  }

  /** The caller loaded the opening time before the opener stored the new one. */
  predicate OldTime(steps: seq<Step>, t: nat)
    decreases |steps|
  {
    steps != [] &&
    (var front, last := steps[..|steps| - 1], steps[|steps| - 1];
     OldTime(front, t) || (last == LoadTime(t) && !Did(front, StoreTime)))
  }

  /** The caller loaded the open count before the opener bumped it. */
  predicate OldCount(steps: seq<Step>, t: nat)
    decreases |steps|
  {
    steps != [] &&
    (var front, last := steps[..|steps| - 1], steps[|steps| - 1];
     OldCount(front, t) || (last == LoadCount(t) && !Did(front, AddCount)))
  }

  /** The time the opener read. */
  function OpenTime(o: Start, steps: seq<Step>): nat {
    var w := When(o.clock, steps, ReadClock);
    if w.Some? then w.value else 0
  }

  function TimeSeen(o: Start, steps: seq<Step>, t: nat): nat {
    if OldTime(steps, t) then o.openedAt else OpenTime(o, steps)
  }

  function CountSeen(o: Start, steps: seq<Step>, t: nat): nat {
    if OldCount(steps, t) then o.openCount else o.openCount + 1
  }

  /** The caller loaded the state in time, read an opening time other than 0, and read the clock when the
    * backoff was over by what it had loaded. */
  predicate Admitted(o: Start, steps: seq<Step>, t: nat) {
    var checked := When(o.clock, steps, Check(t));
    && LoadedEarly(steps, t) && TimeSeen(o, steps, t) > 0
    && checked.Some? && Over(o, TimeSeen(o, steps, t), CountSeen(o, steps, t), checked.value)
  }

  // ---------------------------------------------------------------------------------------------
  // What every step keeps
  // ---------------------------------------------------------------------------------------------

  ghost predicate OpenerOk(o: Start, steps: seq<Step>, s: State) {
    && s.clock == Clock(o.clock, steps) && s.halfOpen == Probed(steps)
    && (Did(steps, AddCount) <==> !s.opener.Switched?) && s.openCount == (if s.opener.Switched? then o.openCount else o.openCount + 1)
    && (Did(steps, StoreTime) <==> s.opener.Settled?) && s.openedAt == (if s.opener.Settled? then OpenTime(o, steps) else o.openedAt)
    && (When(o.clock, steps, ReadClock).Some? <==> s.opener.Timed? || s.opener.Settled?)
    && (s.opener.Timed? ==> s.opener.time == OpenTime(o, steps))
    && OpenTime(o, steps) <= s.clock
  }

  /** What the caller has done so far. */
  predicate Stage(o: Start, steps: seq<Step>, t: nat, state: bool, time: bool, count: bool, clock: bool) {
    && (state ==> LoadedEarly(steps, t)) && Did(steps, LoadTime(t)) == time && Did(steps, LoadCount(t)) == count
    && When(o.clock, steps, Check(t)).Some? == clock
  }

  /** The caller read the clock no earlier than the opener. */
  predicate CheckedSince(o: Start, steps: seq<Step>, t: nat) {
    var checked := When(o.clock, steps, Check(t));
    checked.Some? ==> OpenTime(o, steps) <= checked.value
  }

  ghost predicate CallerOk(o: Start, steps: seq<Step>, s: State, t: nat)
    requires t < |s.callers|
  {
    && (OldTime(steps, t) ==> Did(steps, LoadTime(t))) && (OldCount(steps, t) ==> Did(steps, LoadCount(t)))
    && (Did(steps, LoadTime(t)) && !OldTime(steps, t) ==> s.opener.Settled? && !OldCount(steps, t) && CheckedSince(o, steps, t))
    && (Did(steps, LoadCount(t)) && !OldCount(steps, t) ==> !s.opener.Switched?)
    && match s.callers[t]
       case Idle => Stage(o, steps, t, false, false, false, false) && !LoadedEarly(steps, t)
       case SawOpen => Stage(o, steps, t, true, false, false, false)
       case SawTime(since) => Stage(o, steps, t, true, true, false, false) && 0 < since == TimeSeen(o, steps, t)
       case SawBoth(since, count) => Stage(o, steps, t, true, true, true, false) &&
         0 < since == TimeSeen(o, steps, t) && count == CountSeen(o, steps, t)
       case Due => Stage(o, steps, t, true, true, true, true) && Admitted(o, steps, t)
       case Passed => Stage(o, steps, t, true, true, true, true) && Admitted(o, steps, t)
       case Refused => !Admitted(o, steps, t) && (!Did(steps, LoadTime(t)) ==> When(o.clock, steps, Check(t)) == None)
  }

  ghost predicate Inv(o: Start, steps: seq<Step>, s: State) {
    |s.callers| == o.n && OpenerOk(o, steps, s) && forall t :: 0 <= t < o.n ==> CallerOk(o, steps, s, t)
  }

  lemma {:induction false} RunsKeepInv(o: Start, steps: seq<Step>)
    requires o.Valid() && Run(o, steps)
    ensures Inv(o, steps, End(o, steps))
    decreases |steps|
  {
    if steps != [] {
      var front, last := steps[..|steps| - 1], steps[|steps| - 1];
      RunsKeepInv(o, front);
      OpenerStep(o, steps, End(o, front));
      forall t | 0 <= t < o.n ensures CallerOk(o, steps, End(o, steps), t) {
        CallerStep(o, steps, End(o, front), t);
      }
    }
  }

  lemma OpenerStep(o: Start, steps: seq<Step>, before: State)
    requires steps != [] && OpenerOk(o, steps[..|steps| - 1], before) && Enabled(before, steps[|steps| - 1])
    ensures OpenerOk(o, steps, After(o, before, steps[|steps| - 1]))
  {}

  predicate IsOf(step: Step, t: nat) {
    step == Load(t) || step == LoadTime(t) || step == LoadCount(t) || step == Check(t) || step == Cas(t)
  }

  lemma CallerStep(o: Start, steps: seq<Step>, before: State, t: nat)
    requires steps != [] && OpenerOk(o, steps[..|steps| - 1], before) && Enabled(before, steps[|steps| - 1])
    requires t < |before.callers| && CallerOk(o, steps[..|steps| - 1], before, t)
    ensures CallerOk(o, steps, After(o, before, steps[|steps| - 1]), t)
  {
    if IsOf(steps[|steps| - 1], t) { OwnStep(o, steps, before, t); } else { OtherStep(o, steps, before, t); }
  }

  lemma OwnStep(o: Start, steps: seq<Step>, before: State, t: nat)
    requires steps != [] && OpenerOk(o, steps[..|steps| - 1], before) && Enabled(before, steps[|steps| - 1])
    requires t < |before.callers| && CallerOk(o, steps[..|steps| - 1], before, t) && IsOf(steps[|steps| - 1], t)
    ensures CallerOk(o, steps, After(o, before, steps[|steps| - 1]), t)
  {}

  /** Nothing another thread does changes what a caller has done. */
  lemma SameHistory(o: Start, steps: seq<Step>, t: nat)
    requires steps != [] && !IsOf(steps[|steps| - 1], t)
    ensures var front := steps[..|steps| - 1];
      && LoadedEarly(steps, t) == LoadedEarly(front, t) && OldTime(steps, t) == OldTime(front, t)
      && OldCount(steps, t) == OldCount(front, t) && CountSeen(o, steps, t) == CountSeen(o, front, t)
      && Did(steps, LoadTime(t)) == Did(front, LoadTime(t)) && Did(steps, LoadCount(t)) == Did(front, LoadCount(t))
      && When(o.clock, steps, Check(t)) == When(o.clock, front, Check(t))
      && (steps[|steps| - 1] != ReadClock ==> TimeSeen(o, steps, t) == TimeSeen(o, front, t))
  {}

  lemma OtherStep(o: Start, steps: seq<Step>, before: State, t: nat)
    requires steps != [] && OpenerOk(o, steps[..|steps| - 1], before) && Enabled(before, steps[|steps| - 1])
    requires t < |before.callers| && CallerOk(o, steps[..|steps| - 1], before, t) && !IsOf(steps[|steps| - 1], t)
    ensures CallerOk(o, steps, After(o, before, steps[|steps| - 1]), t)
  {
    SameHistory(o, steps, t);
    assert After(o, before, steps[|steps| - 1]).callers[t] == before.callers[t];
  }

  predicate Finished(pc: Pc) {
    pc.Passed? || pc.Refused?
  }

  /** For every interleaving: a caller that is done has passed exactly when it loaded the state before
    * anyone's compare-exchange, read an opening time other than 0, and checked the clock when the backoff was
    * over by what it had read. So as many probes pass as there are such callers. */
  lemma PassesExactly(o: Start, steps: seq<Step>, t: nat)
    requires o.Valid() && Run(o, steps) && t < o.n && t < |End(o, steps).callers| && Finished(End(o, steps).callers[t])
    ensures End(o, steps).callers[t].Passed? <==> Admitted(o, steps, t)
  {
    RunsKeepInv(o, steps);
    assert CallerOk(o, steps, End(o, steps), t);
  }

  // ---------------------------------------------------------------------------------------------
  // Passing early
  // ---------------------------------------------------------------------------------------------

  /** When a probe may pass by the new opening time and the new count. */
  function DueTime(o: Start, steps: seq<Step>): nat {
    OpenTime(o, steps) + o.backoff.Wait(o.openCount + 1)
  }

  /** Passed before that. */
  ghost predicate PassedEarly(o: Start, steps: seq<Step>, t: nat)
    requires Run(o, steps)
  {
    var checked := When(o.clock, steps, Check(t));
    t < |End(o, steps).callers| && End(o, steps).callers[t].Passed? && checked.Some? && checked.value < DueTime(o, steps)
  }

  /** For every interleaving in which the opener is done: a caller that is done has passed early exactly when it
    * loaded the state before anyone's compare-exchange, loaded the old opening time, which was not 0, and
    * checked the clock when the backoff since then was over but not the new one. */
  lemma EarlyExactly(o: Start, steps: seq<Step>, t: nat)
    requires o.Valid() && Run(o, steps) && End(o, steps).opener.Settled?
    requires t < o.n && t < |End(o, steps).callers| && Finished(End(o, steps).callers[t])
    ensures var checked := When(o.clock, steps, Check(t));
      PassedEarly(o, steps, t) <==>
        && LoadedEarly(steps, t) && OldTime(steps, t) && o.openedAt > 0
        && checked.Some? && o.openedAt + o.backoff.Wait(CountSeen(o, steps, t)) <= checked.value < DueTime(o, steps)
  {
    PassesExactly(o, steps, t);
    RunsKeepInv(o, steps);
    assert CallerOk(o, steps, End(o, steps), t);
    if When(o.clock, steps, Check(t)).Some? { CheckedSinceStart(o, steps, Check(t)); }
  }

  lemma {:induction false} CheckedSinceStart(o: Start, steps: seq<Step>, step: Step)
    requires When(o.clock, steps, step).Some?
    ensures o.clock <= When(o.clock, steps, step).value <= Clock(o.clock, steps)
    decreases |steps|
  {
    ClockRises(o.clock, steps[..|steps| - 1]);
    if steps[|steps| - 1] != step { CheckedSinceStart(o, steps[..|steps| - 1], step); }
  }

  lemma {:induction false} ClockRises(clock: nat, steps: seq<Step>)
    ensures clock <= Clock(clock, steps)
    decreases |steps|
  {
    if steps != [] { ClockRises(clock, steps[..|steps| - 1]); }
  }

  // ---------------------------------------------------------------------------------------------
  // One at a time
  // ---------------------------------------------------------------------------------------------

  predicate Busy(pc: Pc) {
    pc.SawOpen? || pc.SawTime? || pc.SawBoth? || pc.Due?
  }

  ghost predicate NobodyBusy(s: State) {
    forall t :: 0 <= t < |s.callers| ==> !Busy(s.callers[t])
  }

  /** No caller starts while another one is between its load and its answer. */
  ghost predicate OneAtATime(o: Start, steps: seq<Step>)
    requires Run(o, steps)
    decreases |steps|
  {
    steps == [] ||
    (OneAtATime(o, steps[..|steps| - 1]) && (steps[|steps| - 1].Load? ==> NobodyBusy(End(o, steps[..|steps| - 1]))))
  }

  /** Before the probe at most one caller is under way and none has passed; after it, one has passed and
    * none is under way. */
  ghost predicate Alone(s: State) {
    && (forall t, u :: 0 <= t < |s.callers| && 0 <= u < |s.callers| && Busy(s.callers[t]) && Busy(s.callers[u]) ==> t == u)
    && (forall t, u :: 0 <= t < |s.callers| && 0 <= u < |s.callers| && s.callers[t].Passed? && s.callers[u].Passed? ==> t == u)
    && (forall t :: 0 <= t < |s.callers| ==>
          (s.callers[t].Passed? ==> s.halfOpen) && (Busy(s.callers[t]) ==> !s.halfOpen))
  }

  /** Also while the opener is still storing. */
  lemma {:induction false} AtMostOnePasses(o: Start, steps: seq<Step>)
    requires Run(o, steps) && OneAtATime(o, steps)
    ensures Alone(End(o, steps))
    decreases |steps|
  {
    if steps != [] {
      AtMostOnePasses(o, steps[..|steps| - 1]);
      AloneStep(o, End(o, steps[..|steps| - 1]), steps[|steps| - 1]);
    }
  }

  lemma AloneStep(o: Start, s: State, step: Step)
    requires Enabled(s, step) && Alone(s) && (step.Load? ==> NobodyBusy(s))
    ensures Alone(After(o, s, step))
  {
    if step.Load? { AloneLoad(o, s, step.t); } else { AloneOther(o, s, step); }
  }

  lemma AloneLoad(o: Start, s: State, t: nat)
    requires Enabled(s, Load(t)) && Alone(s) && NobodyBusy(s)
    ensures Alone(After(o, s, Load(t)))
  {}

  lemma AloneOther(o: Start, s: State, step: Step)
    requires Enabled(s, step) && Alone(s) && !step.Load?
    ensures Alone(After(o, s, step))
  {
    var u := After(o, s, step);
    assert forall t :: 0 <= t < |s.callers| ==> (Busy(u.callers[t]) ==> Busy(s.callers[t]));
  }

  // ---------------------------------------------------------------------------------------------
  // All at once
  // ---------------------------------------------------------------------------------------------

  /** A caller up to its compare-exchange. */
  function Approach(t: nat): seq<Step> {
    [Load(t), LoadTime(t), LoadCount(t), Check(t)]
  }

  function Approaches(n: nat): seq<Step> {
    if n == 0 then [] else Approaches(n - 1) + Approach(n - 1)
  }

  function Swaps(n: nat): seq<Step> {
    if n == 0 then [] else Swaps(n - 1) + [Cas(n - 1)]
  }

  /** Open, and past the backoff by what the breaker holds. */
  ghost predicate Ready(o: Start, s: State) {
    !s.halfOpen && s.openedAt > 0 && Over(o, s.openedAt, s.openCount, s.clock)
  }

  function AtDue(s: State, t: nat): State
    requires t < |s.callers|
  {
    s.(callers := s.callers[t := Due])
  }

  lemma OneApproaches(o: Start, steps: seq<Step>, t: nat) returns (all: seq<Step>)
    requires Run(o, steps) && t < |End(o, steps).callers| && End(o, steps).callers[t].Idle? && Ready(o, End(o, steps))
    ensures all == steps + Approach(t) && Run(o, all) && End(o, all) == AtDue(End(o, steps), t)
  {
    var s := End(o, steps);
    var half := TwoMore(o, steps, Load(t), LoadTime(t));
    assert End(o, half) == s.(callers := s.callers[t := SawTime(s.openedAt)]);
    all := TwoMore(o, half, LoadCount(t), Check(t));
  }

  /** The first k callers at one place, the others at another. */
  ghost predicate Split(s: State, n: nat, k: nat, done: Pc, rest: Pc) {
    |s.callers| == n && forall t :: 0 <= t < n ==> s.callers[t] == if t < k then done else rest
  }

  /** All but what the callers have done. */
  predicate SameBreaker(s: State, u: State) {
    s.opener == u.opener && s.openedAt == u.openedAt && s.openCount == u.openCount && s.clock == u.clock
  }

  lemma Regroup(a: seq<Step>, b: seq<Step>, c: seq<Step>)
    ensures a + b + c == a + (b + c)
  {}

  lemma {:induction false} AllApproach(o: Start, steps: seq<Step>, k: nat) returns (all: seq<Step>)
    requires Run(o, steps) && Split(End(o, steps), o.n, 0, Due, Idle) && Ready(o, End(o, steps)) && k <= o.n
    ensures all == steps + Approaches(k) && Run(o, all)
    ensures Split(End(o, all), o.n, k, Due, Idle) && Ready(o, End(o, all)) && SameBreaker(End(o, all), End(o, steps))
    decreases k
  {
    if k == 0 {
      all := steps;
      assert steps + Approaches(0) == steps;
    } else {
      var before := AllApproach(o, steps, k - 1);
      all := NextApproach(o, steps, before, k);
    }
  }

  lemma NextApproach(o: Start, steps: seq<Step>, before: seq<Step>, k: nat) returns (all: seq<Step>)
    requires 0 < k <= o.n && before == steps + Approaches(k - 1) && Run(o, before)
    requires Split(End(o, before), o.n, k - 1, Due, Idle) && Ready(o, End(o, before))
    ensures all == steps + Approaches(k) && Run(o, all)
    ensures Split(End(o, all), o.n, k, Due, Idle) && Ready(o, End(o, all)) && SameBreaker(End(o, all), End(o, before))
  {
    all := OneApproaches(o, before, k - 1);
    OneIsDue(o, End(o, before), k);
    Regroup(steps, Approaches(k - 1), Approach(k - 1));
  }

  lemma {:induction false} AllPass(o: Start, steps: seq<Step>, k: nat) returns (all: seq<Step>)
    requires Run(o, steps) && Split(End(o, steps), o.n, 0, Passed, Due) && k <= o.n
    ensures all == steps + Swaps(k) && Run(o, all)
    ensures Split(End(o, all), o.n, k, Passed, Due) && SameBreaker(End(o, all), End(o, steps))
    decreases k
  {
    if k == 0 {
      all := steps;
      assert steps + Swaps(0) == steps;
    } else {
      var before := AllPass(o, steps, k - 1);
      all := NextPass(o, steps, before, k);
    }
  }

  lemma NextPass(o: Start, steps: seq<Step>, before: seq<Step>, k: nat) returns (all: seq<Step>)
    requires 0 < k <= o.n && before == steps + Swaps(k - 1) && Run(o, before)
    requires Split(End(o, before), o.n, k - 1, Passed, Due)
    ensures all == steps + Swaps(k) && Run(o, all)
    ensures Split(End(o, all), o.n, k, Passed, Due) && SameBreaker(End(o, all), End(o, before))
  {
    OnePasses(o, End(o, before), k);
    OneMore(o, before, Cas(k - 1));
    all := before + [Cas(k - 1)];
    Regroup(steps, Swaps(k - 1), [Cas(k - 1)]);
  }

  lemma OneIsDue(o: Start, s: State, k: nat)
    requires 0 < k <= o.n && Split(s, o.n, k - 1, Due, Idle)
    ensures Split(AtDue(s, k - 1), o.n, k, Due, Idle)
  {}

  lemma OnePasses(o: Start, s: State, k: nat)
    requires 0 < k <= o.n && Split(s, o.n, k - 1, Passed, Due)
    ensures Enabled(s, Cas(k - 1)) && Split(After(o, s, Cas(k - 1)), o.n, k, Passed, Due)
    ensures SameBreaker(After(o, s, Cas(k - 1)), s)
  {}

  /** Everyone passes who loads the state before the first compare-exchange. */
  lemma Rush(o: Start, steps: seq<Step>) returns (all: seq<Step>)
    requires Run(o, steps) && Split(End(o, steps), o.n, 0, Due, Idle) && Ready(o, End(o, steps))
    ensures all == steps + Approaches(o.n) + Swaps(o.n) && Run(o, all)
    ensures Split(End(o, all), o.n, o.n, Passed, Idle) && SameBreaker(End(o, all), End(o, steps))
  {
    all := AllApproach(o, steps, o.n);
    all := AllPass(o, all, o.n);
  }

  /** What is left for the opener to do, at the next tick of the clock. */
  function Stores(): seq<Step> {
    [Tick(1), AddCount, ReadClock, StoreTime]
  }

  function Stored(s: State): State {
    s.(opener := Settled, openCount := s.openCount + 1, openedAt := s.clock + 1, clock := s.clock + 1)
  }

  lemma Storing(o: Start, steps: seq<Step>) returns (all: seq<Step>)
    requires Run(o, steps) && End(o, steps).opener.Switched?
    ensures all == steps + Stores() && Run(o, all) && End(o, all) == Stored(End(o, steps))
  {
    var half := TwoMore(o, steps, Tick(1), AddCount);
    all := TwoMore(o, half, ReadClock, StoreTime);
  }

  /** The opener done, and the new backoff over. */
  function Settling(o: Start): seq<Step> {
    Stores() + [Tick(o.backoff.Wait(o.openCount + 1))]
  }

  lemma SettlingRuns(o: Start)
    ensures Run(o, Settling(o)) && Ready(o, End(o, Settling(o))) && Split(End(o, Settling(o)), o.n, 0, Due, Idle)
    ensures End(o, Settling(o)).opener.Settled?
  {
    var stored := Storing(o, []);
    assert stored == Stores();
    OneMore(o, Stores(), Tick(o.backoff.Wait(o.openCount + 1)));
  }

  /** Any number of callers can pass as the probe: all of them do when all load the state before the first
    * compare-exchange. */
  lemma EveryoneCanPass(o: Start) returns (steps: seq<Step>)
    ensures steps == Settling(o) + Approaches(o.n) + Swaps(o.n) && Run(o, steps)
    ensures |End(o, steps).callers| == o.n && forall t :: 0 <= t < o.n ==> End(o, steps).callers[t].Passed?
  {
    SettlingRuns(o);
    steps := Rush(o, Settling(o));
  }

  /** When the breaker had been open before, any number of callers can pass before the new backoff: all of them
    * do while the opener is held up. */
  lemma EveryoneCanPassEarly(o: Start) returns (steps: seq<Step>)
    requires o.Valid() && o.openedAt > 0
    ensures steps == [Tick(o.backoff.Wait(o.openCount))] + Approaches(o.n) + Swaps(o.n) + Stores()
    ensures Run(o, steps) && End(o, steps).opener.Settled?
    ensures forall t :: 0 <= t < o.n ==> PassedEarly(o, steps, t)
  {
    var wait := [] + [Tick(o.backoff.Wait(o.openCount))];
    OneMore(o, [], Tick(o.backoff.Wait(o.openCount)));
    var rushed := Rush(o, wait);
    steps := Storing(o, rushed);
    StoringHistory(o.clock, rushed, ReadClock);
    forall t | 0 <= t < o.n ensures PassedEarly(o, steps, t) {
      RunsKeepInv(o, rushed);
      assert CallerOk(o, rushed, End(o, rushed), t);
      CheckedSinceStart(o, rushed, Check(t));
      StoringHistory(o.clock, rushed, Check(t));
    }
  }

  lemma HistoryStep(clock: nat, steps: seq<Step>, step: Step, x: Step)
    ensures When(clock, steps + [step], x) == if step == x then Some(Clock(clock, steps)) else When(clock, steps, x)
    ensures Clock(clock, steps + [step]) == Clock(clock, steps) + if step.Tick? then step.ms else 0
  {
    assert (steps + [step])[..|steps|] == steps;
  }

  lemma StoringHistory(clock: nat, steps: seq<Step>, x: Step)
    requires x.Check? || x.ReadClock?
    ensures When(clock, steps + Stores(), x) == if x.ReadClock? then Some(Clock(clock, steps) + 1) else When(clock, steps, x)
  {
    var one := steps + [Tick(1)];
    var two := one + [AddCount];
    var three := two + [ReadClock];
    HistoryStep(clock, steps, Tick(1), x);
    HistoryStep(clock, one, AddCount, x);
    HistoryStep(clock, two, ReadClock, x);
    HistoryStep(clock, three, StoreTime, x);
    assert three + [StoreTime] == steps + Stores();
  }

  ghost predicate RunsEarly(o: Start, steps: seq<Step>, t: nat) {
    Run(o, steps) && End(o, steps).opener.Settled? && t < o.n && PassedEarly(o, steps, t)
  }

  /** Some run lets a caller pass early exactly when the breaker still holds an earlier opening time. So a trip
    * from closed, which leaves 0 there, lets nobody pass early, and a failed probe can. */
  lemma EarlyPossibleExactly(o: Start)
    requires o.Valid()
    ensures (exists steps, t :: RunsEarly(o, steps, t)) <==> o.n > 0 && o.openedAt > 0
  {
    if exists steps, t :: RunsEarly(o, steps, t) {
      var steps, t :| RunsEarly(o, steps, t);
      EarlyExactly(o, steps, t);
    }
    if o.n > 0 && o.openedAt > 0 {
      var steps := EveryoneCanPassEarly(o);
      assert RunsEarly(o, steps, 0);
    }
  }
}
