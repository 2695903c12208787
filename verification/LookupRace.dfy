/** Concurrent lookups in the discovery cache (crates/clawdesk-acp/src/discovery.rs).
  *
  * `get` takes a shared reference, so lookups run at the same time, and nothing is put or removed meanwhile.
  * Each atomic access is a step: count the lookup, draw a tick from the clock, store it as the entry's stamp,
  * count the outcome. Whether an entry found is fresh, stale or expired is a free choice of the last step.
  */
module LookupRace {
  import opened Wrappers
  import opened Agents

  datatype Outcome = Hit | Stale | Miss

  /** Where a lookup is. */
  datatype Pc =
    | Idle
    | Counted(id: AgentId)             // total_lookups is bumped
    | Ticked(id: AgentId, tick: nat)   // has drawn its tick
    | Stamped(id: AgentId)             // has stored it
    | Done

  datatype State = State(stamps: map<AgentId, nat>, clock: nat, threads: seq<Pc>,
                         lookups: nat, hits: nat, stale: nat, misses: nat)

  datatype Step = Count(t: nat, id: AgentId) | Draw(t: nat) | Store(t: nat) | Finish(t: nat, outcome: Outcome)

  ghost predicate Enabled(s: State, step: Step) {
    step.t < |s.threads| &&
    var pc := s.threads[step.t];
    match step
    case Count(_, _) => pc.Idle?
    case Draw(_) => pc.Counted? && pc.id in s.stamps
    case Store(_) => pc.Ticked?
    case Finish(_, outcome) => pc.Stamped? || (pc.Counted? && pc.id !in s.stamps && outcome.Miss?)
  }

  ghost function After(s: State, step: Step): State
    requires Enabled(s, step)
  {
    var pc := s.threads[step.t];
    match step
    case Count(t, id) => s.(lookups := s.lookups + 1, threads := s.threads[t := Counted(id)])
    case Draw(t) => s.(clock := s.clock + 1, threads := s.threads[t := Ticked(pc.id, s.clock)])
    case Store(t) =>
      s.(stamps := if pc.id in s.stamps then s.stamps[pc.id := pc.tick] else s.stamps, threads := s.threads[t := Stamped(pc.id)])
    case Finish(t, outcome) =>
      s.(hits := s.hits + (if outcome.Hit? then 1 else 0), stale := s.stale + (if outcome.Stale? then 1 else 0),
         misses := s.misses + (if outcome.Miss? then 1 else 0), threads := s.threads[t := Done])
  }

  /** The steps are enabled one after the other. */
  ghost predicate Run(s: State, steps: seq<Step>)
    decreases |steps|, 0
  {
    steps == [] ||
    (Run(s, steps[..|steps| - 1]) && Enabled(End(s, steps[..|steps| - 1]), steps[|steps| - 1]))
  }

  ghost function End(s: State, steps: seq<Step>): State
    requires Run(s, steps)
    decreases |steps|, 1
  {
    if steps == [] then s else After(End(s, steps[..|steps| - 1]), steps[|steps| - 1])
  }

  lemma OneMore(s: State, steps: seq<Step>, step: Step)
    requires Run(s, steps) && Enabled(End(s, steps), step)
    ensures Run(s, steps + [step]) && End(s, steps + [step]) == After(End(s, steps), step)
  {
    assert (steps + [step])[..|steps|] == steps;
  }

  /** No lookup has begun; the stamps are distinct and in the past, and the counters agree. */
  ghost predicate Init(s: State) {
    && (forall t :: 0 <= t < |s.threads| ==> s.threads[t].Idle?)
    && (forall a :: a in s.stamps ==> s.stamps[a] < s.clock)
    && (forall a, b :: a in s.stamps && b in s.stamps && s.stamps[a] == s.stamps[b] ==> a == b)
    && s.lookups == s.hits + s.stale + s.misses
  }

  // ---------------------------------------------------------------------------------------------
  // Counters
  // ---------------------------------------------------------------------------------------------

  predicate UnderWay(pc: Pc) {
    pc.Counted? || pc.Ticked? || pc.Stamped?
  }

  function CountUnderWay(threads: seq<Pc>): nat
    decreases |threads|
  {
    if threads == [] then 0
    else CountUnderWay(threads[..|threads| - 1]) + if UnderWay(threads[|threads| - 1]) then 1 else 0
  }

  lemma {:induction false} CountUpdate(threads: seq<Pc>, t: nat, pc: Pc)
    requires t < |threads|
    ensures CountUnderWay(threads[t := pc]) + (if UnderWay(threads[t]) then 1 else 0) ==
      CountUnderWay(threads) + if UnderWay(pc) then 1 else 0
    decreases |threads|
  {
    var n := |threads| - 1;
    if t == n {
      assert threads[t := pc][..n] == threads[..n];
    } else {
      CountUpdate(threads[..n], t, pc);
      assert threads[t := pc][..n] == threads[..n][t := pc];
    }
  }

  lemma {:induction false} NoneUnderWay(threads: seq<Pc>)
    requires forall t :: 0 <= t < |threads| ==> !UnderWay(threads[t])
    ensures CountUnderWay(threads) == 0
    decreases |threads|
  {
    if threads != [] { NoneUnderWay(threads[..|threads| - 1]); }
  }

  lemma {:induction false} AccountKept(s: State, steps: seq<Step>)
    requires Run(s, steps)
    ensures var end := End(s, steps);
      end.lookups - end.hits - end.stale - end.misses - CountUnderWay(end.threads) ==
      s.lookups - s.hits - s.stale - s.misses - CountUnderWay(s.threads)
    decreases |steps|
  {
    if steps != [] {
      var front, last := steps[..|steps| - 1], steps[|steps| - 1];
      AccountKept(s, front);
      CountUpdate(End(s, front).threads, last.t, End(s, steps).threads[last.t]);
    }
  }

  /** For every interleaving: lookups = hits + stale serves + misses + lookups under way, so the sum is exact
    * whenever no lookup is under way. */
  lemma LookupsAddUp(s: State, steps: seq<Step>)
    requires Init(s) && Run(s, steps)
    ensures var end := End(s, steps);
      end.lookups == end.hits + end.stale + end.misses + CountUnderWay(end.threads)
  {
    NoneUnderWay(s.threads);
    AccountKept(s, steps);
  }

  // ---------------------------------------------------------------------------------------------
  // Stamps
  // ---------------------------------------------------------------------------------------------

  /** Stamps stored and ticks drawn are all different, and in the past. */
  ghost predicate Distinct(s: State) {
    && (forall a :: a in s.stamps ==> s.stamps[a] < s.clock)
    && (forall t :: 0 <= t < |s.threads| && s.threads[t].Ticked? ==> s.threads[t].tick < s.clock)
    && (forall a, b :: a in s.stamps && b in s.stamps && s.stamps[a] == s.stamps[b] ==> a == b)
    && (forall t, a :: 0 <= t < |s.threads| && s.threads[t].Ticked? && a in s.stamps ==> s.threads[t].tick != s.stamps[a])
    && (forall t, u :: 0 <= t < |s.threads| && 0 <= u < |s.threads| && SameTick(s.threads[t], s.threads[u]) ==> t == u)
  }

  predicate SameTick(x: Pc, y: Pc) {
    x.Ticked? && y.Ticked? && x.tick == y.tick
  }

  /** For every interleaving the stamps stay distinct, so an eviction afterwards has one victim. */
  lemma {:induction false} StampsStayDistinct(s: State, steps: seq<Step>)
    requires Distinct(s) && Run(s, steps)
    ensures Distinct(End(s, steps)) && End(s, steps).stamps.Keys == s.stamps.Keys
    decreases |steps|
  {
    if steps != [] {
      StampsStayDistinct(s, steps[..|steps| - 1]);
      DistinctStep(End(s, steps[..|steps| - 1]), steps[|steps| - 1]);
    }
  }

  lemma DistinctStep(s: State, step: Step)
    requires Distinct(s) && Enabled(s, step)
    ensures Distinct(After(s, step)) && After(s, step).stamps.Keys == s.stamps.Keys
  {
    if step.Store? {
      StoreStep(s, step);
    } else {
      OtherStep(s, step);
    }
  }

  lemma StoreStep(s: State, step: Step)
    requires Distinct(s) && Enabled(s, step) && step.Store?
    ensures Distinct(After(s, step)) && After(s, step).stamps.Keys == s.stamps.Keys
  {}

  lemma OtherStep(s: State, step: Step)
    requires Distinct(s) && Enabled(s, step) && !step.Store?
    ensures Distinct(After(s, step)) && After(s, step).stamps.Keys == s.stamps.Keys
  {
    var u := After(s, step);
    assert u.stamps == s.stamps && forall t :: 0 <= t < |s.threads| && u.threads[t].Ticked? ==>
      (t == step.t && step.Draw? && u.threads[t].tick == s.clock) || u.threads[t] == s.threads[t];
  }

  // ---------------------------------------------------------------------------------------------
  // Recency
  // ---------------------------------------------------------------------------------------------

  // What happened, read off the steps. An entry is used when a lookup of it draws its tick.

  /** What the lookup is for. */
  function Target(steps: seq<Step>, t: nat): Option<AgentId>
    decreases |steps|
  {
    if steps == [] then None
    else
      var front, last := steps[..|steps| - 1], steps[|steps| - 1];
      if Target(front, t).Some? then Target(front, t)
      else if last.Count? && last.t == t then Some(last.id) else None
  }

  function Draws(steps: seq<Step>): nat
    decreases |steps|
  {
    if steps == [] then 0 else Draws(steps[..|steps| - 1]) + if steps[|steps| - 1].Draw? then 1 else 0
  }

  predicate Drew(steps: seq<Step>, t: nat)
    decreases |steps|
  {
    steps != [] && (steps[|steps| - 1] == Draw(t) || Drew(steps[..|steps| - 1], t))
  }

  /** The tick the lookup drew, on a clock that starts at the one given. */
  function TickOf(clock: nat, steps: seq<Step>, t: nat): nat
    decreases |steps|
  {
    if steps == [] then 0
    else
      var front, last := steps[..|steps| - 1], steps[|steps| - 1];
      if last == Draw(t) then clock + Draws(front) else TickOf(clock, front, t)
  }

  /** The lookup that drew last for the entry. */
  function LastDrawer(steps: seq<Step>, a: AgentId): Option<nat>
    decreases |steps|
  {
    if steps == [] then None
    else
      var front, last := steps[..|steps| - 1], steps[|steps| - 1];
      if last.Draw? && Target(front, last.t) == Some(a) then Some(last.t) else LastDrawer(front, a)
  }

  /** The lookup that stored last for the entry. */
  function LastStorer(steps: seq<Step>, a: AgentId): Option<nat>
    decreases |steps|
  {
    if steps == [] then None
    else
      var front, last := steps[..|steps| - 1], steps[|steps| - 1];
      if last.Store? && Target(front, last.t) == Some(a) then Some(last.t) else LastStorer(front, a)
  }

  /** The tick of the lookup, or the stamp the entry began with. */
  function TickBy(s: State, steps: seq<Step>, a: AgentId, who: Option<nat>): nat
    requires a in s.stamps
  {
    if who.Some? then TickOf(s.clock, steps, who.value) else s.stamps[a]
  }

  /** When the entry was used last. */
  function LastUse(s: State, steps: seq<Step>, a: AgentId): nat
    requires a in s.stamps
  {
    TickBy(s, steps, a, LastDrawer(steps, a))
  }

  ghost predicate ThreadFollows(s: State, steps: seq<Step>, pc: Pc, t: nat) {
    var target, drew := Target(steps, t), Drew(steps, t);
    match pc
    case Idle => target == None && !drew
    case Counted(id) => target == Some(id) && !drew
    case Ticked(id, tick) => target == Some(id) && drew && tick == TickOf(s.clock, steps, t) && id in s.stamps
    case Stamped(id) => target == Some(id) && drew && LastStorer(steps, id).Some?
    case Done => target.Some? && (drew ==> LastStorer(steps, target.value).Some?)
  }

  ghost predicate Follows(s: State, steps: seq<Step>, end: State) {
    && |end.threads| == |s.threads| && end.stamps.Keys == s.stamps.Keys && end.clock == s.clock + Draws(steps)
    && (forall t :: 0 <= t < |end.threads| ==> ThreadFollows(s, steps, end.threads[t], t))
    && (forall t :: |end.threads| <= t ==> Target(steps, t) == None)
  }

  /** For every interleaving the threads are where the steps say. */
  lemma {:induction false} RunFollows(s: State, steps: seq<Step>)
    requires Init(s) && Run(s, steps)
    ensures Follows(s, steps, End(s, steps))
    decreases |steps|
  {
    if steps != [] {
      var front, last := steps[..|steps| - 1], steps[|steps| - 1];
      RunFollows(s, front);
      var before, end := End(s, front), End(s, steps);
      forall t | 0 <= t < |end.threads| ensures ThreadFollows(s, steps, end.threads[t], t) {
        assert ThreadFollows(s, front, before.threads[t], t);
      }
    }
  }

  /** For every interleaving a stamp is the tick of the lookup that stored last. */
  lemma {:induction false} StampFollows(s: State, steps: seq<Step>, a: AgentId)
    requires Init(s) && Run(s, steps) && a in s.stamps
    ensures a in End(s, steps).stamps && End(s, steps).stamps[a] == TickBy(s, steps, a, LastStorer(steps, a))
    ensures LastStorer(steps, a).Some? ==>
      Drew(steps, LastStorer(steps, a).value) && Target(steps, LastStorer(steps, a).value) == Some(a)
    decreases |steps|
  {
    if steps != [] {
      var front, last := steps[..|steps| - 1], steps[|steps| - 1];
      StampFollows(s, front, a);
      RunFollows(s, front);
      assert ThreadFollows(s, front, End(s, front).threads[last.t], last.t);
    }
  }

  lemma {:induction false} TicksInThePast(clock: nat, steps: seq<Step>, t: nat)
    requires Drew(steps, t)
    ensures clock <= TickOf(clock, steps, t) < clock + Draws(steps)
    decreases |steps|
  {
    if steps[|steps| - 1] != Draw(t) { TicksInThePast(clock, steps[..|steps| - 1], t); }
  }

  lemma {:induction false} TicksDiffer(clock: nat, steps: seq<Step>, t: nat, u: nat)
    requires Drew(steps, t) && Drew(steps, u) && t != u
    ensures TickOf(clock, steps, t) != TickOf(clock, steps, u)
    decreases |steps|
  {
    var front := steps[..|steps| - 1];
    if steps[|steps| - 1] == Draw(t) {
      TicksInThePast(clock, front, u);
    } else if steps[|steps| - 1] == Draw(u) {
      TicksInThePast(clock, front, t);
    } else {
      TicksDiffer(clock, front, t, u);
    }
  }

  /** Whoever drew for an entry drew no later than its last drawer. */
  lemma {:induction false} LastDrawerIsLatest(s: State, steps: seq<Step>, a: AgentId, t: nat)
    requires Init(s) && Run(s, steps) && Drew(steps, t) && Target(steps, t) == Some(a)
    ensures LastDrawer(steps, a).Some?
    ensures var u := LastDrawer(steps, a).value;
      Drew(steps, u) && Target(steps, u) == Some(a) && TickOf(s.clock, steps, t) <= TickOf(s.clock, steps, u)
    decreases |steps|
  {
    var front, last := steps[..|steps| - 1], steps[|steps| - 1];
    RunFollows(s, front);
    assert ThreadFollows(s, front, End(s, front).threads[last.t], last.t);
    if Drew(front, t) && last != Draw(t) {
      assert t < |s.threads| && ThreadFollows(s, front, End(s, front).threads[t], t);
      LastDrawerIsLatest(s, front, a, t);
      TicksInThePast(s.clock, front, t);
    }
  }

  /** For every interleaving: once an entry is looked up, its stamp is the tick of its latest use exactly
    * when the lookup that drew last for it also stored last. */
  lemma StampIsLastUseExactly(s: State, steps: seq<Step>, a: AgentId)
    requires Init(s) && Run(s, steps) && a in s.stamps && LastDrawer(steps, a).Some?
    ensures a in End(s, steps).stamps
    ensures End(s, steps).stamps[a] == LastUse(s, steps, a) <==> LastStorer(steps, a) == LastDrawer(steps, a)
  {
    StampFollows(s, steps, a);
    DrawerDrew(s, steps, a);
    var drawer := LastDrawer(steps, a).value;
    TicksInThePast(s.clock, steps, drawer);
    if LastStorer(steps, a).Some? && LastStorer(steps, a).value != drawer {
      TicksDiffer(s.clock, steps, LastStorer(steps, a).value, drawer);
    }
  }

  lemma {:induction false} DrawerDrew(s: State, steps: seq<Step>, a: AgentId)
    requires Init(s) && Run(s, steps) && LastDrawer(steps, a).Some?
    ensures Drew(steps, LastDrawer(steps, a).value) && Target(steps, LastDrawer(steps, a).value) == Some(a)
    decreases |steps|
  {
    var front, last := steps[..|steps| - 1], steps[|steps| - 1];
    if !(last.Draw? && Target(front, last.t) == Some(a)) { DrawerDrew(s, front, a); }
  }

  /** A stamp is never ahead of the latest use. */
  lemma StampNotAhead(s: State, steps: seq<Step>, a: AgentId)
    requires Init(s) && Run(s, steps) && a in s.stamps
    ensures a in End(s, steps).stamps && End(s, steps).stamps[a] <= LastUse(s, steps, a)
  {
    StampFollows(s, steps, a);
    if LastStorer(steps, a).Some? {
      LastDrawerIsLatest(s, steps, a, LastStorer(steps, a).value);
    } else if LastDrawer(steps, a).Some? {
      DrawerDrew(s, steps, a);
      TicksInThePast(s.clock, steps, LastDrawer(steps, a).value);
    }
  }

  ghost predicate StampedBefore(s: State, a: AgentId, b: AgentId) {
    a in s.stamps && b in s.stamps && s.stamps[a] < s.stamps[b]
  }

  predicate UsedBefore(s: State, steps: seq<Step>, a: AgentId, b: AgentId) {
    a in s.stamps && b in s.stamps && LastUse(s, steps, a) < LastUse(s, steps, b)
  }

  /** Used later, and still the older stamp. */
  ghost predicate Aged(s: State, steps: seq<Step>, a: AgentId, b: AgentId)
    requires Run(s, steps)
  {
    UsedBefore(s, steps, b, a) && StampedBefore(End(s, steps), a, b)
  }

  /** The lookup of a that stored last is not the one that drew last; it drew before the one that b was stored
    * with, and the one that drew last for a drew after every lookup of b. */
  predicate Overtaken(s: State, steps: seq<Step>, a: AgentId, b: AgentId)
    requires a in s.stamps && b in s.stamps
  {
    && LastStorer(steps, a) != LastDrawer(steps, a)
    && TickBy(s, steps, a, LastStorer(steps, a)) < TickBy(s, steps, b, LastStorer(steps, b))
    && LastUse(s, steps, b) < LastUse(s, steps, a)
  }

  /** For every interleaving: an entry used after another one has the older stamp exactly when it was
    * overtaken. */
  lemma AgedExactly(s: State, steps: seq<Step>, a: AgentId, b: AgentId)
    requires Init(s) && Run(s, steps) && a in s.stamps && b in s.stamps
    ensures Aged(s, steps, a, b) <==> Overtaken(s, steps, a, b)
  {
    StampFollows(s, steps, a);
    StampFollows(s, steps, b);
    StampNotAhead(s, steps, b);
  }

  /** For every interleaving: the stamps order the entries as their latest uses do exactly when no entry was
    * overtaken. */
  lemma OrderOfUseExactly(s: State, steps: seq<Step>)
    requires Init(s) && Run(s, steps)
    ensures (forall a, b :: StampedBefore(End(s, steps), a, b) <==> UsedBefore(s, steps, a, b)) <==>
            (forall a, b :: a in s.stamps && b in s.stamps ==> !Overtaken(s, steps, a, b))
  {
    RunFollows(s, steps);
    forall a, b | a in s.stamps && b in s.stamps
      ensures Overtaken(s, steps, a, b) <==> Aged(s, steps, a, b)
      ensures LastUse(s, steps, a) == LastUse(s, steps, b) ==> a == b
    {
      AgedExactly(s, steps, a, b);
      UsesDiffer(s, steps, a, b);
    }
    if forall a, b :: a in s.stamps && b in s.stamps ==> !Overtaken(s, steps, a, b) {
      NoneAged(s, steps);
    }
  }

  lemma UsesDiffer(s: State, steps: seq<Step>, a: AgentId, b: AgentId)
    requires Init(s) && Run(s, steps) && a in s.stamps && b in s.stamps
    ensures LastUse(s, steps, a) == LastUse(s, steps, b) ==> a == b
  {
    var x, y := LastDrawer(steps, a), LastDrawer(steps, b);
    if x.Some? {
      DrawerDrew(s, steps, a);
      TicksInThePast(s.clock, steps, x.value);
    }
    if y.Some? {
      DrawerDrew(s, steps, b);
      TicksInThePast(s.clock, steps, y.value);
    }
    if x.Some? && y.Some? && x != y { TicksDiffer(s.clock, steps, x.value, y.value); }
  }

  lemma NoneAged(s: State, steps: seq<Step>)
    requires Init(s) && Run(s, steps) && forall a, b :: !Aged(s, steps, a, b)
    ensures forall a, b :: StampedBefore(End(s, steps), a, b) <==> UsedBefore(s, steps, a, b)
  {
    StampsStayDistinct(s, steps);
    forall a, b ensures StampedBefore(End(s, steps), a, b) <==> UsedBefore(s, steps, a, b) {
      assert !Aged(s, steps, a, b) && !Aged(s, steps, b, a);
      if a in s.stamps && b in s.stamps { UsesDiffer(s, steps, a, b); }
    }
  }

  ghost predicate NothingPending(s: State) {
    forall t :: 0 <= t < |s.threads| ==> !s.threads[t].Ticked?
  }

  ghost predicate LosesRecency(s: State, steps: seq<Step>) {
    Run(s, steps) && NothingPending(End(s, steps)) && exists a, b :: Aged(s, steps, a, b)
  }

  /** With every tick stored, the order of the stamps can differ from the order of use exactly when there are
    * at least three lookups and two entries. */
  lemma RecencyLostExactly(s: State)
    requires Init(s)
    ensures (exists steps :: LosesRecency(s, steps)) <==> |s.threads| >= 3 && |s.stamps| >= 2
  {
    if |s.threads| >= 3 && |s.stamps| >= 2 {
      var a, b := TwoEntries(s.stamps);
      var steps := LateStoreAges(s, a, b);
      assert LosesRecency(s, steps);
    }
    if exists steps :: LosesRecency(s, steps) {
      var steps :| LosesRecency(s, steps);
      var a, b :| Aged(s, steps, a, b);
      AgingTakesThree(s, steps, a, b);
    }
  }

  lemma TwoEntries(stamps: map<AgentId, nat>) returns (a: AgentId, b: AgentId)
    requires |stamps| >= 2
    ensures a in stamps && b in stamps && a != b
  {
    a :| a in stamps.Keys;
    assert |stamps.Keys - {a}| == |stamps.Keys| - 1;
    b :| b in stamps.Keys - {a};
  }

  lemma AgingTakesThree(s: State, steps: seq<Step>, a: AgentId, b: AgentId)
    requires Init(s) && Run(s, steps) && NothingPending(End(s, steps)) && Aged(s, steps, a, b)
    ensures |s.threads| >= 3 && |s.stamps| >= 2
  {
    AgedExactly(s, steps, a, b);
    StampNotAhead(s, steps, b);
    RunFollows(s, steps);
    var drawer := AgedWasDrawn(s, steps, a, b);
    var early := DrawnIsStored(s, steps, a, drawer);
    StampFollows(s, steps, a);
    StampFollows(s, steps, b);
    TicksInThePast(s.clock, steps, early);
    assert LastStorer(steps, b).Some?;
    var other := LastStorer(steps, b).value;
    assert Target(steps, other) == Some(b) && other != drawer && other != early && drawer != early;
    assert {a, b} <= s.stamps.Keys;
    Cardinality({a, b}, s.stamps.Keys);
  }

  lemma {:induction false} Cardinality(small: set<AgentId>, large: set<AgentId>)
    requires small <= large
    ensures |small| <= |large|
  {
    assert large == small + (large - small);
  }

  lemma AgedWasDrawn(s: State, steps: seq<Step>, a: AgentId, b: AgentId) returns (drawer: nat)
    requires Init(s) && Run(s, steps) && Aged(s, steps, a, b)
    ensures LastDrawer(steps, a) == Some(drawer) && Drew(steps, drawer) && Target(steps, drawer) == Some(a)
  {
    StampNotAhead(s, steps, b);
    StampFollows(s, steps, a);
    if LastDrawer(steps, a) == None {
      if LastStorer(steps, a).Some? { LastDrawerIsLatest(s, steps, a, LastStorer(steps, a).value); }
      assert false;
    }
    drawer := LastDrawer(steps, a).value;
    DrawerDrew(s, steps, a);
  }

  lemma DrawnIsStored(s: State, steps: seq<Step>, a: AgentId, t: nat) returns (u: nat)
    requires Init(s) && Run(s, steps) && NothingPending(End(s, steps)) && a in s.stamps
    requires Drew(steps, t) && Target(steps, t) == Some(a)
    ensures LastStorer(steps, a) == Some(u) && Drew(steps, u) && Target(steps, u) == Some(a)
  {
    RunFollows(s, steps);
    assert ThreadFollows(s, steps, End(s, steps).threads[t], t);
    StampFollows(s, steps, a);
    u := LastStorer(steps, a).value;
  }

  // Runs ---------------------------------------------------------------------------------------------------

  /** After a lookup up to its store. */
  function Looked(s: State, t: nat, id: AgentId): State
    requires t < |s.threads|
  {
    s.(stamps := s.stamps[id := s.clock], clock := s.clock + 1, threads := s.threads[t := Stamped(id)], lookups := s.lookups + 1)
  }

  function Lookup(t: nat, id: AgentId): seq<Step> {
    [Count(t, id), Draw(t), Store(t)]
  }

  lemma HistoryStep(clock: nat, steps: seq<Step>, step: Step, x: AgentId, u: nat)
    ensures LastDrawer(steps + [step], x) ==
      if step.Draw? && Target(steps, step.t) == Some(x) then Some(step.t) else LastDrawer(steps, x)
    ensures TickOf(clock, steps + [step], u) == if step == Draw(u) then clock + Draws(steps) else TickOf(clock, steps, u)
    ensures Draws(steps + [step]) == Draws(steps) + if step.Draw? then 1 else 0
  {
    assert (steps + [step])[..|steps|] == steps;
  }

  /** What a lookup from its count to its store, with no other step in between, adds to the history. */
  lemma LookupHistory(clock: nat, steps: seq<Step>, t: nat, id: AgentId, x: AgentId, u: nat)
    requires Target(steps, t) == None
    ensures var all := steps + Lookup(t, id);
      && LastDrawer(all, x) == (if x == id then Some(t) else LastDrawer(steps, x))
      && TickOf(clock, all, u) == (if u == t then clock + Draws(steps) else TickOf(clock, steps, u))
  {
    var one := steps + [Count(t, id)];
    var two := one + [Draw(t)];
    HistoryStep(clock, steps, Count(t, id), x, u);
    HistoryStep(clock, one, Draw(t), x, u);
    HistoryStep(clock, two, Store(t), x, u);
    assert Target(one, t) == Some(id) by { assert one[..|steps|] == steps; }
    assert two + [Store(t)] == steps + Lookup(t, id);
  }

  lemma WholeLookup(s: State, steps: seq<Step>, t: nat, id: AgentId)
    requires Init(s) && Run(s, steps) && t < |End(s, steps).threads| && End(s, steps).threads[t].Idle? && id in End(s, steps).stamps
    ensures Run(s, steps + Lookup(t, id)) && End(s, steps + Lookup(t, id)) == Looked(End(s, steps), t, id)
    ensures Target(steps, t) == None && End(s, steps).clock == s.clock + Draws(steps)
  {
    RunFollows(s, steps);
    assert ThreadFollows(s, steps, End(s, steps).threads[t], t);
    var one := steps + [Count(t, id)];
    var two := one + [Draw(t)];
    OneMore(s, steps, Count(t, id));
    OneMore(s, one, Draw(t));
    OneMore(s, two, Store(t));
    assert two + [Store(t)] == steps + Lookup(t, id);
  }

  /** A lookup alone makes its entry the most recent one. */
  lemma AloneIsNewest(s: State, t: nat, id: AgentId, outcome: Outcome) returns (steps: seq<Step>)
    requires Init(s) && t < |s.threads| && id in s.stamps
    ensures steps == [Count(t, id), Draw(t), Store(t), Finish(t, outcome)]
    ensures Run(s, steps) && End(s, steps).stamps.Keys == s.stamps.Keys
    ensures forall a :: a in s.stamps && a != id ==> End(s, steps).stamps[a] < End(s, steps).stamps[id]
  {
    var before := LookupFromStart(s, t, id);
    OneMore(s, before, Finish(t, outcome));
    steps := before + [Finish(t, outcome)];
  }

  lemma LookupFromStart(s: State, t: nat, id: AgentId) returns (steps: seq<Step>)
    requires Init(s) && t < |s.threads| && id in s.stamps
    ensures steps == Lookup(t, id) && Run(s, steps) && End(s, steps) == Looked(s, t, id)
  {
    steps := [] + Lookup(t, id);
    WholeLookup(s, [], t, id);
  }

  /** Interleaved, recency can be lost: thread 0 draws its tick for a and is held up; then b is looked up, and
    * then a again; when thread 0 stores at last, a has an older stamp than b, though it was used later. */
  lemma LateStoreAges(s: State, a: AgentId, b: AgentId) returns (steps: seq<Step>)
    requires Init(s) && |s.threads| >= 3 && a in s.stamps && b in s.stamps && a != b
    ensures steps == [Count(0, a), Draw(0)] + Lookup(1, b) + Lookup(2, a) + [Store(0)]
    ensures Run(s, steps) && NothingPending(End(s, steps)) && Aged(s, steps, a, b)
  {
    var all := UpToTheStore(s, a, b);
    OneMore(s, all, Store(0));
    HistoryStep(s.clock, all, Store(0), a, 2);
    HistoryStep(s.clock, all, Store(0), b, 1);
    steps := all + [Store(0)];
  }

  lemma UpToTheStore(s: State, a: AgentId, b: AgentId) returns (steps: seq<Step>)
    requires Init(s) && |s.threads| >= 3 && a in s.stamps && b in s.stamps && a != b
    ensures steps == [Count(0, a), Draw(0)] + Lookup(1, b) + Lookup(2, a)
    ensures Run(s, steps)
    ensures var end := End(s, steps);
      && end.stamps == s.stamps[b := s.clock + 1][a := s.clock + 2]
      && end.threads == s.threads[0 := Ticked(a, s.clock)][1 := Stamped(b)][2 := Stamped(a)]
    ensures LastDrawer(steps, a) == Some(2) && TickOf(s.clock, steps, 2) == s.clock + 2
    ensures LastDrawer(steps, b) == Some(1) && TickOf(s.clock, steps, 1) == s.clock + 1
  {
    var other := OtherLookedUp(s, a, b);
    WholeLookup(s, other, 2, a);
    LookupHistory(s.clock, other, 2, a, b, 1);
    LookupHistory(s.clock, other, 2, a, a, 2);
    steps := other + Lookup(2, a);
  }

  lemma OtherLookedUp(s: State, a: AgentId, b: AgentId) returns (steps: seq<Step>)
    requires Init(s) && |s.threads| >= 2 && a in s.stamps && b in s.stamps
    ensures steps == [Count(0, a), Draw(0)] + Lookup(1, b)
    ensures Run(s, steps) && End(s, steps).stamps == s.stamps[b := s.clock + 1] && End(s, steps).clock == s.clock + 2
    ensures End(s, steps).threads == s.threads[0 := Ticked(a, s.clock)][1 := Stamped(b)]
    ensures LastDrawer(steps, b) == Some(1) && TickOf(s.clock, steps, 1) == s.clock + 1
  {
    var held := HeldUp(s, a);
    WholeLookup(s, held, 1, b);
    LookupHistory(s.clock, held, 1, b, b, 1);
    steps := held + Lookup(1, b);
  }

  /** A lookup that has drawn its tick and not stored it. */
  lemma HeldUp(s: State, a: AgentId) returns (steps: seq<Step>)
    requires Init(s) && |s.threads| > 0 && a in s.stamps
    ensures steps == [Count(0, a), Draw(0)] && Run(s, steps)
    ensures End(s, steps).stamps == s.stamps && End(s, steps).clock == s.clock + 1
    ensures End(s, steps).threads == s.threads[0 := Ticked(a, s.clock)]
  {
    OneMore(s, [], Count(0, a));
    OneMore(s, [] + [Count(0, a)], Draw(0));
    steps := [] + [Count(0, a)] + [Draw(0)];
  }
}
