/** Session-aware routing (crates/clawdesk-acp/src/session_router.rs): sticky sessions over the capability
  * router, and one circuit breaker for each agent.
  *
  * `After` is the state a call leaves and `Allowed` what a routing call may answer; the class is proved
  * against both. Time is passed in.
  */
module SessionRouter {
  import opened Wrappers
  import opened Agents
  import opened Sets
  import opened Taxonomy
  import opened Router
  import Capability

  datatype SessionKey = SessionKey(text: string)

  datatype Source = ClawDesk | OpenClaw(gatewayUrl: string) | External(discoveryUrl: string)

  datatype Affinity = Affinity(agent: AgentId, establishedAt: int, turnCount: nat, lastUsed: int)

  datatype Config = Config(tripThreshold: nat, recoveryTimeout: int, affinityTtl: int)

  datatype Breaker = Breaker(failures: nat, tripThreshold: nat, trippedAt: Option<int>, recoveryTimeout: int) {
    /** Blocking: tripped, and the recovery time has not passed. */
    predicate IsOpen(now: int) { trippedAt.Some? && now - trippedAt.value < recoveryTimeout }

    function Succeeded(): Breaker { this.(failures := 0, trippedAt := None) }

    predicate Trips() { failures + 1 >= tripThreshold }

    function Failed(now: int): Breaker {
      this.(failures := failures + 1, trippedAt := if Trips() then Some(now) else trippedAt)
    }
  }

  function NewBreaker(config: Config): Breaker {
    Breaker(0, config.tripThreshold, None, config.recoveryTimeout)
  }

  type Entries = map<AgentId, Entry>
  type Breakers = map<AgentId, Breaker>
  type Affinities = map<SessionKey, Affinity>

  datatype State = State(agents: Entries, breakers: Breakers, affinity: Affinities, sources: map<AgentId, Source>)

  /** One call, with its answer where it routes. The last five are calls to the directory, a public field:
    * `Enlist` and `Remove` register and deregister an agent there alone. The keys that a thread is unbound
    * from are the ones whose text mentions it. */
  datatype Event =
    | Register(card: Card, source: Source)
    | Deregister(id: AgentId)
    | Ask(key: SessionKey, required: seq<Cap>, exclude: seq<AgentId>, answer: Decision)
    | Success(id: AgentId)
    | Failure(id: AgentId)
    | BreakAffinity(key: SessionKey)
    | EvictStale
    | BindThread(key: SessionKey, id: AgentId)
    | UnbindThread(gone: set<SessionKey>)
    | SetHealth(id: AgentId, healthy: bool, latency: Option<nat>)
    | ChangeTasks(id: AgentId, change: int)
    | React(id: AgentId, positive: bool)
    | Enlist(card: Card)
    | Remove(id: AgentId)

  datatype Timed = At(now: int, event: Event)

  predicate BreakerOk(breakers: Breakers, id: AgentId, now: int) {
    id in breakers ==> !breakers[id].IsOpen(now)
  }

  /** What an answered agent must be: registered, healthy, not excluded and not blocked. */
  predicate Serviceable(s: State, id: AgentId, exclude: seq<AgentId>, now: int) {
    id in s.agents && s.agents[id].healthy && id !in exclude && BreakerOk(s.breakers, id, now)
  }

  /** The session is bound to an agent that can still be answered. */
  predicate Sticks(s: State, key: SessionKey, exclude: seq<AgentId>, now: int) {
    key in s.affinity && Serviceable(s, s.affinity[key].agent, exclude, now)
  }

  function OpenAgents(breakers: Breakers, now: int): set<AgentId> {
    set id | id in breakers && breakers[id].IsOpen(now)
  }

  /** A bound session gets its agent; any other call gets what the capability router may answer when the
    * agents behind an open breaker are excluded too. */
  ghost predicate Allowed(reg: Registry, s: State, at: Timed)
    requires reg.Valid()
  {
    Socials(s.agents) &&
    match at.event
    case Ask(key, required, exclude, answer) =>
      if Sticks(s, key, exclude, at.now) then answer == Route(s.affinity[key].agent, 1.0)
      else Answers(reg, s.agents, required, Names(exclude) + OpenAgents(s.breakers, at.now), answer)
    case _ => true
  }

  function Rebound(s: State, key: SessionKey, exclude: seq<AgentId>, answer: Decision, now: int): Affinities {
    if Sticks(s, key, exclude, now) then
      s.affinity[key := s.affinity[key].(turnCount := s.affinity[key].turnCount + 1, lastUsed := now)]
    else if answer.Route? then s.affinity[key := Affinity(answer.agent, now, 1, now)]
    else s.affinity - {key}
  }

  function NotOn(affinity: Affinities, id: AgentId): Affinities {
    map k | k in affinity && affinity[k].agent != id :: affinity[k]
  }

  function UsedSince(affinity: Affinities, cutoff: int): Affinities {
    map k | k in affinity && affinity[k].lastUsed > cutoff :: affinity[k]
  }

  // What a call does to each part of the state; a failure that trips the breaker marks the agent unhealthy.

  function AgentsAfter(s: State, at: Timed): Entries {
    match at.event
    case Register(card, _) => s.agents[card.id := Fresh(card)]
    case Enlist(card) => s.agents[card.id := Fresh(card)]
    case Deregister(id) => s.agents - {id}
    case Remove(id) => s.agents - {id}
    case Failure(id) =>
      if id in s.breakers && s.breakers[id].Trips() then WithHealth(s.agents, id, false, None) else s.agents
    case SetHealth(id, healthy, latency) => WithHealth(s.agents, id, healthy, latency)
    case ChangeTasks(id, change) => WithTasks(s.agents, id, change)
    case React(id, positive) => WithReaction(s.agents, id, positive)
    case _ => s.agents
  }

  function BreakersAfter(config: Config, s: State, at: Timed): Breakers {
    match at.event
    case Register(card, _) => s.breakers[card.id := NewBreaker(config)]
    case Deregister(id) => s.breakers - {id}
    case Success(id) => if id in s.breakers then s.breakers[id := s.breakers[id].Succeeded()] else s.breakers
    case Failure(id) => if id in s.breakers then s.breakers[id := s.breakers[id].Failed(at.now)] else s.breakers
    case _ => s.breakers
  }

  function AffinityAfter(config: Config, s: State, at: Timed): Affinities {
    match at.event
    case Deregister(id) => NotOn(s.affinity, id)
    case Ask(key, _, exclude, answer) => Rebound(s, key, exclude, answer, at.now)
    case BreakAffinity(key) => s.affinity - {key}
    case EvictStale => UsedSince(s.affinity, at.now - config.affinityTtl)
    case BindThread(key, id) => s.affinity[key := Affinity(id, at.now, 0, at.now)]
    case UnbindThread(gone) => s.affinity - gone
    case _ => s.affinity
  }

  function SourcesAfter(s: State, at: Timed): map<AgentId, Source> {
    match at.event
    case Register(card, source) => s.sources[card.id := source]
    case Deregister(id) => s.sources - {id}
    case _ => s.sources
  }

  function After(config: Config, s: State, at: Timed): State {
    State(AgentsAfter(s, at), BreakersAfter(config, s, at), AffinityAfter(config, s, at), SourcesAfter(s, at))
  }

  type Trace = seq<Timed>

  function AfterAll(config: Config, s: State, trace: Trace): State
    decreases |trace|
  {
    if trace == [] then s else After(config, AfterAll(config, s, trace[..|trace| - 1]), trace[|trace| - 1])
  }

  ghost predicate AllowedAll(config: Config, reg: Registry, s: State, trace: Trace)
    requires reg.Valid()
    decreases |trace|
  {
    trace == [] ||
    (AllowedAll(config, reg, s, trace[..|trace| - 1]) &&
     Allowed(reg, AfterAll(config, s, trace[..|trace| - 1]), trace[|trace| - 1]))
  }

  // ---------------------------------------------------------------------------------------------
  // Answers
  // ---------------------------------------------------------------------------------------------

  predicate AnswersAgent(at: Timed, id: AgentId) {
    at.event.Ask? && at.event.answer.Route? && at.event.answer.agent == id
  }

  /** Whatever the state, an answered agent is registered, healthy, not excluded and not blocked. */
  lemma AnswersAreServiceable(reg: Registry, s: State, at: Timed, id: AgentId)
    requires reg.Valid() && Allowed(reg, s, at) && AnswersAgent(at, id)
    ensures Serviceable(s, id, at.event.exclude, at.now)
  {
    var key := at.event.key;
    if !Sticks(s, key, at.event.exclude, at.now) {
      var excluded := Names(at.event.exclude) + OpenAgents(s.breakers, at.now);
      assert Available(s.agents[id], id, excluded);
      assert id !in OpenAgents(s.breakers, at.now);
    }
  }

  // ---------------------------------------------------------------------------------------------
  // Sticky sessions
  // ---------------------------------------------------------------------------------------------

  predicate BoundTo(s: State, key: SessionKey, id: AgentId) {
    key in s.affinity && s.affinity[key].agent == id
  }

  /** The calls that leave a binding in place. */
  predicate Keeps(config: Config, s: State, at: Timed, key: SessionKey, id: AgentId)
    requires key in s.affinity
  {
    match at.event
    case Deregister(gone) => gone != id
    case Ask(asked, _, exclude, _) => asked == key ==> Serviceable(s, id, exclude, at.now)
    case BreakAffinity(broken) => broken != key
    case EvictStale => s.affinity[key].lastUsed > at.now - config.affinityTtl
    case BindThread(bound, other) => bound == key ==> other == id
    case UnbindThread(gone) => key !in gone
    case _ => true
  }

  /** A binding survives a call exactly when the call is one of those; in particular a session whose
    * agent cannot be answered is moved to another agent or unbound. */
  lemma StaysBoundExactly(config: Config, reg: Registry, s: State, at: Timed, key: SessionKey, id: AgentId)
    requires reg.Valid() && Allowed(reg, s, at) && BoundTo(s, key, id)
    ensures BoundTo(After(config, s, at), key, id) <==> Keeps(config, s, at, key, id)
  {
    if at.event.Ask? && at.event.key == key && AnswersAgent(at, id) {
      AnswersAreServiceable(reg, s, at, id);
    }
  }

  predicate KeepsAll(config: Config, s: State, trace: Trace, key: SessionKey, id: AgentId)
    decreases |trace|
  {
    trace == [] ||
    (var front := trace[..|trace| - 1];
     KeepsAll(config, s, front, key, id) && key in AfterAll(config, s, front).affinity &&
     Keeps(config, AfterAll(config, s, front), trace[|trace| - 1], key, id))
  }

  predicate AsksFor(at: Timed, key: SessionKey) {
    at.event.Ask? && at.event.key == key
  }

  /** Over every run: while nothing removes or replaces the binding and the agent stays serviceable when
    * it is asked for, every call of the session is answered with that agent. */
  lemma {:induction false} Sticky(config: Config, reg: Registry, s: State, trace: Trace, key: SessionKey, id: AgentId)
    requires reg.Valid() && AllowedAll(config, reg, s, trace) && BoundTo(s, key, id) && KeepsAll(config, s, trace, key, id)
    ensures BoundTo(AfterAll(config, s, trace), key, id)
    ensures forall i :: 0 <= i < |trace| && AsksFor(trace[i], key) ==> trace[i].event.answer == Route(id, 1.0)
    decreases |trace|
  {
    if trace != [] {
      var front, last := trace[..|trace| - 1], trace[|trace| - 1];
      Sticky(config, reg, s, front, key, id);
      StaysBoundExactly(config, reg, AfterAll(config, s, front), last, key, id);
      forall i | 0 <= i < |trace| && AsksFor(trace[i], key) ensures trace[i].event.answer == Route(id, 1.0) {
        if i < |front| { assert trace[i] == front[i]; }
      }
    }
  }

  function Turns(trace: Trace, key: SessionKey): nat
    decreases |trace|
  {
    if trace == [] then 0
    else Turns(trace[..|trace| - 1], key) + if AsksFor(trace[|trace| - 1], key) then 1 else 0
  }

  predicate Rebinds(trace: Trace, key: SessionKey) {
    exists i :: 0 <= i < |trace| && BindsKey(trace[i], key)
  }

  predicate BindsKey(at: Timed, key: SessionKey) {
    at.event.BindThread? && at.event.key == key
  }

  /** The turn count of a surviving binding counts the session's calls. */
  lemma {:induction false} TurnsCounted(config: Config, reg: Registry, s: State, trace: Trace, key: SessionKey, id: AgentId)
    requires reg.Valid() && AllowedAll(config, reg, s, trace) && BoundTo(s, key, id) && KeepsAll(config, s, trace, key, id)
    requires !Rebinds(trace, key)
    ensures BoundTo(AfterAll(config, s, trace), key, id)
    ensures AfterAll(config, s, trace).affinity[key].turnCount == s.affinity[key].turnCount + Turns(trace, key)
    decreases |trace|
  {
    Sticky(config, reg, s, trace, key, id);
    if trace != [] {
      var front, last := trace[..|trace| - 1], trace[|trace| - 1];
      forall i | 0 <= i < |front| ensures !BindsKey(front[i], key) {
        assert trace[i] == front[i];
      }
      TurnsCounted(config, reg, s, front, key, id);
      assert !BindsKey(last, key);
      TurnStep(config, AfterAll(config, s, front), last, key, id);
    }
  }

  /** When the session was last asked for or bound. */
  function LastTouch(trace: Trace, key: SessionKey, before: int): int
    decreases |trace|
  {
    if trace == [] then before
    else if AsksFor(trace[|trace| - 1], key) || BindsKey(trace[|trace| - 1], key) then trace[|trace| - 1].now
    else LastTouch(trace[..|trace| - 1], key, before)
  }

  /** A surviving binding remembers its last use, so an eviction takes it exactly when that is the affinity TTL
    * or more ago. */
  lemma {:induction false} StaleExactly(config: Config, reg: Registry, s: State, trace: Trace, key: SessionKey, id: AgentId, now: int)
    requires reg.Valid() && AllowedAll(config, reg, s, trace) && BoundTo(s, key, id) && KeepsAll(config, s, trace, key, id)
    ensures BoundTo(AfterAll(config, s, trace), key, id)
    ensures AfterAll(config, s, trace).affinity[key].lastUsed == LastTouch(trace, key, s.affinity[key].lastUsed)
    ensures BoundTo(After(config, AfterAll(config, s, trace), At(now, EvictStale)), key, id) <==>
      now - LastTouch(trace, key, s.affinity[key].lastUsed) < config.affinityTtl
    decreases |trace|
  {
    Sticky(config, reg, s, trace, key, id);
    if trace != [] {
      var front, last := trace[..|trace| - 1], trace[|trace| - 1];
      StaleExactly(config, reg, s, front, key, id, now);
      TouchStep(config, AfterAll(config, s, front), last, key, id);
    }
  }

  lemma TouchStep(config: Config, s: State, at: Timed, key: SessionKey, id: AgentId)
    requires BoundTo(s, key, id) && Keeps(config, s, at, key, id)
    ensures BoundTo(After(config, s, at), key, id)
    ensures After(config, s, at).affinity[key].lastUsed ==
      if AsksFor(at, key) || BindsKey(at, key) then at.now else s.affinity[key].lastUsed
  {}

  /** A session without a usable binding is bound to whom it is answered with, from now on, as its first turn; a
    * thread is bound with no turn counted; and no other session is touched. */
  lemma NewBinding(config: Config, reg: Registry, s: State, now: int, key: SessionKey, required: seq<Cap>,
                   exclude: seq<AgentId>, answer: Decision, other: SessionKey, id: AgentId)
    requires reg.Valid() && Allowed(reg, s, At(now, Ask(key, required, exclude, answer)))
    ensures var t := After(config, s, At(now, Ask(key, required, exclude, answer)));
      && (answer.Route? && !Sticks(s, key, exclude, now) ==> key in t.affinity && t.affinity[key] == Affinity(answer.agent, now, 1, now))
      && (answer.NoMatch? ==> key !in t.affinity)
      && (other != key ==> (other in t.affinity <==> other in s.affinity))
      && (other != key && other in s.affinity ==> t.affinity[other] == s.affinity[other])
    ensures var t := After(config, s, At(now, BindThread(key, id)));
      key in t.affinity && t.affinity[key] == Affinity(id, now, 0, now)
  {}

  lemma TurnStep(config: Config, s: State, at: Timed, key: SessionKey, id: AgentId)
    requires BoundTo(s, key, id) && Keeps(config, s, at, key, id) && !BindsKey(at, key)
    ensures BoundTo(After(config, s, at), key, id)
    ensures After(config, s, at).affinity[key].turnCount == s.affinity[key].turnCount + if AsksFor(at, key) then 1 else 0
  {}

  // ---------------------------------------------------------------------------------------------
  // Tripped agents
  // ---------------------------------------------------------------------------------------------

  predicate Out(s: State, id: AgentId) {
    id in s.agents ==> !s.agents[id].healthy
  }

  predicate Readmits(at: Timed, id: AgentId) {
    || Lists(at, id)
    || (at.event.SetHealth? && at.event.id == id && at.event.healthy)
  }

  /** A failure that trips the breaker takes the agent out. */
  lemma TrippingTakesOut(config: Config, s: State, now: int, id: AgentId)
    requires id in s.breakers
    ensures s.breakers[id].Trips() ==> Out(After(config, s, At(now, Failure(id))), id)
    ensures !s.breakers[id].Trips() ==> After(config, s, At(now, Failure(id))).agents == s.agents
  {}

  /** Over every run: an agent that is out is not answered again until its health is set or it is
    * registered anew. Neither the end of the recovery time nor a recorded success brings it back. */
  lemma {:induction false} StaysOut(config: Config, reg: Registry, s: State, trace: Trace, id: AgentId)
    requires reg.Valid() && AllowedAll(config, reg, s, trace) && Out(s, id)
    requires forall i :: 0 <= i < |trace| ==> !Readmits(trace[i], id)
    ensures Out(AfterAll(config, s, trace), id)
    ensures forall i :: 0 <= i < |trace| ==> !AnswersAgent(trace[i], id)
    decreases |trace|
  {
    if trace != [] {
      var front, last := trace[..|trace| - 1], trace[|trace| - 1];
      forall i | 0 <= i < |front| ensures !Readmits(front[i], id) {
        assert trace[i] == front[i];
      }
      StaysOut(config, reg, s, front, id);
      assert !Readmits(last, id);
      OutStep(config, reg, AfterAll(config, s, front), last, id);
      forall i | 0 <= i < |trace| ensures !AnswersAgent(trace[i], id) {
        if i < |front| { assert trace[i] == front[i]; }
      }
    }
  }

  lemma OutStep(config: Config, reg: Registry, s: State, at: Timed, id: AgentId)
    requires reg.Valid() && Allowed(reg, s, at) && Out(s, id) && !Readmits(at, id)
    ensures Out(After(config, s, at), id) && !AnswersAgent(at, id)
  {
    if AnswersAgent(at, id) { AnswersAreServiceable(reg, s, at, id); }
  }

  // What a breaker and the directory remember --------------------------------------------------------------

  const EMPTY: State := State(map[], map[], map[], map[])

  predicate Registers(at: Timed, id: AgentId) {
    at.event.Register? && at.event.card.id == id
  }

  /** Registers the agent, in the router or in the directory alone. */
  predicate Lists(at: Timed, id: AgentId) {
    Registers(at, id) || (at.event.Enlist? && at.event.card.id == id)
  }

  predicate Unlists(at: Timed, id: AgentId) {
    at.event == Deregister(id) || at.event == Remove(id)
  }

  /** In the directory: registered either way, and not deregistered either way since. */
  function Listed(trace: Trace, id: AgentId): bool
    decreases |trace|
  {
    trace != [] &&
    var last := trace[|trace| - 1];
    Lists(last, id) || (!Unlists(last, id) && Listed(trace[..|trace| - 1], id))
  }

  /** Registered in the router, and not deregistered there since. */
  function Known(trace: Trace, id: AgentId): bool
    decreases |trace|
  {
    trace != [] &&
    var last := trace[|trace| - 1];
    Registers(last, id) || (last.event != Deregister(id) && Known(trace[..|trace| - 1], id))
  }

  /** The failures recorded for the agent since its last success or registration. */
  function Trailing(trace: Trace, id: AgentId): nat
    decreases |trace|
  {
    if trace == [] then 0
    else
      var front, last := trace[..|trace| - 1], trace[|trace| - 1];
      if last.event == Success(id) || Registers(last, id) || last.event == Deregister(id) then 0
      else Trailing(front, id) + if last.event == Failure(id) then 1 else 0
  }

  /** When the last failure was recorded. */
  function LastFailure(trace: Trace, id: AgentId): int
    decreases |trace|
  {
    if trace == [] then 0
    else if trace[|trace| - 1].event == Failure(id) then trace[|trace| - 1].now
    else LastFailure(trace[..|trace| - 1], id)
  }

  /** The breaker its history prescribes: failures in a row, tripped from the threshold on (by the first
    * failure when the threshold is 0), each failure restarting the recovery time. */
  function Prescribed(config: Config, trace: Trace, id: AgentId): Breaker {
    var n := Trailing(trace, id);
    Breaker(n, config.tripThreshold, if n > 0 && n >= config.tripThreshold then Some(LastFailure(trace, id)) else None,
            config.recoveryTimeout)
  }

  /** Over every run: exactly the listed agents have an entry and exactly the known ones a breaker, which is
    * what the agent's history prescribes. */
  lemma {:induction false} BreakerFollowsHistory(config: Config, trace: Trace, id: AgentId)
    ensures var s := AfterAll(config, EMPTY, trace);
      && (id in s.agents <==> Listed(trace, id)) && (id in s.breakers <==> Known(trace, id))
      && (Known(trace, id) ==> s.breakers[id] == Prescribed(config, trace, id))
    decreases |trace|
  {
    if trace != [] {
      BreakerFollowsHistory(config, trace[..|trace| - 1], id);
      BreakerStep(config, trace, id);
    }
  }

  lemma BreakerStep(config: Config, trace: Trace, id: AgentId)
    requires trace != []
    requires var front := trace[..|trace| - 1]; var s := AfterAll(config, EMPTY, front);
      && (id in s.agents <==> Listed(front, id)) && (id in s.breakers <==> Known(front, id))
      && (Known(front, id) ==> s.breakers[id] == Prescribed(config, front, id))
    ensures var s := AfterAll(config, EMPTY, trace);
      && (id in s.agents <==> Listed(trace, id)) && (id in s.breakers <==> Known(trace, id))
      && (Known(trace, id) ==> s.breakers[id] == Prescribed(config, trace, id))
  {
    var front, last := trace[..|trace| - 1], trace[|trace| - 1];
    var s := AfterAll(config, EMPTY, front);
    EffectOnAgents(config, s, last, id);
    EffectOnBreakers(config, s, last, id);
    if Known(trace, id) {
      EffectOnBreaker(config, s, last, id);
      if !Registers(last, id) && last.event == Failure(id) { PrescribedFails(config, front, last.now, id); }
    }
  }

  /** A further failure in the history does to the prescribed breaker what a failure does. */
  lemma PrescribedFails(config: Config, front: Trace, now: int, id: AgentId)
    ensures Prescribed(config, front, id).Failed(now) == Prescribed(config, front + [At(now, Failure(id))], id)
  {
    assert (front + [At(now, Failure(id))])[..|front|] == front;
  }

  lemma EffectOnAgents(config: Config, s: State, at: Timed, id: AgentId)
    ensures id in After(config, s, at).agents <==> Lists(at, id) || (id in s.agents && !Unlists(at, id))
  {}

  lemma EffectOnBreakers(config: Config, s: State, at: Timed, id: AgentId)
    ensures id in After(config, s, at).breakers <==> Registers(at, id) || (id in s.breakers && at.event != Deregister(id))
  {}

  lemma EffectOnBreaker(config: Config, s: State, at: Timed, id: AgentId)
    requires id in After(config, s, at).breakers
    ensures After(config, s, at).breakers[id] ==
      if Registers(at, id) then NewBreaker(config)
      else if at.event == Success(id) then s.breakers[id].Succeeded()
      else if at.event == Failure(id) then s.breakers[id].Failed(at.now)
      else s.breakers[id]
  {}

  /** What one call does to an agent being out. */
  lemma EffectOnHealth(config: Config, s: State, at: Timed, id: AgentId)
    ensures Out(After(config, s, at), id) <==>
      if Lists(at, id) then false
      else if Unlists(at, id) then true
      else if at.event.SetHealth? && at.event.id == id then (id in s.agents ==> !at.event.healthy)
      else if at.event == Failure(id) && id in s.breakers && s.breakers[id].Trips() then true
      else Out(s, id)
  {}

  /** Whether the history leaves the agent out: not listed, or marked unhealthy, by a failure that tripped its
    * breaker or from outside, since it was last listed or marked healthy. */
  function OutBy(config: Config, trace: Trace, id: AgentId): bool
    decreases |trace|
  {
    trace == [] ||
    (var front, last := trace[..|trace| - 1], trace[|trace| - 1];
     if Lists(last, id) then false
     else if Unlists(last, id) then true
     else if last.event.SetHealth? && last.event.id == id then Listed(front, id) ==> !last.event.healthy
     else if last.event == Failure(id) && Trips(config, front, id) then true
     else OutBy(config, front, id))
  }

  /** One more failure trips the breaker. */
  predicate Trips(config: Config, trace: Trace, id: AgentId) {
    Known(trace, id) && Trailing(trace, id) + 1 >= config.tripThreshold
  }

  /** Over every run: an agent is out exactly when its history says so. Recorded successes and the passing
    * of time do not occur in that history. */
  lemma {:induction false} OutExactly(config: Config, trace: Trace, id: AgentId)
    ensures Out(AfterAll(config, EMPTY, trace), id) <==> OutBy(config, trace, id)
    decreases |trace|
  {
    if trace != [] {
      var front := trace[..|trace| - 1];
      OutExactly(config, front, id);
      BreakerFollowsHistory(config, front, id);
      EffectOnHealth(config, AfterAll(config, EMPTY, front), trace[|trace| - 1], id);
    }
  }

  // Who can be answered -----------------------------------------------------------------------------------

  /** Some call at this instant may be answered with the agent. */
  ghost predicate Answerable(reg: Registry, s: State, now: int, id: AgentId)
    requires reg.Valid()
  {
    exists key, required, exclude, score :: Allowed(reg, s, At(now, Ask(key, required, exclude, Route(id, score))))
  }

  /** The agent holds something and has room for a task. */
  predicate HasRoom(e: Entry) {
    e.card.capabilities != [] && (e.card.maxConcurrent.Some? ==> e.activeTasks < e.card.maxConcurrent.value)
  }

  ghost predicate SomeBinding(s: State, id: AgentId) {
    exists key :: BoundTo(s, key, id)
  }

  /** An agent can be answered exactly when it is registered, healthy, not behind an open breaker, and has
    * a session bound to it or holds a capability and has room. */
  lemma AnswerableExactly(reg: Registry, s: State, now: int, id: AgentId)
    requires reg.Valid() && Socials(s.agents)
    ensures Answerable(reg, s, now, id) <==>
      Serviceable(s, id, [], now) && (SomeBinding(s, id) || HasRoom(s.agents[id]))
  {
    if Answerable(reg, s, now, id) {
      var key, required, exclude, score :| Allowed(reg, s, At(now, Ask(key, required, exclude, Route(id, score))));
      AnsweredHasRoom(reg, s, At(now, Ask(key, required, exclude, Route(id, score))), id);
    }
    if Serviceable(s, id, [], now) && SomeBinding(s, id) {
      var key :| BoundTo(s, key, id);
      assert Allowed(reg, s, At(now, Ask(key, [], [], Route(id, 1.0))));
    } else if Serviceable(s, id, [], now) && HasRoom(s.agents[id]) {
      AskForOne(reg, s, now, id);
    }
  }

  lemma AnsweredHasRoom(reg: Registry, s: State, at: Timed, id: AgentId)
    requires reg.Valid() && Allowed(reg, s, at) && AnswersAgent(at, id)
    ensures Serviceable(s, id, [], at.now) && (SomeBinding(s, id) || HasRoom(s.agents[id]))
  {
    AnswersAreServiceable(reg, s, at, id);
    if Sticks(s, at.event.key, at.event.exclude, at.now) {
      assert BoundTo(s, at.event.key, id);
    } else {
      var e := s.agents[id];
      assert Candidate(reg, s.agents, at.event.required, id);
      HoldingNeedsCapabilities(reg, e.card.capabilities, at.event.required);
    }
  }

  lemma HoldingNeedsCapabilities(reg: Registry, capabilities: seq<Cap>, required: seq<Cap>)
    requires reg.Valid() && HoldsAny(reg, capabilities, required)
    ensures capabilities != []
  {}

  /** Asking for one of its capabilities with every other agent excluded. */
  lemma AskForOne(reg: Registry, s: State, now: int, id: AgentId)
    requires reg.Valid() && Socials(s.agents) && Serviceable(s, id, [], now) && HasRoom(s.agents[id])
    ensures Answerable(reg, s, now, id)
  {
    var others := ListOf(s.agents.Keys - {id});
    var required := [s.agents[id].card.capabilities[0]];
    var answer := AnswerForOne(reg, s, now, id, SessionKey(""), required, others);
    assert Allowed(reg, s, At(now, Ask(SessionKey(""), required, others, Route(id, answer.score))));
  }

  lemma {:induction false} AnswerForOne(reg: Registry, s: State, now: int, id: AgentId, key: SessionKey, required: seq<Cap>, others: seq<AgentId>)
    returns (answer: Decision)
    requires reg.Valid() && Socials(s.agents) && Serviceable(s, id, [], now) && HasRoom(s.agents[id])
    requires Names(others) == s.agents.Keys - {id} && required == [s.agents[id].card.capabilities[0]]
    ensures Allowed(reg, s, At(now, Ask(key, required, others, answer))) && answer.Route? && answer.agent == id
  {
    if Sticks(s, key, others, now) {
      var bound := s.affinity[key].agent;
      assert bound in s.agents.Keys && bound !in Names(others);
      answer := Route(bound, 1.0);
    } else {
      HoldsOwn(reg, s.agents[id].card.capabilities);
      OnlyEligible(reg, s.agents, required, Names(others) + OpenAgents(s.breakers, now), id);
      answer := Route(id, StandingOf(reg, s.agents[id], required).score);
    }
  }

  lemma {:induction false} ListOf(ids: set<AgentId>) returns (list: seq<AgentId>)
    ensures Names(list) == ids
    decreases |ids|
  {
    if ids == {} {
      list := [];
    } else {
      var id :| id in ids;
      var rest := ListOf(ids - {id});
      list := rest + [id];
      assert Names(list) == Names(rest) + {id};
    }
  }

  /** An agent scores 1 on any one of its own capabilities. */
  lemma HoldsOwn(reg: Registry, capabilities: seq<Cap>)
    requires reg.Valid() && capabilities != []
    ensures HoldsAny(reg, capabilities, [capabilities[0]])
    ensures Capability.CardScore(reg, capabilities, [capabilities[0]]) == 1.0
  {
    SelfAndParent(reg, capabilities[0]);
    assert capabilities[0] in SetOf(capabilities);
    assert Capability.Offers(reg, capabilities, [capabilities[0]][0]);
    Capability.PerfectCard(reg, capabilities, [capabilities[0]]);
  }

  /** With all others excluded the agent is the best, and the only, eligible candidate. */
  lemma OnlyEligible(reg: Registry, agents: Entries, required: seq<Cap>, excluded: set<AgentId>, id: AgentId)
    requires reg.Valid() && Socials(agents) && id in agents && Available(agents[id], id, excluded)
    requires agents.Keys - {id} <= excluded && HoldsAny(reg, agents[id].card.capabilities, required)
    requires Capability.CardScore(reg, agents[id].card.capabilities, required) == 1.0
    ensures Answers(reg, agents, required, excluded, Route(id, StandingOf(reg, agents[id], required).score))
  {
    WeighLaws(1.0, agents[id].social);
    forall other | Candidate(reg, agents, required, other) && Eligible(reg, agents[other], other, required, excluded)
      ensures other == id
    {}
  }

  /** The same over every run, read off the history: listed and in, without a breaker that still blocks, and
    * bound or with room. */
  lemma AnswerableByHistory(config: Config, reg: Registry, trace: Trace, now: int, id: AgentId)
    requires reg.Valid()
    ensures var s := AfterAll(config, EMPTY, trace);
      Answerable(reg, s, now, id) <==>
      && Listed(trace, id) && !OutBy(config, trace, id) && !(Known(trace, id) && Prescribed(config, trace, id).IsOpen(now))
      && (SomeBinding(s, id) || (id in s.agents && HasRoom(s.agents[id])))
  {
    SocialsAlways(config, trace);
    AnswerableExactly(reg, AfterAll(config, EMPTY, trace), now, id);
    OutExactly(config, trace, id);
    BreakerFollowsHistory(config, trace, id);
  }

  // The half-open state --------------------------------------------------------------------------------------

  /** One agent is registered and then fails n times, all at one instant. */
  function TripRun(card: Card, source: Source, at: int, n: nat): Trace
    decreases n
  {
    if n == 0 then [At(at, Register(card, source))] else TripRun(card, source, at, n - 1) + [At(at, Failure(card.id))]
  }

  lemma {:induction false} TripRunHistory(config: Config, card: Card, source: Source, at: int, n: nat)
    ensures var trace := TripRun(card, source, at, n);
      && Known(trace, card.id) && Trailing(trace, card.id) == n && (n > 0 ==> LastFailure(trace, card.id) == at)
      && (OutBy(config, trace, card.id) <==> n > 0 && n >= config.tripThreshold)
    decreases n
  {
    var trace := TripRun(card, source, at, n);
    if n == 0 {
      assert trace[|trace| - 1] == At(at, Register(card, source));
    } else {
      TripRunHistory(config, card, source, at, n - 1);
      assert trace[..|trace| - 1] == TripRun(card, source, at, n - 1);
    }
  }

  /** All but the health of the agent after such a run. */
  ghost predicate TripState(s: State, card: Card) {
    && s.agents.Keys == {card.id} && s.affinity == map[] && s.agents[card.id].card == card
    && s.agents[card.id].activeTasks == 0 && s.agents[card.id].social == SocialMetrics(1.0, 1.0, 0)
  }

  lemma {:induction false} TripRunState(config: Config, card: Card, source: Source, at: int, n: nat)
    ensures TripState(AfterAll(config, EMPTY, TripRun(card, source, at, n)), card)
    decreases n
  {
    var trace := TripRun(card, source, at, n);
    if n == 0 {
      assert trace[..0] == [];
    } else {
      TripRunState(config, card, source, at, n - 1);
      assert trace[..|trace| - 1] == TripRun(card, source, at, n - 1);
    }
  }

  predicate NoAsks(trace: Trace)
    decreases |trace|
  {
    trace == [] || (NoAsks(trace[..|trace| - 1]) && !trace[|trace| - 1].event.Ask?)
  }

  lemma SocialsKept(config: Config, s: State, at: Timed)
    requires Socials(s.agents)
    ensures Socials(After(config, s, at).agents)
  {
    var agents := After(config, s, at).agents;
    FreshSocial();
    forall id | id in agents ensures agents[id].social.Valid() {
      EffectOnSocial(config, s, at, id);
      if !Lists(at, id) && ReactsTo(at, id) { RecordKeeps(s.agents[id].social, at.event.positive); }
    }
  }

  predicate ReactsTo(at: Timed, id: AgentId) {
    at.event.React? && at.event.id == id
  }

  lemma EffectOnSocial(config: Config, s: State, at: Timed, id: AgentId)
    requires id in After(config, s, at).agents
    ensures Lists(at, id) ==> After(config, s, at).agents[id].social == SocialMetrics(1.0, 1.0, 0)
    ensures !Lists(at, id) ==> id in s.agents
    ensures !Lists(at, id) && ReactsTo(at, id) ==>
      After(config, s, at).agents[id].social == s.agents[id].social.Record(at.event.positive)
    ensures !Lists(at, id) && !ReactsTo(at, id) ==> After(config, s, at).agents[id].social == s.agents[id].social
  {}

  /** Every run keeps the metrics whole and positive. */
  lemma {:induction false} SocialsAlways(config: Config, trace: Trace)
    ensures Socials(AfterAll(config, EMPTY, trace).agents)
    decreases |trace|
  {
    if trace != [] {
      var front := trace[..|trace| - 1];
      SocialsAlways(config, front);
      SocialsKept(config, AfterAll(config, EMPTY, front), trace[|trace| - 1]);
    }
  }

  lemma QuietIsAllowed(reg: Registry, s: State, at: Timed)
    requires reg.Valid() && Socials(s.agents) && !at.event.Ask?
    ensures Allowed(reg, s, at)
  {}

  /** Where nothing is asked, everything is allowed. */
  lemma {:induction false} QuietRunAllowed(config: Config, reg: Registry, s: State, trace: Trace)
    requires reg.Valid() && Socials(s.agents) && NoAsks(trace)
    ensures AllowedAll(config, reg, s, trace) && Socials(AfterAll(config, s, trace).agents)
    decreases |trace|
  {
    if trace != [] {
      var front, last := trace[..|trace| - 1], trace[|trace| - 1];
      QuietRunAllowed(config, reg, s, front);
      QuietIsAllowed(reg, AfterAll(config, s, front), last);
      SocialsKept(config, AfterAll(config, s, front), last);
    }
  }

  lemma {:induction false} TripRunQuiet(card: Card, source: Source, at: int, n: nat)
    ensures NoAsks(TripRun(card, source, at, n))
    decreases n
  {
    var trace := TripRun(card, source, at, n);
    if n > 0 {
      TripRunQuiet(card, source, at, n - 1);
      assert trace[..|trace| - 1] == TripRun(card, source, at, n - 1);
    } else {
      assert trace[..0] == [];
    }
  }

  /** The failures it takes to trip. */
  function TripCount(config: Config): nat {
    if config.tripThreshold == 0 then 1 else config.tripThreshold
  }

  lemma TripRunBreaker(config: Config, card: Card, source: Source, at: int)
    ensures var s := AfterAll(config, EMPTY, TripRun(card, source, at, TripCount(config)));
      card.id in s.breakers &&
      s.breakers[card.id] == Breaker(TripCount(config), config.tripThreshold, Some(at), config.recoveryTimeout)
  {
    TripRunHistory(config, card, source, at, TripCount(config));
    BreakerFollowsHistory(config, TripRun(card, source, at, TripCount(config)), card.id);
  }

  /** The half-open probe does not happen by itself: one agent is registered and fails until its breaker
    * trips; after the recovery time the breaker no longer blocks, and still every request, whatever it asks
    * for, goes without an answer. */
  lemma {:induction false} HalfOpenRefuses(config: Config, reg: Registry, card: Card, source: Source, at: int, now: int,
                        key: SessionKey, required: seq<Cap>, exclude: seq<AgentId>, answer: Decision)
    requires reg.Valid() && now >= at + config.recoveryTimeout
    ensures var trace := TripRun(card, source, at, TripCount(config)); var s := AfterAll(config, EMPTY, trace);
      && AllowedAll(config, reg, EMPTY, trace)
      && card.id in s.breakers && s.breakers[card.id].trippedAt.Some? && !s.breakers[card.id].IsOpen(now)
      && (Allowed(reg, s, At(now, Ask(key, required, exclude, answer))) <==> answer == NoMatch(required))
  {
    var trace := TripRun(card, source, at, TripCount(config));
    var s := AfterAll(config, EMPTY, trace);
    TripRunHistory(config, card, source, at, TripCount(config));
    TripRunState(config, card, source, at, TripCount(config));
    TripRunBreaker(config, card, source, at);
    OutExactly(config, trace, card.id);
    TripRunQuiet(card, source, at, TripCount(config));
    QuietRunAllowed(config, reg, EMPTY, trace);
    NobodyIn(reg, s.agents, required, Names(exclude) + OpenAgents(s.breakers, now), answer);
  }

  /** With every agent unhealthy there is one answer. */
  lemma NobodyIn(reg: Registry, agents: Entries, required: seq<Cap>, excluded: set<AgentId>, d: Decision)
    requires reg.Valid() && Socials(agents) && forall id :: id in agents ==> !agents[id].healthy
    ensures Answers(reg, agents, required, excluded, d) <==> d == NoMatch(required)
  {
    forall id | id in agents ensures !Eligible(reg, agents[id], id, required, excluded) {}
  }

  /** Requests for the same capabilities, with nothing recorded in between. */
  predicate AsksOnly(trace: Trace, required: seq<Cap>, from: int)
    decreases |trace|
  {
    trace == [] ||
    (var last := trace[|trace| - 1];
     && AsksOnly(trace[..|trace| - 1], required, from)
     && last.event.Ask? && last.event.required == required && last.event.exclude == [] && last.now >= from)
  }

  /** Each of them is answered with the agent. */
  predicate AllAnsweredWith(trace: Trace, id: AgentId)
    decreases |trace|
  {
    trace == [] || (AllAnsweredWith(trace[..|trace| - 1], id) && AnswersAgent(trace[|trace| - 1], id))
  }

  /** The only agent of the directory, ready to be answered. */
  ghost predicate Alone(reg: Registry, agents: Entries, id: AgentId, required: seq<Cap>)
    requires reg.Valid()
  {
    && agents.Keys == {id} && Socials(agents) && Available(agents[id], id, {})
    && HoldsAny(reg, agents[id].card.capabilities, required)
    && Capability.CardScore(reg, agents[id].card.capabilities, required) == 1.0
  }

  ghost predicate AllBoundTo(affinity: Affinities, id: AgentId) {
    forall key :: key in affinity ==> affinity[key].agent == id
  }

  lemma AloneIsRouted(reg: Registry, agents: Entries, id: AgentId, required: seq<Cap>, excluded: set<AgentId>, d: Decision)
    requires reg.Valid() && Alone(reg, agents, id, required) && id !in excluded && Answers(reg, agents, required, excluded, d)
    ensures d.Route? && d.agent == id
  {
    WeighLaws(1.0, agents[id].social);
    assert Candidate(reg, agents, required, id) && Eligible(reg, agents[id], id, required, excluded);
  }

  lemma AloneIsAnswered(reg: Registry, s: State, at: Timed, id: AgentId)
    requires reg.Valid() && at.event.Ask? && at.event.exclude == [] && Allowed(reg, s, at)
    requires Alone(reg, s.agents, id, at.event.required) && BreakerOk(s.breakers, id, at.now) && AllBoundTo(s.affinity, id)
    ensures AnswersAgent(at, id)
  {
    if !Sticks(s, at.event.key, [], at.now) {
      AloneIsRouted(reg, s.agents, id, at.event.required, Names([]) + OpenAgents(s.breakers, at.now), at.event.answer);
    }
  }

  lemma AskBinds(config: Config, s: State, at: Timed, id: AgentId)
    requires AnswersAgent(at, id) && AllBoundTo(s.affinity, id)
    ensures var t := After(config, s, at); t.agents == s.agents && t.breakers == s.breakers && AllBoundTo(t.affinity, id)
  {}

  predicate OkFrom(breakers: Breakers, id: AgentId, from: int) {
    id in breakers && breakers[id].trippedAt.Some? ==> breakers[id].trippedAt.value + breakers[id].recoveryTimeout <= from
  }

  lemma {:induction false} AloneIsAlwaysAnswered(config: Config, reg: Registry, s: State, trace: Trace, id: AgentId,
                                                 required: seq<Cap>, from: int)
    requires reg.Valid() && Alone(reg, s.agents, id, required) && OkFrom(s.breakers, id, from) && AllBoundTo(s.affinity, id)
    requires AllowedAll(config, reg, s, trace) && AsksOnly(trace, required, from)
    ensures var t := AfterAll(config, s, trace); t.agents == s.agents && t.breakers == s.breakers && AllBoundTo(t.affinity, id)
    ensures AllAnsweredWith(trace, id)
    decreases |trace|
  {
    if trace != [] {
      var front, last := trace[..|trace| - 1], trace[|trace| - 1];
      AloneIsAlwaysAnswered(config, reg, s, front, id, required, from);
      AloneIsAnswered(reg, AfterAll(config, s, front), last, id);
      AskBinds(config, AfterAll(config, s, front), last, id);
    }
  }

  /** The agent after being marked healthy. */
  lemma HealthyAlone(reg: Registry, agents: Entries, card: Card)
    requires reg.Valid() && agents.Keys == {card.id} && Socials(agents) && card.capabilities != []
    requires agents[card.id].card == card && agents[card.id].activeTasks == 0
    requires card.maxConcurrent.Some? ==> card.maxConcurrent.value > 0
    ensures Alone(reg, WithHealth(agents, card.id, true, None), card.id, [card.capabilities[0]])
  {
    HoldsOwn(reg, card.capabilities);
    var marked := WithHealth(agents, card.id, true, None);
    assert marked.Keys == agents.Keys && marked[card.id].card == card && marked[card.id].social == agents[card.id].social;
  }

  lemma MarkedHealthy(config: Config, s: State, now: int, id: AgentId)
    ensures After(config, s, At(now, SetHealth(id, true, None))) == s.(agents := WithHealth(s.agents, id, true, None))
  {}

  /** Once someone marks the agent healthy while its breaker is half-open, nothing limits it to one probe:
    * any number of requests, with no result recorded in between, are all answered with it. */
  lemma {:induction false} HalfOpenAdmitsAll(config: Config, reg: Registry, card: Card, source: Source, at: int, t: State, asks: Trace,
                          required: seq<Cap>, from: int)
    requires reg.Valid() && card.capabilities != [] && (card.maxConcurrent.Some? ==> card.maxConcurrent.value > 0)
    requires t == After(config, AfterAll(config, EMPTY, TripRun(card, source, at, TripCount(config))),
                        At(at, SetHealth(card.id, true, None)))
    requires required == [card.capabilities[0]] && from == at + config.recoveryTimeout
    requires AllowedAll(config, reg, t, asks) && AsksOnly(asks, required, from)
    ensures AllAnsweredWith(asks, card.id)
  {
    MarkedAlone(config, reg, card, source, at, t, required, from);
    AloneIsAlwaysAnswered(config, reg, t, asks, card.id, required, from);
  }

  lemma MarkedAlone(config: Config, reg: Registry, card: Card, source: Source, at: int, t: State,
                    required: seq<Cap>, from: int)
    requires reg.Valid() && card.capabilities != [] && (card.maxConcurrent.Some? ==> card.maxConcurrent.value > 0)
    requires t == After(config, AfterAll(config, EMPTY, TripRun(card, source, at, TripCount(config))),
                        At(at, SetHealth(card.id, true, None)))
    requires required == [card.capabilities[0]] && from == at + config.recoveryTimeout
    ensures Alone(reg, t.agents, card.id, required) && AllBoundTo(t.affinity, card.id)
    ensures OkFrom(t.breakers, card.id, from)
  {
    var s := AfterAll(config, EMPTY, TripRun(card, source, at, TripCount(config)));
    TripRunState(config, card, source, at, TripCount(config));
    TripRunBreaker(config, card, source, at);
    MarkedHealthy(config, s, at, card.id);
    HealthyAlone(reg, s.agents, card);
  }

  /** Without a binding to stick to, the old one is dropped and the agent found is bound. */
  lemma ReboundAnew(s: State, cleared: Affinities, key: SessionKey, exclude: seq<AgentId>, d: Decision, now: int)
    requires !Sticks(s, key, exclude, now) && cleared == s.affinity - {key}
    ensures Rebound(s, key, exclude, d, now) == if d.Route? then cleared[key := Affinity(d.agent, now, 1, now)] else cleared
  {}

  lemma OnlyAffinity(config: Config, s: State, t: State, at: Timed)
    requires at.event.Ask? && t == s.(affinity := Rebound(s, at.event.key, at.event.exclude, at.event.answer, at.now))
    ensures t == After(config, s, at)
  {}

  class Sessions {
    const config: Config
    const directory: AgentDirectory
    var affinity: Affinities
    var sources: map<AgentId, Source>
    var breakers: Breakers

    ghost predicate Valid()
      reads directory
    {
      directory.Valid()
    }

    ghost function Now(): State
      reads this, directory
    {
      State(directory.agents, breakers, affinity, sources)
    }

    constructor (config: Config, directory: AgentDirectory)
      requires directory.Valid() && directory.agents == map[]
      ensures Valid() && Now() == State(map[], map[], map[], map[]) && this.config == config && this.directory == directory
    {
      this.config, this.directory := config, directory;
      affinity, sources, breakers := map[], map[], map[];
    }

    method RegisterAgent(card: Card, source: Source, now: int)
      requires Valid() && CardOk(directory.reg, directory.width, card)
      modifies this, directory
      ensures Valid() && Now() == After(config, old(Now()), At(now, Register(card, source)))
    {
      sources := sources[card.id := source];
      breakers := breakers[card.id := NewBreaker(config)];
      directory.Register(card);
    }

    method DeregisterAgent(id: AgentId, now: int)
      requires Valid()
      modifies this, directory
      ensures Valid() && Now() == After(config, old(Now()), At(now, Deregister(id)))
    {
      var _ := directory.Deregister(id);
      sources := sources - {id};
      breakers := breakers - {id};
      affinity := map k | k in affinity && affinity[k].agent != id :: affinity[k];
    }

    /** The excluded agents and those behind an open breaker. */
    method EffectiveExclude(exclude: seq<AgentId>, now: int) returns (effective: seq<AgentId>)
      ensures Names(effective) == Names(exclude) + OpenAgents(breakers, now)
    {
      effective := exclude;
      var rest := breakers.Keys;
      while rest != {}
        invariant rest <= breakers.Keys
        invariant forall id :: id in effective <==>
          id in exclude || (id in breakers && id !in rest && breakers[id].IsOpen(now))
        decreases |rest|
      {
        var id :| id in rest;
        rest := rest - {id};
        if breakers[id].IsOpen(now) && id !in effective {
          effective := effective + [id];
        }
      }
    }

    /** Routing by capability among the agents that are neither excluded nor blocked, for a session that
      * has nothing to stick to. */
    method RouteByCapability(key: SessionKey, required: seq<Cap>, exclude: seq<AgentId>, now: int, ghost s: State)
      returns (d: Decision)
      requires Valid() && InRange(directory.reg, required)
      requires s.agents == directory.agents && s.breakers == breakers && !Sticks(s, key, exclude, now)
      ensures Allowed(directory.reg, s, At(now, Ask(key, required, exclude, d)))
    {
      var effective := EffectiveExclude(exclude, now);
      d := RouteTask(directory, required, effective);
    }

    /** The bound agent if it can be answered; otherwise the binding goes. */
    method TryAffinity(key: SessionKey, exclude: seq<AgentId>, now: int) returns (hit: Option<AgentId>)
      modifies this`affinity
      ensures hit == if Sticks(old(Now()), key, exclude, now) then Some(old(affinity)[key].agent) else None
      ensures affinity == Rebound(old(Now()), key, exclude, NoMatch([]), now)
    {
      if key in affinity {
        var entry := affinity[key];
        var breakerOk := entry.agent in breakers ==> !breakers[entry.agent].IsOpen(now);
        var healthy := entry.agent in directory.agents && directory.agents[entry.agent].healthy;
        if breakerOk && healthy && entry.agent !in exclude {
          affinity := affinity[key := entry.(turnCount := entry.turnCount + 1, lastUsed := now)];
          return Some(entry.agent);
        }
        affinity := affinity - {key};
      }
      assert affinity == old(affinity) - {key};
      return None;
    }

    method RouteWithSession(key: SessionKey, required: seq<Cap>, exclude: seq<AgentId>, now: int) returns (d: Decision)
      requires Valid() && InRange(directory.reg, required)
      modifies this`affinity
      ensures Valid() && Allowed(directory.reg, old(Now()), At(now, Ask(key, required, exclude, d)))
      ensures Now() == After(config, old(Now()), At(now, Ask(key, required, exclude, d)))
    {
      EntriesAreSocial(directory.reg, directory.width, directory.agents);
      var hit := TryAffinity(key, exclude, now);
      if hit.Some? {
        d := Route(hit.value, 1.0);
      } else {
        d := RouteByCapability(key, required, exclude, now, old(Now()));
        Rebind(key, exclude, d, now, old(Now()));
      }
      assert affinity == Rebound(old(Now()), key, exclude, d, now);
      OnlyAffinity(config, old(Now()), Now(), At(now, Ask(key, required, exclude, d)));
    }

    /** Binds the session to the agent found, if any. */
    method Rebind(key: SessionKey, exclude: seq<AgentId>, d: Decision, now: int, ghost s: State)
      requires !Sticks(s, key, exclude, now) && affinity == s.affinity - {key}
      modifies this`affinity
      ensures affinity == Rebound(s, key, exclude, d, now)
    {
      ReboundAnew(s, affinity, key, exclude, d, now);
      if d.Route? {
        affinity := affinity[key := Affinity(d.agent, now, 1, now)];
      }
    }

    method RecordSuccess(id: AgentId, now: int)
      requires Valid()
      modifies this`breakers
      ensures Valid() && Now() == After(config, old(Now()), At(now, Success(id)))
    {
      if id in breakers {
        breakers := breakers[id := breakers[id].(failures := 0, trippedAt := None)];
      }
    }

    method RecordFailure(id: AgentId, now: int) returns (tripped: bool)
      requires Valid()
      modifies this`breakers, directory`agents
      ensures Valid() && Now() == After(config, old(Now()), At(now, Failure(id)))
      ensures tripped <==> id in old(breakers) && old(breakers)[id].Trips()
    {
      if id !in breakers {
        return false;
      }
      var failures := breakers[id].failures + 1;
      tripped := failures >= breakers[id].tripThreshold;
      breakers := breakers[id := breakers[id].(failures := failures, trippedAt := if tripped then Some(now) else breakers[id].trippedAt)];
      if tripped {
        directory.UpdateHealth(id, false, None);
      }
    }

    method BreakSession(key: SessionKey, now: int) returns (was: bool)
      requires Valid()
      modifies this`affinity
      ensures Valid() && Now() == After(config, old(Now()), At(now, BreakAffinity(key))) && was == (key in old(affinity))
    {
      was := key in affinity;
      affinity := affinity - {key};
    }

    method EvictStaleAffinities(now: int) returns (evicted: nat)
      requires Valid()
      modifies this`affinity
      ensures Valid() && Now() == After(config, old(Now()), At(now, EvictStale))
      ensures evicted == |old(affinity).Keys - affinity.Keys|
    {
      var before := affinity;
      affinity := map k | k in affinity && affinity[k].lastUsed > now - config.affinityTtl :: affinity[k];
      assert before.Keys == affinity.Keys + (before.Keys - affinity.Keys);
      assert |before.Keys| == |affinity.Keys| + |before.Keys - affinity.Keys|;
      evicted := |before| - |affinity|;
    }

    method Bind(key: SessionKey, id: AgentId, now: int)
      requires Valid()
      modifies this`affinity
      ensures Valid() && Now() == After(config, old(Now()), At(now, BindThread(key, id)))
    {
      affinity := affinity[key := Affinity(id, now, 0, now)];
    }
  }
}
