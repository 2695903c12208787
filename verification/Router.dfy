/** The agent directory with its inverted capability index, and capability-based routing
  * (crates/clawdesk-acp/src/router.rs). Scores are reals; capability scores are those of `Capability`. */
module Router {
  import opened Wrappers
  import opened Agents
  import opened Sets
  import opened Taxonomy
  import Bitmaps
  import Capability

  // ---------------------------------------------------------------------------------------------
  // Entries
  // ---------------------------------------------------------------------------------------------

  /** Feedback counts, starting from one of each. */
  datatype SocialMetrics = SocialMetrics(positive: real, negative: real, total: nat) {
    predicate Usable() { positive >= 1.0 && negative >= 1.0 }

    /** Whole counts that account for every interaction. */
    ghost predicate Valid() { Usable() && positive + negative == 2.0 + total as real && Whole(positive) }

    function Record(good: bool): SocialMetrics {
      if good then SocialMetrics(positive + 1.0, negative, total + 1)
      else SocialMetrics(positive, negative + 1.0, total + 1)
    }

    function Reputation(): real
      requires Usable()
    {
      positive / (positive + negative)
    }

    function RoutingBoost(): real
      requires Usable()
    {
      0.8 + 0.4 * Reputation()
    }
  }

  ghost predicate Whole(x: real) {
    x == x.Floor as real
  }

  /** A capability score under an agent's reputation. */
  function Weigh(score: real, m: SocialMetrics): real
    requires m.Usable()
  {
    score * m.RoutingBoost()
  }

  lemma FreshSocial()
    ensures SocialMetrics(1.0, 1.0, 0).Valid()
  {
    assert (1.0).Floor == 1;
  }

  lemma RecordKeeps(m: SocialMetrics, good: bool)
    requires m.Valid()
    ensures m.Record(good).Valid()
  {
    assert (m.positive + 1.0).Floor == m.positive.Floor + 1;
  }

  lemma ReputationLaws(m: SocialMetrics)
    requires m.Usable()
    ensures 0.0 < m.Reputation() < 1.0
    ensures m.Reputation() * (m.positive + m.negative) == m.positive
  {}

  /** The boost stays strictly between 0.8 and 1.2; praise raises it, complaints lower it. */
  lemma BoostLaws(m: SocialMetrics)
    requires m.Usable()
    ensures 0.8 < m.RoutingBoost() < 1.2
    ensures m.Record(false).RoutingBoost() < m.RoutingBoost() < m.Record(true).RoutingBoost()
  {
    var r, up, down := m.Reputation(), m.Record(true).Reputation(), m.Record(false).Reputation();
    var n := m.positive + m.negative;
    ReputationLaws(m);
    ReputationLaws(m.Record(true));
    ReputationLaws(m.Record(false));
    assert up * n == r * n + 1.0 - up;
    assert (up - r) * n > 0.0;
    assert down * n == r * n - down;
    assert (r - down) * n > 0.0;
  }

  /** Even feedback leaves a score as it is. */
  lemma EvenFeedback(m: SocialMetrics)
    requires m.Usable() && m.positive == m.negative
    ensures m.RoutingBoost() == 1.0
  {
    ReputationLaws(m);
    HalfOf(m.Reputation(), m.positive, m.negative);
  }

  lemma HalfOf(r: real, p: real, q: real)
    requires p == q && p > 0.0 && r * (p + q) == p
    ensures r == 0.5
  {
    assert (2.0 * r - 1.0) * p == r * (p + q) - p;
    assert (2.0 * r - 1.0) * p == 0.0;
  }

  /** The card with the closed bit set it caches. */
  datatype Card = Card(id: AgentId, capabilities: seq<Cap>, closed: Capability.CapSet, maxConcurrent: Option<nat>)

  datatype Entry = Entry(card: Card, activeTasks: nat, latency: Option<nat>, healthy: bool, checked: bool,
                         social: SocialMetrics)

  ghost predicate InRange(reg: Registry, caps: seq<Cap>) {
    forall i :: 0 <= i < |caps| ==> caps[i] < reg.Size()
  }

  ghost predicate CardOk(reg: Registry, width: nat, card: Card)
    requires reg.Valid()
  {
    && InRange(reg, card.capabilities) && Capability.Sized(card.closed, width)
    && Bitmaps.Ones(card.closed) == Closure(reg, SetOf(card.capabilities))
  }

  /** An entry that a directory can hold. */
  ghost predicate EntryOk(reg: Registry, width: nat, e: Entry)
    requires reg.Valid()
  {
    CardOk(reg, width, e.card) && e.social.Valid()
  }

  ghost predicate FiledOk(reg: Registry, width: nat, agents: map<AgentId, Entry>, id: AgentId)
    requires reg.Valid() && id in agents
  {
    agents[id].card.id == id && EntryOk(reg, width, agents[id])
  }

  ghost predicate EntriesOk(reg: Registry, width: nat, agents: map<AgentId, Entry>)
    requires reg.Valid()
  {
    forall id {:trigger FiledOk(reg, width, agents, id)} :: id in agents ==> FiledOk(reg, width, agents, id)
  }

  lemma EntriesAreSocial(reg: Registry, width: nat, agents: map<AgentId, Entry>)
    requires reg.Valid() && EntriesOk(reg, width, agents)
    ensures Socials(agents)
  {
    forall id | id in agents ensures agents[id].social.Valid() {
      assert FiledOk(reg, width, agents, id);
    }
  }

  function Fresh(card: Card): Entry {
    Entry(card, 0, None, true, false, SocialMetrics(1.0, 1.0, 0))
  }

  // ---------------------------------------------------------------------------------------------
  // The inverted index
  // ---------------------------------------------------------------------------------------------

  type Index = map<Cap, seq<AgentId>>

  function Posting(index: Index, c: Cap): seq<AgentId> {
    if c in index then index[c] else []
  }

  ghost predicate Holds(reg: Registry, agents: map<AgentId, Entry>, id: AgentId, c: Cap)
    requires reg.Valid()
  {
    id in agents && Capability.Offers(reg, agents[id].card.capabilities, c)
  }

  /** A posting list has no duplicates and names exactly the registered agents that hold c. */
  ghost predicate PostingOk(reg: Registry, agents: map<AgentId, Entry>, list: seq<AgentId>, c: Cap)
    requires reg.Valid()
  {
    NoDuplicates(list) && forall id :: id in list <==> Holds(reg, agents, id, c)
  }

  ghost predicate Indexed(reg: Registry, agents: map<AgentId, Entry>, index: Index)
    requires reg.Valid()
  {
    forall c: Cap :: c < reg.Size() ==> PostingOk(reg, agents, Posting(index, c), c)
  }

  function Without(s: seq<AgentId>, id: AgentId): seq<AgentId>
    decreases |s|
  {
    if s == [] then []
    else if Last(s) == id then Without(Front(s), id)
    else Without(Front(s), id) + [Last(s)]
  }

  lemma {:induction false} WithoutLaws(s: seq<AgentId>, id: AgentId)
    ensures forall x :: x in Without(s, id) <==> x in s && x != id
    ensures NoDuplicates(s) ==> NoDuplicates(Without(s, id))
    decreases |s|
  {
    if s != [] {
      Split(s);
      WithoutLaws(Front(s), id);
      if Last(s) != id {
        assert Front(Without(s, id)) == Without(Front(s), id);
      }
    }
  }

  function Extended(s: seq<AgentId>, id: AgentId, more: bool): seq<AgentId> {
    if more then s + [id] else s
  }

  /** The posting list after the agent is dropped and, if it holds c, appended. */
  lemma {:induction false} PostingAfter(reg: Registry, agents: map<AgentId, Entry>, list: seq<AgentId>, c: Cap, card: Card)
    requires reg.Valid() && PostingOk(reg, agents, list, c)
    ensures PostingOk(reg, agents - {card.id}, Without(list, card.id), c)
    ensures Capability.Offers(reg, card.capabilities, c) ==>
      PostingOk(reg, agents[card.id := Fresh(card)], Without(list, card.id) + [card.id], c)
    ensures !Capability.Offers(reg, card.capabilities, c) ==>
      PostingOk(reg, agents[card.id := Fresh(card)], Without(list, card.id), c)
  {
    var kept, grown := Without(list, card.id), Without(list, card.id) + [card.id];
    WithoutLaws(list, card.id);
    Split(grown);
    assert Front(grown) == kept;
    forall id ensures Holds(reg, agents - {card.id}, id, c) <==> id in kept {}
    forall id ensures Holds(reg, agents[card.id := Fresh(card)], id, c) <==>
      id in kept || (id == card.id && Capability.Offers(reg, card.capabilities, c))
    {}
  }

  /** Changing an entry, but not its card, leaves the index right. */
  lemma SameCardSameIndex(reg: Registry, agents: map<AgentId, Entry>, index: Index, id: AgentId, e: Entry)
    requires reg.Valid() && Indexed(reg, agents, index) && id in agents && e.card == agents[id].card
    ensures Indexed(reg, agents[id := e], index)
  {}

  /** The agents that hold at least one of the listed capabilities. */
  ghost predicate HoldsAny(reg: Registry, capabilities: seq<Cap>, required: seq<Cap>)
    requires reg.Valid()
  {
    exists i :: 0 <= i < |required| && Capability.Offers(reg, capabilities, required[i])
  }

  ghost predicate Candidate(reg: Registry, agents: map<AgentId, Entry>, required: seq<Cap>, id: AgentId)
    requires reg.Valid()
  {
    id in agents && HoldsAny(reg, agents[id].card.capabilities, required)
  }

  class AgentDirectory {
    const reg: Registry
    const width: nat
    var agents: map<AgentId, Entry>
    var capIndex: Index

    ghost predicate Valid()
      reads this
    {
      && reg.Valid() && reg.Size() <= 64 * width
      && EntriesOk(reg, width, agents)
      && Indexed(reg, agents, capIndex)
    }

    constructor (reg: Registry, width: nat)
      requires reg.Valid() && reg.Size() <= 64 * width
      ensures Valid() && agents == map[] && this.reg == reg && this.width == width
    {
      this.reg, this.width := reg, width;
      agents, capIndex := map[], map[];
    }

    /** Drops the agent from every posting list. */
    method RemoveFromIndex(id: AgentId)
      modifies this`capIndex
      ensures capIndex.Keys == old(capIndex).Keys
      ensures forall c: Cap :: Posting(capIndex, c) == Without(Posting(old(capIndex), c), id)
    {
      ghost var before := capIndex;
      var rest := capIndex.Keys;
      while rest != {}
        invariant rest <= before.Keys && capIndex.Keys == before.Keys
        invariant forall c :: c in before ==> capIndex[c] == if c in rest then before[c] else Without(before[c], id)
        decreases |rest|
      {
        var c :| c in rest;
        rest := rest - {c};
        capIndex := capIndex[c := Without(capIndex[c], id)];
      }
    }

    /** Registers or replaces: every capability of the closed set lists the agent once. */
    method Register(card: Card)
      requires Valid() && CardOk(reg, width, card)
      modifies this
      ensures Valid() && agents == old(agents)[card.id := Fresh(card)]
    {
      RemoveFromIndex(card.id);
      ghost var dropped := capIndex;
      for cap := 0 to reg.Size()
        invariant forall c: Cap :: Posting(capIndex, c) == Extended(Posting(dropped, c), card.id,
          c < cap && Capability.Offers(reg, card.capabilities, c))
        invariant agents == old(agents)
      {
        var held := Capability.Contains(card.closed, cap);
        if held {
          capIndex := capIndex[cap := Posting(capIndex, cap) + [card.id]];
        }
      }
      forall c: Cap | c < reg.Size()
        ensures PostingOk(reg, old(agents)[card.id := Fresh(card)], Posting(capIndex, c), c)
      {
        assert PostingOk(reg, old(agents), Posting(old(capIndex), c), c);
        PostingAfter(reg, old(agents), Posting(old(capIndex), c), c, card);
      }
      FreshSocial();
      FilingKeeps(reg, width, agents, card.id, Fresh(card));
      agents := agents[card.id := Fresh(card)];
    }

    method Deregister(id: AgentId) returns (removed: Option<Entry>)
      requires Valid()
      modifies this
      ensures Valid() && agents == old(agents) - {id}
      ensures removed == if id in old(agents) then Some(old(agents)[id]) else None
    {
      RemoveFromIndex(id);
      forall c: Cap | c < reg.Size()
        ensures PostingOk(reg, old(agents) - {id}, Posting(capIndex, c), c)
      {
        assert PostingOk(reg, old(agents), Posting(old(capIndex), c), c);
        PostingAfter(reg, old(agents), Posting(old(capIndex), c), c, Card(id, [], [], None));
      }
      removed := if id in agents then Some(agents[id]) else None;
      UnfilingKeeps(reg, width, agents, id);
      agents := agents - {id};
    }

    /** The union of the posting lists of the listed capabilities. */
    method UnionOfPostings(required: seq<Cap>) returns (found: set<AgentId>)
      ensures forall id :: id in found <==> Listed(capIndex, required, |required|, id)
    {
      found := {};
      for i := 0 to |required|
        invariant forall id :: id in found <==> Listed(capIndex, required, i, id)
      {
        var list := Posting(capIndex, required[i]);
        found := found + set id | id in list;
      }
    }

    method CandidatesFor(required: seq<Cap>) returns (found: set<AgentId>)
      requires Valid() && InRange(reg, required)
      ensures forall id :: id in found <==> Candidate(reg, agents, required, id)
    {
      found := UnionOfPostings(required);
      ListedAreCandidates(reg, agents, capIndex, required);
    }

    /** Replaces an entry under the same card. */
    method Store(id: AgentId, e: Entry)
      requires Valid() && id in agents && e.card == agents[id].card && e.social.Valid()
      modifies this`agents
      ensures Valid() && agents == old(agents)[id := e]
    {
      SameCardSameIndex(reg, agents, capIndex, id, e);
      assert FiledOk(reg, width, agents, id);
      FilingKeeps(reg, width, agents, id, e);
      agents := agents[id := e];
    }

    method IncrementTasks(id: AgentId)
      requires Valid()
      modifies this`agents
      ensures Valid() && agents == WithTasks(old(agents), id, 1)
    {
      if id in agents {
        assert FiledOk(reg, width, agents, id);
        Store(id, agents[id].(activeTasks := agents[id].activeTasks + 1));
      }
    }

    method DecrementTasks(id: AgentId)
      requires Valid()
      modifies this`agents
      ensures Valid() && agents == WithTasks(old(agents), id, -1)
    {
      if id in agents {
        assert FiledOk(reg, width, agents, id);
        var n := agents[id].activeTasks - 1;
        Store(id, agents[id].(activeTasks := if n < 0 then 0 else n));
      }
    }

    method UpdateHealth(id: AgentId, healthy: bool, latency: Option<nat>)
      requires Valid()
      modifies this`agents
      ensures Valid() && agents == WithHealth(old(agents), id, healthy, latency)
    {
      if id in agents {
        assert FiledOk(reg, width, agents, id);
        Store(id, agents[id].(healthy := healthy, latency := latency, checked := true));
      }
    }

    method RecordReaction(id: AgentId, positive: bool)
      requires Valid()
      modifies this`agents
      ensures Valid() && agents == WithReaction(old(agents), id, positive)
    {
      if id in agents {
        assert FiledOk(reg, width, agents, id);
        RecordKeeps(agents[id].social, positive);
        Store(id, agents[id].(social := agents[id].social.Record(positive)));
      }
    }
  }

  function WithHealth(agents: map<AgentId, Entry>, id: AgentId, healthy: bool, latency: Option<nat>): map<AgentId, Entry> {
    if id in agents then agents[id := agents[id].(healthy := healthy, latency := latency, checked := true)] else agents
  }

  /** A load moved up or down, never below zero. */
  function WithTasks(agents: map<AgentId, Entry>, id: AgentId, change: int): map<AgentId, Entry> {
    if id !in agents then agents
    else
      var n := agents[id].activeTasks + change;
      agents[id := agents[id].(activeTasks := if n < 0 then 0 else n)]
  }

  /** One more positive or negative reaction. */
  function WithReaction(agents: map<AgentId, Entry>, id: AgentId, positive: bool): map<AgentId, Entry> {
    if id in agents then agents[id := agents[id].(social := agents[id].social.Record(positive))] else agents
  }

  /** A registration starts an entry with no load, healthy, never checked and with even feedback; an update
    * changes what it is about, marks the check, and leaves the rest; the load never falls below zero. */
  lemma EntriesUpdated(agents: map<AgentId, Entry>, id: AgentId, healthy: bool, latency: Option<nat>, change: int,
                       positive: bool, card: Card)
    requires id in agents && agents[id].social.Usable()
    ensures var e := agents[id];
      && WithHealth(agents, id, healthy, latency) == agents[id := Entry(e.card, e.activeTasks, latency, healthy, true, e.social)]
      && WithTasks(agents, id, change) == agents[id := Entry(e.card, if e.activeTasks + change >= 0 then e.activeTasks + change else 0,
                                                            e.latency, e.healthy, e.checked, e.social)]
      && WithReaction(agents, id, positive).Keys == agents.Keys
      && (positive ==> WithReaction(agents, id, positive)[id].social.RoutingBoost() > e.social.RoutingBoost())
      && (!positive ==> WithReaction(agents, id, positive)[id].social.RoutingBoost() < e.social.RoutingBoost())
    ensures Fresh(card).social.Usable() && Fresh(card).social.RoutingBoost() == 1.0
    ensures Fresh(card) == Entry(card, 0, None, true, false, Fresh(card).social)
  {
    BoostLaws(agents[id].social);
    EvenFeedback(Fresh(card).social);
  }

  lemma FilingKeeps(reg: Registry, width: nat, agents: map<AgentId, Entry>, id: AgentId, e: Entry)
    requires reg.Valid() && EntriesOk(reg, width, agents) && EntryOk(reg, width, e) && e.card.id == id
    ensures EntriesOk(reg, width, agents[id := e])
  {
    var filed := agents[id := e];
    forall x | x in filed ensures FiledOk(reg, width, filed, x) {
      if x != id { assert FiledOk(reg, width, agents, x); }
    }
  }

  lemma UnfilingKeeps(reg: Registry, width: nat, agents: map<AgentId, Entry>, id: AgentId)
    requires reg.Valid() && EntriesOk(reg, width, agents)
    ensures EntriesOk(reg, width, agents - {id})
  {
    var left := agents - {id};
    forall x | x in left ensures FiledOk(reg, width, left, x) {
      assert FiledOk(reg, width, agents, x);
    }
  }

  /** Some posting list of the first n listed capabilities names the agent. */
  ghost predicate Listed(index: Index, required: seq<Cap>, n: nat, id: AgentId)
    requires n <= |required|
  {
    exists i :: 0 <= i < n && id in Posting(index, required[i])
  }

  lemma ListedAreCandidates(reg: Registry, agents: map<AgentId, Entry>, index: Index, required: seq<Cap>)
    requires reg.Valid() && Indexed(reg, agents, index) && InRange(reg, required)
    ensures forall id :: Listed(index, required, |required|, id) <==> Candidate(reg, agents, required, id)
  {}

  // ---------------------------------------------------------------------------------------------
  // Routing
  // ---------------------------------------------------------------------------------------------

  const U64_MAX: nat := 0xFFFF_FFFF_FFFF_FFFF

  /** What agents are compared by. */
  datatype Standing = Standing(score: real, load: nat, latency: nat)

  predicate Better(a: Standing, b: Standing) {
    || a.score > b.score
    || (a.score == b.score && a.load < b.load)
    || (a.score == b.score && a.load == b.load && a.latency < b.latency)
  }

  ghost function StandingOf(reg: Registry, e: Entry, required: seq<Cap>): Standing
    requires reg.Valid() && e.social.Valid()
  {
    Standing(Weigh(Capability.CardScore(reg, e.card.capabilities, required), e.social), e.activeTasks, LatencyOf(e))
  }

  function LatencyOf(e: Entry): nat {
    if e.latency.Some? then e.latency.value else U64_MAX
  }

  function Names(list: seq<AgentId>): set<AgentId> {
    set id | id in list
  }

  predicate Available(e: Entry, id: AgentId, exclude: set<AgentId>) {
    e.healthy && id !in exclude && (e.card.maxConcurrent.Some? ==> e.activeTasks < e.card.maxConcurrent.value)
  }

  ghost predicate Eligible(reg: Registry, e: Entry, id: AgentId, required: seq<Cap>, exclude: set<AgentId>)
    requires reg.Valid() && e.social.Valid()
  {
    Available(e, id, exclude) && StandingOf(reg, e, required).score >= 0.5
  }

  datatype Decision = Route(agent: AgentId, score: real) | NoMatch(required: seq<Cap>)

  ghost predicate Socials(agents: map<AgentId, Entry>) {
    forall id :: id in agents ==> agents[id].social.Valid()
  }

  /** The answers routing may give: a lexicographically best agent among the eligible candidates, or
    * none when no candidate is eligible. */
  ghost predicate Answers(reg: Registry, agents: map<AgentId, Entry>, required: seq<Cap>, exclude: set<AgentId>, d: Decision)
    requires reg.Valid() && Socials(agents)
  {
    match d
    case NoMatch(asked) =>
      asked == required &&
      forall id :: Candidate(reg, agents, required, id) ==> !Eligible(reg, agents[id], id, required, exclude)
    case Route(best, score) =>
      && Candidate(reg, agents, required, best) && Eligible(reg, agents[best], best, required, exclude)
      && score == StandingOf(reg, agents[best], required).score
      && forall id :: Candidate(reg, agents, required, id) && Eligible(reg, agents[id], id, required, exclude) ==>
           !Better(StandingOf(reg, agents[id], required), StandingOf(reg, agents[best], required))
  }

  /** The capability score of one card, computed on the bit sets. */
  method CapabilityScore(reg: Registry, width: nat, card: Card, required: seq<Cap>) returns (score: real)
    requires reg.Valid() && reg.Size() <= 64 * width && InRange(reg, required) && CardOk(reg, width, card)
    ensures score == Capability.CardScore(reg, card.capabilities, required)
  {
    if required == [] {
      return 1.0;
    }
    var raw := Capability.Collect(required, width);
    var closed := Capability.Close(reg, raw);
    score := Capability.OverlapScore(card.closed, closed);
  }

  method Score(reg: Registry, width: nat, e: Entry, required: seq<Cap>) returns (standing: Standing)
    requires reg.Valid() && reg.Size() <= 64 * width && InRange(reg, required)
    requires CardOk(reg, width, e.card) && e.social.Valid()
    ensures standing == StandingOf(reg, e, required)
  {
    var capScore := CapabilityScore(reg, width, e.card, required);
    standing := Standing(Weigh(capScore, e.social), e.activeTasks, LatencyOf(e));
  }

  ghost predicate Standings(reg: Registry, agents: map<AgentId, Entry>, required: seq<Cap>, found: set<AgentId>,
                            standings: map<AgentId, Standing>)
    requires reg.Valid() && Socials(agents)
  {
    forall id :: id in found ==> StandsAt(reg, agents, required, standings, id)
  }

  ghost predicate StandsAt(reg: Registry, agents: map<AgentId, Entry>, required: seq<Cap>,
                           standings: map<AgentId, Standing>, id: AgentId)
    requires reg.Valid() && Socials(agents)
  {
    id in agents && id in standings && standings[id] == StandingOf(reg, agents[id], required)
  }

  ghost predicate Contends(agents: map<AgentId, Entry>, exclude: set<AgentId>, standings: map<AgentId, Standing>, id: AgentId) {
    id in agents && id in standings && Available(agents[id], id, exclude) && standings[id].score >= 0.5
  }

  method ScoreOf(directory: AgentDirectory, required: seq<Cap>, id: AgentId, ghost standings: map<AgentId, Standing>)
    returns (standing: Standing)
    requires directory.Valid() && InRange(directory.reg, required) && Socials(directory.agents)
    requires StandsAt(directory.reg, directory.agents, required, standings, id)
    ensures standing == standings[id]
  {
    assert FiledOk(directory.reg, directory.width, directory.agents, id);
    standing := Score(directory.reg, directory.width, directory.agents[id], required);
  }

  /** Looks at the candidates in any order and keeps the first one that nothing so far beats. */
  method Choose(directory: AgentDirectory, required: seq<Cap>, exclude: set<AgentId>, found: set<AgentId>,
                ghost standings: map<AgentId, Standing>)
    returns (best: Option<AgentId>, top: Standing)
    requires directory.Valid() && InRange(directory.reg, required) && Socials(directory.agents)
    requires Standings(directory.reg, directory.agents, required, found, standings)
    ensures best.Some? ==> best.value in found && Contends(directory.agents, exclude, standings, best.value)
    ensures best.Some? ==> top == standings[best.value]
    ensures forall id :: id in found && Contends(directory.agents, exclude, standings, id) ==>
              best.Some? && !Better(standings[id], top)
  {
    var rest := found;
    best, top := None, Standing(0.0, 0, 0);
    while rest != {}
      invariant rest <= found
      invariant best.Some? ==> best.value in found && Contends(directory.agents, exclude, standings, best.value)
      invariant best.Some? ==> top == standings[best.value]
      invariant forall id :: id in found && id !in rest && Contends(directory.agents, exclude, standings, id) ==>
                  best.Some? && !Better(standings[id], top)
      decreases |rest|
    {
      var id :| id in rest;
      rest := rest - {id};
      assert StandsAt(directory.reg, directory.agents, required, standings, id);
      if Available(directory.agents[id], id, exclude) {
        var standing := ScoreOf(directory, required, id, standings);
        if standing.score >= 0.5 && (best.None? || Better(standing, top)) {
          best, top := Some(id), standing;
        }
      }
    }
  }

  method RouteTask(directory: AgentDirectory, required: seq<Cap>, exclude: seq<AgentId>) returns (d: Decision)
    requires directory.Valid() && InRange(directory.reg, required)
    ensures Socials(directory.agents) && Answers(directory.reg, directory.agents, required, Names(exclude), d)
  {
    EntriesAreSocial(directory.reg, directory.width, directory.agents);
    var found := directory.CandidatesFor(required);
    ghost var standings := AllStandings(directory.reg, directory.agents, required, found);
    var best, top := Choose(directory, required, Names(exclude), found, standings);
    if best.None? {
      d := NoMatch(required);
    } else {
      d := Route(best.value, top.score);
    }
    ChosenAnswers(directory.reg, directory.agents, required, Names(exclude), found, standings, best, d);
  }

  ghost function AllStandings(reg: Registry, agents: map<AgentId, Entry>, required: seq<Cap>, found: set<AgentId>):
    (standings: map<AgentId, Standing>)
    requires reg.Valid() && Socials(agents) && found <= agents.Keys
    ensures Standings(reg, agents, required, found, standings)
  {
    map id | id in found :: StandingOf(reg, agents[id], required)
  }

  lemma ChosenAnswers(reg: Registry, agents: map<AgentId, Entry>, required: seq<Cap>, exclude: set<AgentId>,
                      found: set<AgentId>, standings: map<AgentId, Standing>, best: Option<AgentId>, d: Decision)
    requires reg.Valid() && Socials(agents) && Standings(reg, agents, required, found, standings)
    requires forall id :: id in found <==> Candidate(reg, agents, required, id)
    requires best.Some? ==> best.value in found && Contends(agents, exclude, standings, best.value)
    requires forall id :: id in found && Contends(agents, exclude, standings, id) ==>
      best.Some? && !Better(standings[id], standings[best.value])
    requires d == if best.None? then NoMatch(required) else Route(best.value, standings[best.value].score)
    ensures Answers(reg, agents, required, exclude, d)
  {}

  /** The agent answered has the highest score among the eligible candidates; of those, the fewest tasks; and of
    * those, the lowest known latency. */
  lemma BestIsBest(reg: Registry, agents: map<AgentId, Entry>, required: seq<Cap>, exclude: set<AgentId>, best: AgentId,
                   score: real, id: AgentId)
    requires reg.Valid() && Socials(agents) && Answers(reg, agents, required, exclude, Route(best, score))
    requires Candidate(reg, agents, required, id) && Eligible(reg, agents[id], id, required, exclude)
    ensures best in agents && score == Weigh(Capability.CardScore(reg, agents[best].card.capabilities, required), agents[best].social)
    ensures var its := Weigh(Capability.CardScore(reg, agents[id].card.capabilities, required), agents[id].social);
      && its <= score && (its == score ==> agents[best].activeTasks <= agents[id].activeTasks)
      && (its == score && agents[best].activeTasks == agents[id].activeTasks && agents[id].latency.Some?
          && agents[id].latency.value < 0xFFFF_FFFF_FFFF_FFFF ==>
            agents[best].latency.Some? && agents[best].latency.value <= agents[id].latency.value)
  {
    assert !Better(StandingOf(reg, agents[id], required), StandingOf(reg, agents[best], required));
  }

  /** Who can be answered at all: healthy, not excluded, below its task limit, and with a score of one half. */
  lemma EligibleExactly(reg: Registry, e: Entry, id: AgentId, required: seq<Cap>, exclude: set<AgentId>)
    requires reg.Valid() && e.social.Valid()
    ensures Eligible(reg, e, id, required, exclude) <==>
      && e.healthy && id !in exclude && !(e.card.maxConcurrent.Some? && e.activeTasks >= e.card.maxConcurrent.value)
      && 2.0 * Weigh(Capability.CardScore(reg, e.card.capabilities, required), e.social) >= 1.0
  {}

  /** Being better is a strict order with ties: what does not beat b cannot beat what b does not beat. */
  lemma BetterIsAnOrder(a: Standing, b: Standing, c: Standing)
    ensures !(Better(a, b) && Better(b, a))
    ensures Better(a, b) && Better(b, c) ==> Better(a, c)
    ensures !Better(a, b) && !Better(b, c) ==> !Better(a, c)
    ensures !Better(a, b) && !Better(b, a) <==> a == b
  {}

  /** Reputation cannot rescue an agent below 5/12 nor exclude one from 5/8 up, and it cannot outweigh
    * one and a half times the capability score. */
  lemma ReputationIsBounded(x: real, y: real, m: SocialMetrics, n: SocialMetrics)
    requires 0.0 <= x && 0.0 < y && m.Usable() && n.Usable()
    ensures 12.0 * x <= 5.0 ==> Weigh(x, m) < 0.5
    ensures 8.0 * x >= 5.0 ==> Weigh(x, m) >= 0.5
    ensures 2.0 * x >= 3.0 * y ==> Weigh(x, m) > Weigh(y, n)
  {
    WeighLaws(x, m);
    WeighLaws(y, n);
  }

  lemma WeighLaws(x: real, m: SocialMetrics)
    requires m.Usable() && x >= 0.0
    ensures 0.8 * x <= Weigh(x, m) <= 1.2 * x
    ensures x > 0.0 ==> 0.8 * x < Weigh(x, m) < 1.2 * x
  {
    BoostLaws(m);
    ScaledBetween(x, m.RoutingBoost());
  }

  lemma ScaledBetween(x: real, p: real)
    requires x >= 0.0 && 0.8 < p < 1.2
    ensures 0.8 * x <= x * p <= 1.2 * x
    ensures x > 0.0 ==> 0.8 * x < x * p < 1.2 * x
  {}

  // ---------------------------------------------------------------------------------------------
  // The index against a scan of all agents
  // ---------------------------------------------------------------------------------------------

  /** No eligible agent is missed by looking only at the holders of a listed capability. */
  ghost predicate FilterIsComplete(reg: Registry, width: nat, required: seq<Cap>)
    requires reg.Valid()
  {
    forall e: Entry {:trigger EntryOk(reg, width, e)} ::
      EntryOk(reg, width, e) && StandingOf(reg, e, required).score >= 0.5 ==> HoldsAny(reg, e.card.capabilities, required)
  }

  /** x does not imply any of the listed capabilities. */
  ghost predicate ImpliesNone(reg: Registry, required: seq<Cap>, x: Cap)
    requires reg.Valid()
  {
    forall i :: 0 <= i < |required| ==> required[i] !in Ancestors(reg, x)
  }

  /** What the listed capabilities imply but cannot be reached back from. */
  ghost function Unlisted(reg: Registry, required: seq<Cap>): set<Cap>
    requires reg.Valid()
  {
    set x | x in Closure(reg, SetOf(required)) && ImpliesNone(reg, required, x)
  }

  /** All an agent can share with the closed requirements without holding a listed one. */
  lemma SharedIsUnlisted(reg: Registry, capabilities: seq<Cap>, required: seq<Cap>)
    requires reg.Valid() && !HoldsAny(reg, capabilities, required)
    ensures Closure(reg, SetOf(capabilities)) * Closure(reg, SetOf(required)) <= Unlisted(reg, required)
  {
    var held := Closure(reg, SetOf(capabilities));
    ClosureClosed(reg, SetOf(capabilities));
    forall x | x in held && x in Closure(reg, SetOf(required)) ensures ImpliesNone(reg, required, x) {
      ClosedHasAncestors(reg, held, x);
      forall i | 0 <= i < |required| ensures required[i] !in Ancestors(reg, x) {
        assert !Capability.Offers(reg, capabilities, required[i]);
      }
    }
  }

  lemma UnlistedIsClosed(reg: Registry, required: seq<Cap>)
    requires reg.Valid()
    ensures Closure(reg, Unlisted(reg, required)) == Unlisted(reg, required)
  {
    var u := Unlisted(reg, required);
    ClosureClosed(reg, SetOf(required));
    forall x | x in u && reg.Parent(x).Some? ensures reg.Parent(x).value in u {
      SelfAndParent(reg, x);
      AncestorsTransitive(reg, x, reg.Parent(x).value);
    }
    ClosureExtends(reg, u);
    ClosureIsLeast(reg, u, u);
    SameSet(Closure(reg, u), u);
  }

  lemma {:induction false} AsList(s: set<Cap>) returns (caps: seq<Cap>)
    ensures SetOf(caps) == s
    decreases |s|
  {
    if s == {} {
      caps := [];
    } else {
      var c :| c in s;
      var rest := AsList(s - {c});
      caps := rest + [c];
      assert SetOf(caps) == SetOf(rest) + {c};
    }
  }

  lemma RequiredIsNotEmpty(reg: Registry, required: seq<Cap>)
    requires reg.Valid() && required != []
    ensures SetOf(required) <= Closure(reg, SetOf(required)) != {}
  {
    assert required[0] in SetOf(required);
    ClosureExtends(reg, SetOf(required));
  }

  lemma FewShared(reg: Registry, required: seq<Cap>, e: Entry)
    requires reg.Valid() && required != [] && e.social.Valid()
    requires 12 * |Unlisted(reg, required)| <= 5 * |Closure(reg, SetOf(required))|
    requires !HoldsAny(reg, e.card.capabilities, required)
    ensures StandingOf(reg, e, required).score < 0.5
  {
    var need, held := Closure(reg, SetOf(required)), Closure(reg, SetOf(e.card.capabilities));
    RequiredIsNotEmpty(reg, required);
    SharedIsUnlisted(reg, e.card.capabilities, required);
    SmallOverlap(held, need, Unlisted(reg, required));
    ReputationIsBounded(Capability.Overlap(held, need), 1.0, e.social, e.social);
  }

  lemma SmallOverlap(held: set<Cap>, need: set<Cap>, u: set<Cap>)
    requires need != {} && held * need <= u && 12 * |u| <= 5 * |need|
    ensures 0.0 <= 12.0 * Capability.Overlap(held, need) <= 5.0
  {
    assert u == held * need + (u - held * need);
    assert |u| == |held * need| + |u - held * need|;
    SmallShare(|held * need|, |need|);
  }

  lemma SmallShare(k: nat, n: nat)
    requires n > 0 && 12 * k <= 5 * n
    ensures 0.0 <= 12.0 * (k as real / n as real) <= 5.0
  {}

  function Praise(n: nat): SocialMetrics
    requires n > 0
  {
    SocialMetrics(4.0 * n as real, 1.0, 4 * n - 1)
  }

  /** Enough praise lifts any share above 5/12 to the threshold. */
  lemma EnoughPraise(k: nat, n: nat)
    requires n > 0 && 12 * k > 5 * n
    ensures var m := Praise(n); m.Usable() && Weigh(k as real / n as real, m) >= 0.5
  {
    var m := Praise(n);
    var q, r, d := k as real / n as real, m.Reputation(), n as real;
    assert q * d == k as real;
    assert 12.0 * (q * d) >= 5.0 * d + 1.0;
    ReputationLaws(m);
    assert r * (4.0 * d + 1.0) == 4.0 * d;
    PraiseArithmetic(q, r, d);
  }

  lemma PraiseArithmetic(q: real, r: real, d: real)
    requires d >= 1.0 && q >= 0.0 && 12.0 * (q * d) >= 5.0 * d + 1.0 && r * (4.0 * d + 1.0) == 4.0 * d
    ensures q * (0.8 + 0.4 * r) >= 0.5
  {
    var s := 4.0 * d + 1.0;
    assert (0.8 + 0.4 * r) * s == 4.8 * d + 0.8;
    var x := q * (0.8 + 0.4 * r);
    assert x * s == q * (4.8 * d + 0.8) == 4.8 * (q * d) + 0.8 * q;
    assert x * s >= 2.0 * d + 0.4 + 0.8 * q;
    assert 12.0 * q * d >= 5.0 * d;
    assert (12.0 * q - 5.0) * d >= 0.0;
    assert (x - 0.5) * s >= 0.0;
  }

  /** The index finds every eligible agent that a directory can hold exactly when something is required and
    * at most 5/12 of what the requirements imply can be held without implying a listed one. */
  lemma FilterCompleteExactly(reg: Registry, width: nat, required: seq<Cap>)
    requires reg.Valid() && InRange(reg, required) && reg.Size() <= 64 * width
    ensures FilterIsComplete(reg, width, required) <==> FewUnlisted(reg, required)
  {
    if FewUnlisted(reg, required) {
      forall e: Entry | EntryOk(reg, width, e) && StandingOf(reg, e, required).score >= 0.5
        ensures HoldsAny(reg, e.card.capabilities, required)
      {
        if !HoldsAny(reg, e.card.capabilities, required) { FewShared(reg, required, e); }
      }
    } else {
      var e := MissedEntry(reg, width, required, AgentId("praised"));
    }
  }

  ghost predicate FewUnlisted(reg: Registry, required: seq<Cap>)
    requires reg.Valid()
  {
    required != [] && 12 * |Unlisted(reg, required)| <= 5 * |Closure(reg, SetOf(required))|
  }

  /** Otherwise some directory, with one available agent that reaches the threshold, answers that there is
    * no match. */
  lemma IncompleteFilterMisses(reg: Registry, width: nat, required: seq<Cap>, id: AgentId) returns (agents: map<AgentId, Entry>)
    requires reg.Valid() && InRange(reg, required) && reg.Size() <= 64 * width && !FewUnlisted(reg, required)
    ensures EntriesOk(reg, width, agents) && Socials(agents) && agents.Keys == {id}
    ensures Eligible(reg, agents[id], id, required, {})
    ensures forall d :: Answers(reg, agents, required, {}, d) <==> d == NoMatch(required)
  {
    var e := MissedEntry(reg, width, required, id);
    agents := LoneAgentMissed(reg, width, required, e);
  }

  /** A directory that holds only an agent without a listed capability. */
  lemma LoneAgentMissed(reg: Registry, width: nat, required: seq<Cap>, e: Entry) returns (agents: map<AgentId, Entry>)
    requires reg.Valid() && EntryOk(reg, width, e) && !HoldsAny(reg, e.card.capabilities, required)
    ensures EntriesOk(reg, width, agents) && Socials(agents) && agents == map[e.card.id := e]
    ensures forall d :: Answers(reg, agents, required, {}, d) <==> d == NoMatch(required)
  {
    agents := map[e.card.id := e];
    assert FiledOk(reg, width, agents, e.card.id);
    NoCandidate(reg, agents, required, {});
  }

  lemma NoCandidate(reg: Registry, agents: map<AgentId, Entry>, required: seq<Cap>, excluded: set<AgentId>)
    requires reg.Valid() && Socials(agents) && forall id :: !Candidate(reg, agents, required, id)
    ensures forall d :: Answers(reg, agents, required, excluded, d) <==> d == NoMatch(required)
  {}

  lemma UnlistedInRange(reg: Registry, required: seq<Cap>)
    requires reg.Valid() && InRange(reg, required)
    ensures forall c: Cap :: c in Unlisted(reg, required) ==> c < reg.Size()
  {
    AncestorsBounded(reg, SetOf(required));
  }

  lemma {:induction false} MissedEntry(reg: Registry, width: nat, required: seq<Cap>, id: AgentId) returns (e: Entry)
    requires reg.Valid() && InRange(reg, required) && reg.Size() <= 64 * width && !FewUnlisted(reg, required)
    ensures EntryOk(reg, width, e) && e.card.id == id && Available(e, id, {})
    ensures StandingOf(reg, e, required).score >= 0.5 && !HoldsAny(reg, e.card.capabilities, required)
  {
    var card := UnlistedCard(reg, width, required, id);
    e := Fresh(card);
    FreshSocial();
    if required == [] {
      WeighLaws(1.0, e.social);
    } else {
      RequiredIsNotEmpty(reg, required);
      PraiseIsValid(|Closure(reg, SetOf(required))|);
      e := e.(social := Praise(|Closure(reg, SetOf(required))|));
      ListsNone(reg, card.capabilities, required);
      PraisedScore(reg, e, required);
    }
  }

  lemma PraiseIsValid(n: nat)
    requires n > 0
    ensures Praise(n).Valid()
  {
    assert (4.0 * n as real).Floor == 4 * n;
  }

  /** A card that offers exactly the unlisted capabilities. */
  lemma UnlistedCard(reg: Registry, width: nat, required: seq<Cap>, id: AgentId) returns (card: Card)
    requires reg.Valid() && InRange(reg, required) && reg.Size() <= 64 * width
    ensures CardOk(reg, width, card) && card.id == id && card.maxConcurrent.None?
    ensures SetOf(card.capabilities) == Unlisted(reg, required)
  {
    UnlistedInRange(reg, required);
    UnlistedIsClosed(reg, required);
    var caps := AsList(Unlisted(reg, required));
    var words := Capability.SomeWords(Unlisted(reg, required), width);
    assert forall i :: 0 <= i < |caps| ==> caps[i] in SetOf(caps);
    card := Card(id, caps, words, None);
  }

  lemma PraisedScore(reg: Registry, e: Entry, required: seq<Cap>)
    requires reg.Valid() && required != [] && SetOf(e.card.capabilities) == Unlisted(reg, required)
    requires 12 * |Unlisted(reg, required)| > 5 * |Closure(reg, SetOf(required))| > 0
    requires e.social == Praise(|Closure(reg, SetOf(required))|)
    ensures e.social.Valid() && StandingOf(reg, e, required).score >= 0.5
  {
    UnlistedScore(reg, e.card.capabilities, required);
    PraiseLifts(reg, e, required, |Unlisted(reg, required)|, |Closure(reg, SetOf(required))|);
  }

  lemma PraiseLifts(reg: Registry, e: Entry, required: seq<Cap>, k: nat, n: nat)
    requires reg.Valid() && n > 0 && 12 * k > 5 * n && e.social == Praise(n)
    requires Capability.CardScore(reg, e.card.capabilities, required) == k as real / n as real
    ensures e.social.Valid() && StandingOf(reg, e, required).score >= 0.5
  {
    PraiseIsValid(n);
    EnoughPraise(k, n);
  }

  lemma UnlistedScore(reg: Registry, caps: seq<Cap>, required: seq<Cap>)
    requires reg.Valid() && required != [] && SetOf(caps) == Unlisted(reg, required)
    ensures var u, need := Unlisted(reg, required), Closure(reg, SetOf(required));
      need != {} && Capability.CardScore(reg, caps, required) == |u| as real / |need| as real
  {
    UnlistedIsClosed(reg, required);
    UnlistedOverlap(reg, required);
  }

  lemma UnlistedOverlap(reg: Registry, required: seq<Cap>)
    requires reg.Valid() && required != []
    ensures var u, need := Unlisted(reg, required), Closure(reg, SetOf(required));
      need != {} && Capability.Overlap(u, need) == |u| as real / |need| as real
  {
    RequiredIsNotEmpty(reg, required);
    assert Unlisted(reg, required) * Closure(reg, SetOf(required)) == Unlisted(reg, required);
  }

  lemma ListsNone(reg: Registry, caps: seq<Cap>, required: seq<Cap>)
    requires reg.Valid() && SetOf(caps) == Unlisted(reg, required)
    ensures !HoldsAny(reg, caps, required)
  {}

  /** Where the index is complete, routing answers with a best agent of the whole directory, and with
    * none only when no agent of the whole directory is eligible. */
  lemma CompleteFilterScansAll(reg: Registry, width: nat, agents: map<AgentId, Entry>, required: seq<Cap>, exclude: set<AgentId>,
                               d: Decision, id: AgentId)
    requires reg.Valid() && EntriesOk(reg, width, agents) && Socials(agents)
    requires Answers(reg, agents, required, exclude, d) && FilterIsComplete(reg, width, required)
    requires id in agents && Eligible(reg, agents[id], id, required, exclude)
    ensures d.Route? && !Better(StandingOf(reg, agents[id], required), StandingOf(reg, agents[d.agent], required))
  {
    assert FiledOk(reg, width, agents, id) && EntryOk(reg, width, agents[id]);
    assert Candidate(reg, agents, required, id);
  }

  /** Asking for audio processing misses a media agent: it scores exactly the threshold, and a directory that
    * holds only this agent answers that there is no match. */
  lemma {:induction false} AudioMissesMedia(id: AgentId) returns (agents: map<AgentId, Entry>)
    ensures CAPABILITIES.Valid() && EntriesOk(CAPABILITIES, 1, agents) && Socials(agents) && agents.Keys == {id}
    ensures agents[id].card.capabilities == [MEDIA] && Available(agents[id], id, {})
    ensures StandingOf(CAPABILITIES, agents[id], [AUDIO]).score == 0.5
    ensures forall d :: Answers(CAPABILITIES, agents, [AUDIO], {}, d) <==> d == NoMatch([AUDIO])
  {
    var e := MediaEntry(id);
    agents := LoneAgentMissed(CAPABILITIES, 1, [AUDIO], e);
  }

  lemma MediaEntry(id: AgentId) returns (e: Entry)
    ensures CAPABILITIES.Valid() && EntryOk(CAPABILITIES, 1, e) && Available(e, id, {})
    ensures e.card.id == id && e.card.capabilities == [MEDIA]
    ensures StandingOf(CAPABILITIES, e, [AUDIO]).score == 0.5 && !HoldsAny(CAPABILITIES, e.card.capabilities, [AUDIO])
  {
    MediaAgainstAudio();
    FreshSocial();
    var words := Capability.SomeWords({MEDIA}, 1);
    e := Fresh(Card(id, [MEDIA], words, None));
    MediaInRange();
    HalfScore(e.social);
  }

  lemma MediaInRange()
    ensures CAPABILITIES.Valid() && InRange(CAPABILITIES, [MEDIA])
  {
    CapabilitiesValid();
  }

  lemma HalfScore(m: SocialMetrics)
    requires m == SocialMetrics(1.0, 1.0, 0)
    ensures Weigh(0.5, m) == 0.5
  {}

  lemma MediaAgainstAudio()
    ensures CAPABILITIES.Valid() && Closure(CAPABILITIES, SetOf([MEDIA])) == {MEDIA}
    ensures Capability.CardScore(CAPABILITIES, [MEDIA], [AUDIO]) == 0.5
    ensures !HoldsAny(CAPABILITIES, [MEDIA], [AUDIO])
  {
    CapabilitiesValid();
    var reg := CAPABILITIES;
    AncestorsUnfold(reg, MEDIA);
    AncestorsUnfold(reg, AUDIO);
    assert SetOf([MEDIA]) == {MEDIA} && SetOf([AUDIO]) == {AUDIO};
    Capability.ClosureOfOne(reg, MEDIA);
    Capability.ClosureOfOne(reg, AUDIO);
    var held, need := Closure(reg, {MEDIA}), Closure(reg, {AUDIO});
    assert held == {MEDIA} && need == {AUDIO, MEDIA} && held * need == {MEDIA};
    assert [AUDIO][0] == AUDIO;
  }
}
