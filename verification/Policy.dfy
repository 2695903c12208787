/** The A2A policy engine (crates/clawdesk-acp/src/policy.rs): first-match rules over glob
  * patterns behind a per-requester sliding-window rate limit.
  *
  * Instants are integers in nanoseconds and are passed in: the source reads the clock once when it
  * checks the limit and once more when it records an allowed task.
  */
module Policy {
  import opened Wrappers
  import opened Glob
  import opened Windows

  const U32: nat := 0x1_0000_0000

  datatype AgentSource = ClawDesk | OpenClaw(gatewayUrl: string) | External(discoveryUrl: string)

  datatype SourceType = ClawDeskType | OpenClawType | ExternalType {
    predicate MatchesSource(source: AgentSource) {
      match this
      case ClawDeskType => source.ClawDesk?
      case OpenClawType => source.OpenClaw?
      case ExternalType => source.External?
    }
  }

  datatype Effect = AllowEffect | DenyEffect

  datatype Rule = Rule(description: string, requester: string, target: string,
                       skill: Option<string>, sourceTypes: seq<SourceType>, effect: Effect)

  datatype RateLimit = RateLimit(maxTasks: nat, windowSecs: nat) {
    ghost predicate Valid() { maxTasks < U32 }

    /** The window in nanoseconds. */
    function Window(): nat { windowSecs * 1_000_000_000 }
  }

  datatype A2APolicy = A2APolicy(rules: seq<Rule>, defaultEffect: Effect,
                                 rateLimits: map<string, RateLimit>, globalRateLimit: Option<RateLimit>) {
    ghost predicate Valid() {
      && (forall r :: r in rateLimits ==> rateLimits[r].Valid())
      && (globalRateLimit.Some? ==> globalRateLimit.value.Valid())
    }

    /** The limit that applies to a requester: its own, otherwise the global one. */
    function LimitFor(requester: string): Option<RateLimit> {
      if requester in rateLimits then Some(rateLimits[requester]) else globalRateLimit
    }
  }

  datatype Request = Request(requester: string, target: string, skill: Option<string>, source: Option<AgentSource>)

  datatype DenyReason = ByRule(description: string) | ByUnnamedRule | ByDefault

  datatype Decision = Allow | Deny(reason: DenyReason) | RateLimited(retryAfterSecs: nat)

  // ---------------------------------------------------------------------------------------------
  // Rules
  // ---------------------------------------------------------------------------------------------

  ghost predicate RuleMatches(rule: Rule, req: Request) {
    && GlobMatches(rule.requester, req.requester)
    && GlobMatches(rule.target, req.target)
    && (rule.skill.Some? ==> req.skill.Some? && GlobMatches(rule.skill.value, req.skill.value))
    && (rule.sourceTypes != [] ==>
          req.source.Some? && exists st :: st in rule.sourceTypes && st.MatchesSource(req.source.value))
  }

  /** What the rules alone decide: the first matching rule, otherwise the default. */
  ghost function Verdict(policy: A2APolicy, req: Request): Decision {
    match FirstMatch(policy.rules, req)
    case Some(i) => EffectOf(policy.rules[i])
    case None => if policy.defaultEffect.AllowEffect? then Allow else Deny(ByDefault)
  }

  function EffectOf(rule: Rule): Decision {
    match rule.effect
    case AllowEffect => Allow
    case DenyEffect => Deny(if rule.description == "" then ByUnnamedRule else ByRule(rule.description))
  }

  /** The position of the first rule that matches. */
  ghost function FirstMatch(rules: seq<Rule>, req: Request): (r: Option<nat>)
    ensures r.Some? ==> r.value < |rules| && RuleMatches(rules[r.value], req)
    ensures forall j :: 0 <= j < (if r.Some? then r.value else |rules|) ==> !RuleMatches(rules[j], req)
  {
    if rules == [] then None
    else if RuleMatches(rules[0], req) then Some(0)
    else match FirstMatch(rules[1..], req)
      case Some(i) => Some(i + 1)
      case None => None
  }

  /** No other position can be the first match. */
  lemma FirstMatchUnique(rules: seq<Rule>, req: Request, i: nat)
    requires i < |rules| && RuleMatches(rules[i], req)
    requires forall j :: 0 <= j < i ==> !RuleMatches(rules[j], req)
    ensures FirstMatch(rules, req) == Some(i)
  {}

  // What rules mean, by the meaning of the patterns ------------------------------------------------------

  /** No name in the request has a '*'. */
  predicate PlainNames(req: Request) {
    StarFree(req.requester) && StarFree(req.target) && (req.skill.Some? ==> StarFree(req.skill.value))
  }

  function TypeOf(source: AgentSource): SourceType {
    match source
    case ClawDesk => ClawDeskType
    case OpenClaw(_) => OpenClawType
    case External(_) => ExternalType
  }

  /** The rule speaks about the request: the requester and the target match their own patterns, the skill is
    * given and matches when the rule names one, and the source is given and of a listed type when it lists any. */
  ghost predicate Concerns(rule: Rule, req: Request) {
    && Matches(rule.requester, req.requester) && Matches(rule.target, req.target)
    && (rule.skill.None? || (req.skill.Some? && Matches(rule.skill.value, req.skill.value)))
    && (rule.sourceTypes == [] || (req.source.Some? && TypeOf(req.source.value) in rule.sourceTypes))
  }

  /** A first rule that does not concern the request has no effect, and one that does decides it. */
  lemma FirstRule(policy: A2APolicy, req: Request)
    requires PlainNames(req) && policy.rules != []
    ensures !Concerns(policy.rules[0], req) ==> Verdict(policy, req) == Verdict(policy.(rules := policy.rules[1..]), req)
    ensures Concerns(policy.rules[0], req) && policy.rules[0].effect.AllowEffect? ==> Verdict(policy, req) == Allow
    ensures Concerns(policy.rules[0], req) && policy.rules[0].effect.DenyEffect? ==>
      Verdict(policy, req) == Deny(if policy.rules[0].description != "" then ByRule(policy.rules[0].description) else ByUnnamedRule)
  {
    var rule := policy.rules[0];
    Meaning(rule.requester, req.requester);
    Meaning(rule.target, req.target);
    if rule.skill.Some? && req.skill.Some? { Meaning(rule.skill.value, req.skill.value); }
    assert RuleMatches(rule, req) <==> Concerns(rule, req);
  }

  lemma NoRules(policy: A2APolicy, req: Request)
    requires policy.rules == []
    ensures Verdict(policy, req) == if policy.defaultEffect.DenyEffect? then Deny(ByDefault) else Allow
  {}

  /** The first rule that concerns the request decides it; where none does, the default. */
  lemma {:induction false} VerdictExactly(policy: A2APolicy, req: Request, i: nat)
    requires PlainNames(req) && i <= |policy.rules| && forall j :: 0 <= j < i ==> !Concerns(policy.rules[j], req)
    ensures i < |policy.rules| && Concerns(policy.rules[i], req) ==>
      (Verdict(policy, req).Allow? <==> policy.rules[i].effect.AllowEffect?) && !Verdict(policy, req).RateLimited? &&
      (policy.rules[i].description != "" && Verdict(policy, req).Deny? ==>
        Verdict(policy, req).reason == ByRule(policy.rules[i].description))
    ensures i == |policy.rules| ==>
      (Verdict(policy, req) == Allow <==> policy.defaultEffect.AllowEffect?) &&
      (Verdict(policy, req) == Deny(ByDefault) <==> policy.defaultEffect.DenyEffect?)
    decreases i
  {
    if i == 0 {
      if policy.rules == [] { NoRules(policy, req); } else { FirstRule(policy, req); }
    } else {
      var rest := policy.(rules := policy.rules[1..]);
      forall j | 0 <= j < i - 1 ensures !Concerns(rest.rules[j], req) {
        assert rest.rules[j] == policy.rules[j + 1];
      }
      assert !Concerns(policy.rules[0], req);
      FirstRule(policy, req);
      VerdictExactly(rest, req, i - 1);
    }
  }

  // ---------------------------------------------------------------------------------------------
  // The engine as a function of its history
  // ---------------------------------------------------------------------------------------------

  /** When each requester was granted a task since the policy was loaded. */
  type Grants = map<string, seq<int>>

  function GrantsOf(g: Grants, requester: string): seq<int> {
    if requester in g then g[requester] else []
  }

  /** The first request of a requester meets no window and is never limited; afterwards a request
    * is limited when the window that ends at the check already holds the quota. */
  ghost predicate Throttled(limit: RateLimit, h: seq<int>, now: int) {
    h != [] && CountIn(h, now, limit.Window()) >= limit.maxTasks
  }

  ghost function Decide(policy: A2APolicy, g: Grants, req: Request, checkedAt: int): Decision {
    var limit := policy.LimitFor(req.requester);
    if limit.Some? && Throttled(limit.value, GrantsOf(g, req.requester), checkedAt)
    then RateLimited(limit.value.windowSecs)
    else Verdict(policy, req)
  }

  function Granted(g: Grants, requester: string, at: int): Grants {
    g[requester := GrantsOf(g, requester) + [at]]
  }

  datatype Event =
    | Ask(req: Request, checkedAt: int, recordedAt: int)
    | Reload(policy: A2APolicy)

  datatype State = State(policy: A2APolicy, grants: Grants, clock: int)

  /** Events carry clock readings that never go back. */
  ghost predicate Enabled(s: State, e: Event) {
    match e
    case Ask(_, checkedAt, recordedAt) => s.clock <= checkedAt <= recordedAt
    case Reload(policy) => policy.Valid()
  }

  ghost function After(s: State, e: Event): State {
    match e
    case Ask(req, checkedAt, recordedAt) =>
      if Decide(s.policy, s.grants, req, checkedAt).Allow?
      then s.(grants := Granted(s.grants, req.requester, recordedAt), clock := recordedAt)
      else s.(clock := checkedAt)
    case Reload(policy) => State(policy, map[], s.clock)
  }

  ghost predicate Runs(s: State, events: seq<Event>)
    decreases |events|
  {
    events == [] || (Enabled(s, events[0]) && Runs(After(s, events[0]), events[1..]))
  }

  ghost function AfterAll(s: State, events: seq<Event>): State
    requires Runs(s, events)
    decreases |events|
  {
    if events == [] then s else AfterAll(After(s, events[0]), events[1..])
  }

  /** How many grants one window may hold: the configured quota, but a quota of zero lets one
    * request through, because the first check finds no window. */
  function Quota(limit: RateLimit): nat {
    if limit.maxTasks == 0 then 1 else limit.maxTasks
  }

  ghost predicate GoodLog(limit: Option<RateLimit>, h: seq<int>, clock: int) {
    && Logged(h, clock)
    && (limit.Some? ==> Spaced(h, Quota(limit.value), limit.value.Window()))
    && (limit.Some? && limit.value.maxTasks == 0 ==> |h| <= 1)
  }

  ghost predicate Good(s: State) {
    && s.policy.Valid()
    && forall r :: r in s.grants ==> GoodLog(s.policy.LimitFor(r), s.grants[r], s.clock)
  }

  lemma GoodLogs(s: State, r: string)
    requires Good(s)
    ensures GoodLog(s.policy.LimitFor(r), GrantsOf(s.grants, r), s.clock)
  {}

  /** One request, granted or not, keeps every requester's log good. */
  lemma AskKeepsGood(s: State, e: Event)
    requires Good(s) && e.Ask? && Enabled(s, e)
    ensures Good(After(s, e))
  {
    var r := e.req.requester;
    var h := GrantsOf(s.grants, r);
    GoodLogs(s, r);
    if Decide(s.policy, s.grants, e.req, e.checkedAt).Allow? {
      var limit := s.policy.LimitFor(r);
      if limit.Some? && h != [] {
        GrantKeepsSpacing(h, Quota(limit.value), limit.value.Window(), e.checkedAt, e.recordedAt);
      }
      assert GoodLog(limit, h + [e.recordedAt], e.recordedAt);
    }
  }

  lemma {:induction false} RunsKeepGood(s: State, events: seq<Event>)
    requires Good(s) && Runs(s, events)
    ensures Good(AfterAll(s, events))
    decreases |events|
  {
    if events != [] {
      if events[0].Ask? {
        AskKeepsGood(s, events[0]);
      }
      RunsKeepGood(After(s, events[0]), events[1..]);
    }
  }

  function Init(policy: A2APolicy): State {
    State(policy, map[], 0)
  }

  /** Over every run of requests and reloads: no half-open window, wherever it ends, holds more
    * grants of one limited requester since the last reload than its quota. */
  lemma WindowNeverOverfull(policy: A2APolicy, events: seq<Event>, r: string, hi: int)
    requires policy.Valid() && Runs(Init(policy), events)
    ensures
      var s := AfterAll(Init(policy), events);
      var limit := s.policy.LimitFor(r);
      limit.Some? && limit.value.maxTasks >= 1 ==>
        CountIn(GrantsOf(s.grants, r), hi, limit.value.Window()) <= limit.value.maxTasks
    ensures
      var s := AfterAll(Init(policy), events);
      var limit := s.policy.LimitFor(r);
      limit.Some? && limit.value.maxTasks == 0 ==> |GrantsOf(s.grants, r)| <= 1
  {
    RunsKeepGood(Init(policy), events);
    var s := AfterAll(Init(policy), events);
    GoodLogs(s, r);
    var limit := s.policy.LimitFor(r);
    if limit.Some? {
      WindowBound(GrantsOf(s.grants, r), Quota(limit.value), limit.value.Window(), hi);
    }
  }

  /** RateLimited is answered, after every run, exactly when the preceding window is full, and then
    * it holds the quota and not more. */
  lemma RateLimitedMeansFull(policy: A2APolicy, events: seq<Event>, req: Request, now: int)
    requires policy.Valid() && Runs(Init(policy), events) && AfterAll(Init(policy), events).clock <= now
    ensures
      var s := AfterAll(Init(policy), events);
      var limit := s.policy.LimitFor(req.requester);
      limit.Some? && limit.value.maxTasks >= 1 ==>
        (Decide(s.policy, s.grants, req, now).RateLimited? <==>
           CountIn(GrantsOf(s.grants, req.requester), now, limit.value.Window()) == limit.value.maxTasks)
  {
    var s := AfterAll(Init(policy), events);
    var limit := s.policy.LimitFor(req.requester);
    if limit.Some? {
      WindowNeverOverfull(policy, events, req.requester, now);
      VerdictNotLimited(s.policy, req);
      assert GrantsOf(s.grants, req.requester) == [] ==> Inside(GrantsOf(s.grants, req.requester), now, limit.value.Window()) == {};
    }
  }

  /** The limit is the requester's own, and the global one only where it has none; it is asked about before any
    * rule, and the answer gives its window. */
  lemma OwnLimitFirst(policy: A2APolicy, events: seq<Event>, req: Request, now: int, limit: RateLimit)
    requires policy.Valid() && Runs(Init(policy), events) && AfterAll(Init(policy), events).clock <= now
    requires var p := AfterAll(Init(policy), events).policy;
      if req.requester in p.rateLimits then p.rateLimits[req.requester] == limit else p.globalRateLimit == Some(limit)
    requires limit.maxTasks >= 1
    ensures var s := AfterAll(Init(policy), events);
      Decide(s.policy, s.grants, req, now) ==
        if CountIn(GrantsOf(s.grants, req.requester), now, limit.windowSecs * 1_000_000_000) >= limit.maxTasks
        then RateLimited(limit.windowSecs) else Verdict(s.policy, req)
  {
    RateLimitedMeansFull(policy, events, req, now);
    WindowNeverOverfull(policy, events, req.requester, now);
    VerdictNotLimited(AfterAll(Init(policy), events).policy, req);
  }

  lemma Unlimited(policy: A2APolicy, g: Grants, req: Request, now: int)
    requires req.requester !in policy.rateLimits && policy.globalRateLimit == None
    ensures Decide(policy, g, req, now) == Verdict(policy, req)
  {}

  /** When the requester was answered Allow since the last reload, each time as recorded. */
  ghost function AllowTimes(s: State, events: seq<Event>, r: string, so: seq<int>): seq<int>
    requires Runs(s, events)
    decreases |events|
  {
    if events == [] then so
    else
      var next := After(s, events[0]);
      match events[0]
      case Reload(_) => AllowTimes(next, events[1..], r, [])
      case Ask(req, checkedAt, recordedAt) =>
        if req.requester == r && Decide(s.policy, s.grants, req, checkedAt) == Allow
        then AllowTimes(next, events[1..], r, so + [recordedAt]) else AllowTimes(next, events[1..], r, so)
  }

  /** Over every run the grants that the limit counts are exactly the requester's Allow answers. */
  lemma {:induction false} GrantsAreAllows(s: State, events: seq<Event>, r: string)
    requires Runs(s, events)
    ensures GrantsOf(AfterAll(s, events).grants, r) == AllowTimes(s, events, r, GrantsOf(s.grants, r))
    decreases |events|
  {
    if events != [] { GrantsAreAllows(After(s, events[0]), events[1..], r); }
  }

  lemma VerdictNotLimited(policy: A2APolicy, req: Request)
    ensures !Verdict(policy, req).RateLimited?
  {}

  ghost predicate QuotaKept(policy: A2APolicy, r: string, limit: RateLimit) {
    forall events: seq<Event>, hi {:trigger Overfull(policy, events, r, limit, hi)} ::
      Runs(Init(policy), events) ==> !Overfull(policy, events, r, limit, hi)
  }

  /** A run without reloads after which the window that ends at hi holds more than maxTasks. */
  ghost predicate Overfull(policy: A2APolicy, events: seq<Event>, r: string, limit: RateLimit, hi: int)
    requires Runs(Init(policy), events)
  {
    && (forall e :: e in events ==> e.Ask?)
    && CountIn(GrantsOf(AfterAll(Init(policy), events).grants, r), hi, limit.Window()) > limit.maxTasks
  }

  /** The configured quota is kept exactly when it is at least one, or the window is empty, or the
    * rules never allow this requester anything. */
  lemma QuotaKeptExactly(policy: A2APolicy, r: string, limit: RateLimit)
    requires policy.Valid() && policy.LimitFor(r) == Some(limit)
    ensures QuotaKept(policy, r, limit) <==>
            limit.maxTasks >= 1 || limit.windowSecs == 0 ||
            forall req: Request :: req.requester == r ==> !Verdict(policy, req).Allow?
  {
    if limit.maxTasks == 0 && limit.windowSecs > 0 {
      if req: Request :| req.requester == r && Verdict(policy, req).Allow? {
        ZeroQuotaGrantsOne(policy, req, limit);
      } else {
        forall events: seq<Event>, hi | Runs(Init(policy), events) ensures !Overfull(policy, events, r, limit, hi) {
          if forall e :: e in events ==> e.Ask? {
            NeverAllowed(Init(policy), events, r);
            assert Inside([], hi, limit.Window()) == {};
          }
        }
      }
    } else {
      forall events: seq<Event>, hi | Runs(Init(policy), events) ensures !Overfull(policy, events, r, limit, hi) {
        if forall e :: e in events ==> e.Ask? {
          WindowNeverOverfull(policy, events, r, hi);
          PolicyKept(Init(policy), events);
          if limit.windowSecs == 0 {
            assert Inside(GrantsOf(AfterAll(Init(policy), events).grants, r), hi, 0) == {};
          }
        }
      }
    }
  }

  lemma {:induction false} PolicyKept(s: State, events: seq<Event>)
    requires Runs(s, events) && forall e :: e in events ==> e.Ask?
    ensures AfterAll(s, events).policy == s.policy
    decreases |events|
  {
    if events != [] {
      assert events[0] in events;
      PolicyKept(After(s, events[0]), events[1..]);
    }
  }

  lemma {:induction false} NeverAllowed(s: State, events: seq<Event>, r: string)
    requires Runs(s, events) && (forall e :: e in events ==> e.Ask?) && GrantsOf(s.grants, r) == []
    requires forall req: Request :: req.requester == r ==> !Verdict(s.policy, req).Allow?
    ensures GrantsOf(AfterAll(s, events).grants, r) == []
    decreases |events|
  {
    if events != [] {
      assert events[0] in events;
      NeverAllowed(After(s, events[0]), events[1..], r);
    }
  }

  /** A quota of zero still lets the first allowed request through. */
  lemma ZeroQuotaGrantsOne(policy: A2APolicy, req: Request, limit: RateLimit)
    requires policy.Valid() && policy.LimitFor(req.requester) == Some(limit)
    requires limit.maxTasks == 0 && limit.windowSecs > 0 && Verdict(policy, req).Allow?
    ensures !QuotaKept(policy, req.requester, limit)
  {
    var e := Ask(req, 0, 0);
    var s := Init(policy);
    assert Decide(policy, map[], req, 0).Allow?;
    assert [e][1..] == [];
    assert Runs(After(s, e), []);
    assert Runs(s, [e]);
    assert AfterAll(s, [e]) == AfterAll(After(s, e), []);
    assert GrantsOf(After(s, e).grants, req.requester) == [0];
    assert Inside([0], 0, limit.Window()) == {0};
    assert Overfull(policy, [e], req.requester, limit, 0);
  }

  // ---------------------------------------------------------------------------------------------
  // The engine as the source runs it
  // ---------------------------------------------------------------------------------------------

  /** The first d entries of a log are at or before the cutoff. */
  ghost predicate Expired(recorded: seq<int>, d: int, cutoff: int) {
    0 <= d <= |recorded| && forall i :: 0 <= i < d ==> recorded[i] <= cutoff
  }

  /** A log in order, none of it later than now. */
  ghost predicate Logged(recorded: seq<int>, now: int) {
    Sorted(recorded) && forall i :: 0 <= i < |recorded| ==> recorded[i] <= now
  }

  /** A requester has a window exactly when it is limited and was granted something. */
  ghost predicate Covered(policy: A2APolicy, g: Grants, windowed: set<string>) {
    forall r :: r in windowed <==> policy.LimitFor(r).Some? && GrantsOf(g, r) != []
  }

  lemma CoveredGrant(policy: A2APolicy, g: Grants, windowed: set<string>, r: string, at: int)
    requires Covered(policy, g, windowed)
    ensures policy.LimitFor(r).Some? ==> Covered(policy, Granted(g, r, at), windowed + {r})
    ensures policy.LimitFor(r).None? ==> Covered(policy, Granted(g, r, at), windowed)
  {}

  /** The sliding window of one requester: a queue of instants, expired ones dropped from the front. */
  class RateWindow {
    var timestamps: seq<int>
    const maxTasks: nat
    const window: nat
    /** The requester it belongs to. */
    ghost const owner: string
    /** Everything ever recorded, and the latest instant any method was called with. */
    ghost var recorded: seq<int>
    ghost var clock: int

    ghost predicate Valid()
      reads this
    {
      Expired(recorded, |recorded| - |timestamps|, clock - window) && timestamps == recorded[|recorded| - |timestamps|..]
    }

    constructor (maxTasks: nat, window: nat, ghost now: int, ghost owner: string)
      ensures Valid() && recorded == [] && timestamps == [] && clock == now
      ensures this.maxTasks == maxTasks && this.window == window && this.owner == owner
    {
      this.maxTasks := maxTasks;
      this.window := window;
      this.owner := owner;
      timestamps, recorded, clock := [], [], now;
    }

    /** Drops exactly the instants that are a whole window old. */
    method EvictExpired(now: int)
      requires Valid() && clock <= now && Logged(recorded, now)
      modifies this
      ensures Valid() && recorded == old(recorded) && clock == now
      ensures |timestamps| == CountIn(recorded, now, window)
    {
      var cutoff := now - window;
      clock := now;
      ghost var d := |recorded| - |timestamps|;
      while |timestamps| > 0 && timestamps[0] <= cutoff
        invariant Expired(recorded, d, cutoff) && timestamps == recorded[d..]
        invariant recorded == old(recorded) && clock == now
      {
        timestamps := timestamps[1..];
        d := d + 1;
      }
      assert |timestamps| > 0 ==> timestamps[0] == recorded[d];
      CountSuffix(recorded, d, now, window);
    }

    method IsAllowed(now: int) returns (ok: bool)
      requires Valid() && clock <= now && Logged(recorded, now)
      requires CountIn(recorded, now, window) < U32
      modifies this
      ensures Valid() && recorded == old(recorded) && clock == now
      ensures ok == (CountIn(recorded, now, window) < maxTasks)
    {
      EvictExpired(now);
      SmallMod(|timestamps|);
      ok := |timestamps| % U32 < maxTasks;
    }

    method Record(now: int)
      requires Valid() && clock <= now && Logged(recorded, now)
      modifies this
      ensures Valid() && recorded == old(recorded) + [now] && clock == now
    {
      EvictExpired(now);
      timestamps := timestamps + [now];
      recorded := recorded + [now];
    }
  }

  class PolicyEngine {
    var policy: A2APolicy
    var rateWindows: map<string, RateWindow>
    ghost var grants: Grants
    ghost var clock: int

    ghost function Abs(): State
      reads this
    {
      State(policy, grants, clock)
    }

    ghost predicate Valid()
      reads this, rateWindows.Values
    {
      Good(Abs()) && Linked()
    }

    /** Every limited requester that was granted something has its own window object, which holds
      * the whole grant log and the limit of the current policy. */
    ghost predicate Linked()
      reads this, rateWindows.Values
    {
      && Covered(policy, grants, rateWindows.Keys)
      && AllFit(rateWindows, policy, grants, clock)
    }

    static ghost predicate AllFit(windows: map<string, RateWindow>, policy: A2APolicy, g: Grants, now: int)
      reads windows.Values
    {
      forall r :: r in windows ==> windows[r].owner == r && windows[r].clock <= now && Fits(windows[r], policy.LimitFor(r), GrantsOf(g, r))
    }

    /** A window that holds the whole log h of a requester under its current limit. */
    static ghost predicate Fits(w: RateWindow, limit: Option<RateLimit>, h: seq<int>)
      reads w
    {
      && w.Valid() && w.recorded == h
      && limit.Some? && w.maxTasks == limit.value.maxTasks && w.window == limit.value.Window()
    }

    constructor (policy: A2APolicy)
      requires policy.Valid()
      ensures Valid() && Abs() == Init(policy)
    {
      this.policy := policy;
      rateWindows := map[];
      grants := map[];
      clock := 0;
    }

    /** Replaces the policy and forgets every window. */
    method SetPolicy(policy: A2APolicy)
      requires Valid() && policy.Valid()
      modifies this
      ensures Valid() && Abs() == After(old(Abs()), Reload(policy))
    {
      this.policy := policy;
      rateWindows := map[];
      grants := map[];
    }

    method RuleApplies(rule: Rule, req: Request) returns (b: bool)
      ensures b == RuleMatches(rule, req)
    {
      b := GlobMatch(rule.requester, req.requester);
      if !b { return; }
      b := GlobMatch(rule.target, req.target);
      if !b { return; }
      if rule.skill.Some? {
        if req.skill.None? { return false; }
        b := GlobMatch(rule.skill.value, req.skill.value);
        if !b { return; }
      }
      if rule.sourceTypes != [] {
        if req.source.None? { return false; }
        if !exists st :: st in rule.sourceTypes && st.MatchesSource(req.source.value) { return false; }
      }
      return true;
    }

    method CheckRateLimit(requester: string, now: int) returns (d: Option<Decision>)
      requires Linked() && clock <= now
      requires Logged(GrantsOf(grants, requester), now)
      requires CountsFit(policy.LimitFor(requester), GrantsOf(grants, requester), now)
      modifies this`clock, rateWindows.Values
      ensures Linked() && Abs() == old(Abs()).(clock := now) && rateWindows == old(rateWindows)
      ensures var limit := policy.LimitFor(requester);
              d == if limit.Some? && Throttled(limit.value, GrantsOf(grants, requester), now)
                   then Some(RateLimited(limit.value.windowSecs)) else None
    {
      clock := now;
      var limit := policy.LimitFor(requester);
      d := None;
      if limit.Some? && requester in rateWindows {
        var ok := rateWindows[requester].IsAllowed(now);
        if !ok {
          d := Some(RateLimited(limit.value.windowSecs));
        }
      }
    }

    method RecordTask(requester: string, now: int)
      requires Linked() && clock <= now && Logged(GrantsOf(grants, requester), now)
      modifies this, rateWindows.Values
      ensures Linked() && Abs() == old(Abs()).(grants := Granted(old(grants), requester, now), clock := now)
    {
      var limit := policy.LimitFor(requester);
      if limit.Some? {
        RecordInWindow(requester, limit.value, now);
      } else {
        CoveredGrant(policy, grants, rateWindows.Keys, requester, now);
      }
      grants := Granted(grants, requester, now);
      clock := now;
    }

    /** Gets or creates the window of a requester and records in it. */
    method RecordInWindow(requester: string, limit: RateLimit, now: int)
      requires Linked() && clock <= now && Logged(GrantsOf(grants, requester), now)
      requires policy.LimitFor(requester) == Some(limit)
      modifies this`rateWindows, rateWindows.Values
      ensures Covered(policy, Granted(grants, requester, now), rateWindows.Keys)
      ensures AllFit(rateWindows, policy, Granted(grants, requester, now), now)
    {
      CoveredGrant(policy, grants, rateWindows.Keys, requester, now);
      if requester in rateWindows {
        assert rateWindows.Keys + {requester} == rateWindows.Keys;
        RecordInOld(requester, limit, now);
      } else {
        RecordInNew(requester, limit, now);
      }
    }

    method RecordInOld(requester: string, limit: RateLimit, now: int)
      requires Linked() && clock <= now && Logged(GrantsOf(grants, requester), now)
      requires policy.LimitFor(requester) == Some(limit) && requester in rateWindows
      modifies rateWindows.Values
      ensures AllFit(rateWindows, policy, Granted(grants, requester, now), now)
    {
      var w := rateWindows[requester];
      assert Fits(w, Some(limit), GrantsOf(grants, requester));
      w.Record(now);
      assert Fits(w, Some(limit), GrantsOf(grants, requester) + [now]);
    }

    method RecordInNew(requester: string, limit: RateLimit, now: int)
      requires Linked() && clock <= now && Logged(GrantsOf(grants, requester), now)
      requires policy.LimitFor(requester) == Some(limit) && requester !in rateWindows
      modifies this`rateWindows
      ensures rateWindows.Keys == old(rateWindows).Keys + {requester}
      ensures AllFit(rateWindows, policy, Granted(grants, requester, now), now)
    {
      var w := new RateWindow(limit.maxTasks, limit.Window(), now, requester);
      w.Record(now);
      rateWindows := rateWindows[requester := w];
    }

    /** The rules in order, then the default. */
    method ApplyRules(req: Request) returns (d: Decision)
      ensures d == Verdict(policy, req)
    {
      var i := 0;
      while i < |policy.rules|
        invariant 0 <= i <= |policy.rules|
        invariant forall j :: 0 <= j < i ==> !RuleMatches(policy.rules[j], req)
      {
        var rule := policy.rules[i];
        var applies := RuleApplies(rule, req);
        if applies {
          FirstMatchUnique(policy.rules, req, i);
          return match rule.effect
            case AllowEffect => Allow
            case DenyEffect => Deny(if rule.description == "" then ByUnnamedRule else ByRule(rule.description));
        }
        i := i + 1;
      }
      return match policy.defaultEffect
        case AllowEffect => Allow
        case DenyEffect => Deny(ByDefault);
    }

    /** Evaluates one request: limit first, then the rules in order, then the default. */
    method Evaluate(req: Request, checkedAt: int, recordedAt: int) returns (d: Decision)
      requires Valid() && clock <= checkedAt <= recordedAt
      modifies this, rateWindows.Values
      ensures Valid()
      ensures d == Decide(old(policy), old(grants), req, checkedAt)
      ensures Abs() == After(old(Abs()), Ask(req, checkedAt, recordedAt))
    {
      AskKeepsGood(Abs(), Ask(req, checkedAt, recordedAt));
      CountWithinU32(Abs(), req.requester, checkedAt);
      CountWithinU32(Abs(), req.requester, recordedAt);
      var limited := CheckRateLimit(req.requester, checkedAt);
      if limited.Some? {
        return limited.value;
      }
      d := ApplyRules(req);
      if d.Allow? {
        RecordTask(req.requester, recordedAt);
      }
    }
  }

  /** The number of grants in the window that ends now fits in 32 bits. */
  ghost predicate CountsFit(limit: Option<RateLimit>, h: seq<int>, now: int) {
    limit.Some? ==> CountIn(h, now, limit.value.Window()) < U32
  }

  lemma SmallMod(n: nat)
    requires n < U32
    ensures n % U32 == n
  {}

  /** The 32-bit truncation of the queue length never bites. */
  lemma CountWithinU32(s: State, r: string, now: int)
    requires Good(s)
    ensures now >= s.clock ==> Logged(GrantsOf(s.grants, r), now)
    ensures CountsFit(s.policy.LimitFor(r), GrantsOf(s.grants, r), now)
  {
    GoodLogs(s, r);
    var limit := s.policy.LimitFor(r);
    if limit.Some? {
      WindowBound(GrantsOf(s.grants, r), Quota(limit.value), limit.value.Window(), now);
    }
  }
}
