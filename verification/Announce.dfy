/** The announcement queue of crates/clawdesk-acp/src/announce.rs: a heap ordered by ready time, then by
  * sequence number, with capped exponential backoff between delivery attempts.
  *
  * The heap is a map from sequence numbers, which are never reused. Every announcement carries the
  * sequence number of its first entry, `item`, which stands for its identity as a value that is moved
  * from owner to owner. Time is in milliseconds and passed in; whether the queue lock was obtained
  * within the spin limit is an argument.
  */
module Announce {
  import opened Bits
  import opened Modular
  import opened Wrappers

  datatype TaskId = TaskId(name: string)

  datatype Announcement = Announcement(item: nat, task: TaskId, source: string, target: string, payload: string,
                                       attempts: nat, maxAttempts: nat)

  datatype Entry = Entry(ann: Announcement, readyAt: int)

  type Queue = map<nat, Entry>

  // ---------------------------------------------------------------------------------------------
  // Backoff
  // ---------------------------------------------------------------------------------------------

  function Smaller(m: nat, n: nat): nat { if m <= n then m else n }

  datatype RetryPolicy = RetryPolicy(maxAttempts: nat, baseDelay: nat, maxDelay: nat) {
    function DelayForAttempt(n: nat): nat {
      Smaller(baseDelay * Pow2(Smaller(n, 6)), maxDelay)
    }

    /** How often an announcement can be handed out: a limit of 0 still lets it out once. */
    function MostHandouts(): nat { if maxAttempts == 0 then 1 else maxAttempts }
  }

  /** Delays never exceed the cap and never fall; from the seventh on they stay. */
  lemma DelaysNeverFall(policy: RetryPolicy, m: nat, n: nat)
    requires m <= n
    ensures policy.DelayForAttempt(m) <= policy.DelayForAttempt(n) <= policy.maxDelay
    ensures m >= 6 ==> policy.DelayForAttempt(m) == policy.DelayForAttempt(n)
  {
    Pow2Monotone(Smaller(m, 6), Smaller(n, 6));
    MulMonotone(policy.baseDelay, Pow2(Smaller(m, 6)), policy.baseDelay, Pow2(Smaller(n, 6)));
  }

  /** The first delay is the base; each of the next six doubles it, up to the cap. */
  lemma DelaysDouble(policy: RetryPolicy, n: nat)
    ensures policy.DelayForAttempt(0) == Smaller(policy.baseDelay, policy.maxDelay)
    ensures n < 6 ==> policy.DelayForAttempt(n + 1) == Smaller(2 * policy.DelayForAttempt(n), policy.maxDelay)
  {
    if n < 6 {
      DoubleProduct(policy.baseDelay, Pow2(n));
    }
  }

  // ---------------------------------------------------------------------------------------------
  // The order of the queue
  // ---------------------------------------------------------------------------------------------

  predicate Before(queue: Queue, j: nat, k: nat)
    requires j in queue && k in queue
  {
    queue[j].readyAt < queue[k].readyAt || (queue[j].readyAt == queue[k].readyAt && j < k)
  }

  ghost predicate IsLeast(queue: Queue, k: nat) {
    k in queue && forall j :: j in queue && j != k ==> Before(queue, k, j)
  }

  ghost predicate KeysBelow(queue: Queue, next: nat) {
    forall k :: k in queue ==> k < next
  }

  // ---------------------------------------------------------------------------------------------
  // Runs
  // ---------------------------------------------------------------------------------------------

  datatype Outcome = Delivered | Failed | Drained

  /** The queue, the announcements that are handed out and the ones that are finished, and the two counters. */
  datatype State = State(queue: Queue, next: nat, born: set<nat>, out: map<nat, Announcement>, done: map<nat, Outcome>,
                         delivered: nat, failed: nat)

  const START: State := State(map[], 0, {}, map[], map[], 0, 0)

  datatype Event =
    | Queue(now: int, ann: Announcement)
    | Take(now: int, key: nat, ann: Announcement)
    | Retry(now: int, ann: Announcement, locked: bool)
    | Record(ann: Announcement)
    | Drain(key: nat)

  predicate Requeues(ann: Announcement, locked: bool) {
    ann.attempts + 1 < ann.maxAttempts && locked
  }

  ghost predicate Allowed(policy: RetryPolicy, s: State, e: Event) {
    match e
    case Queue(_, ann) => ann.item == s.next && ann.attempts == 0 && ann.maxAttempts == policy.maxAttempts
    case Take(now, key, ann) => IsLeast(s.queue, key) && s.queue[key].ann == ann && s.queue[key].readyAt <= now
    case Retry(_, ann, _) => ann.item in s.out && s.out[ann.item] == ann
    case Record(ann) => ann.item in s.out && s.out[ann.item] == ann
    case Drain(key) => key in s.queue
  }

  function Retried(policy: RetryPolicy, ann: Announcement, now: int): Entry {
    Entry(ann.(attempts := ann.attempts + 1), now + policy.DelayForAttempt(ann.attempts))
  }

  function After(policy: RetryPolicy, s: State, e: Event): State {
    match e
    case Queue(now, ann) => s.(queue := s.queue[s.next := Entry(ann, now)], next := s.next + 1, born := s.born + {ann.item})
    case Take(_, key, ann) => s.(queue := s.queue - {key}, out := s.out[ann.item := ann])
    case Retry(now, ann, locked) =>
      if Requeues(ann, locked)
      then s.(queue := s.queue[s.next := Retried(policy, ann, now)], next := s.next + 1, out := s.out - {ann.item})
      else s.(out := s.out - {ann.item}, done := s.done[ann.item := Failed], failed := s.failed + 1)
    case Record(ann) => s.(out := s.out - {ann.item}, done := s.done[ann.item := Delivered], delivered := s.delivered + 1)
    case Drain(key) =>
      if key in s.queue then s.(queue := s.queue - {key}, done := s.done[s.queue[key].ann.item := Drained]) else s
  }

  type Trace = seq<Event>

  function AfterAll(policy: RetryPolicy, trace: Trace): State
    decreases |trace|
  {
    if trace == [] then START else After(policy, AfterAll(policy, trace[..|trace| - 1]), trace[|trace| - 1])
  }

  ghost predicate AllowedAll(policy: RetryPolicy, trace: Trace)
    decreases |trace|
  {
    trace == [] ||
    (AllowedAll(policy, trace[..|trace| - 1]) &&
     Allowed(policy, AfterAll(policy, trace[..|trace| - 1]), trace[|trace| - 1]))
  }

  /** How often the item was handed out. */
  function Handouts(trace: Trace, item: nat): nat
    decreases |trace|
  {
    if trace == [] then 0
    else
      var last := trace[|trace| - 1];
      Handouts(trace[..|trace| - 1], item) + if last.Take? && last.ann.item == item then 1 else 0
  }

  predicate Enqueues(e: Event, item: nat) {
    (e.Queue? && e.ann.item == item) || (e.Retry? && e.ann.item == item && Requeues(e.ann, e.locked))
  }

  /** When the item last entered the queue. */
  function LastQueued(trace: Trace, item: nat): int
    decreases |trace|
  {
    if trace == [] then 0
    else if Enqueues(trace[|trace| - 1], item) then trace[|trace| - 1].now
    else LastQueued(trace[..|trace| - 1], item)
  }

  /** The wait before an attempt: none before the first one. */
  function WaitFor(policy: RetryPolicy, attempts: nat): nat {
    if attempts == 0 then 0 else policy.DelayForAttempt(attempts - 1)
  }

  predicate WithinLimit(policy: RetryPolicy, ann: Announcement) {
    ann.maxAttempts == policy.maxAttempts && (ann.attempts == 0 || ann.attempts < policy.maxAttempts)
  }

  // What every run keeps, over the history so far: how often each item was handed out, and when it was
  // last queued.

  type Counts = nat -> nat
  type Times = nat -> int

  ghost predicate WaitingOk(policy: RetryPolicy, s: State, handouts: Counts, queued: Times, k: nat)
    requires k in s.queue
  {
    var ann := s.queue[k].ann;
    && k < s.next && ann.item in s.born && ann.item !in s.out && ann.item !in s.done
    && WithinLimit(policy, ann) && handouts(ann.item) == ann.attempts
    && s.queue[k].readyAt == queued(ann.item) + WaitFor(policy, ann.attempts)
  }

  ghost predicate OutOk(policy: RetryPolicy, s: State, handouts: Counts, i: nat)
    requires i in s.out
  {
    && s.out[i].item == i && i in s.born && i !in s.done
    && WithinLimit(policy, s.out[i]) && handouts(i) == s.out[i].attempts + 1
  }

  ghost predicate Waits(s: State, i: nat) {
    exists k :: k in s.queue && s.queue[k].ann.item == i
  }

  /** No two entries hold the same item. */
  ghost predicate OneEntryEach(queue: Queue) {
    forall j, k :: j in queue && k in queue && queue[j].ann.item == queue[k].ann.item ==> j == k
  }

  ghost predicate QueueOk(policy: RetryPolicy, s: State, handouts: Counts, queued: Times) {
    (forall k :: k in s.queue ==> WaitingOk(policy, s, handouts, queued, k)) && OneEntryEach(s.queue)
  }

  ghost predicate HandedOk(policy: RetryPolicy, s: State, handouts: Counts) {
    && (forall i :: i in s.out ==> OutOk(policy, s, handouts, i))
    && (forall i :: i in s.done ==> i in s.born && handouts(i) <= policy.MostHandouts())
    && (forall i: nat :: i !in s.born ==> handouts(i) == 0)
  }

  ghost predicate Placed(s: State, i: nat) {
    Waits(s, i) || i in s.out || i in s.done
  }

  ghost predicate BornOk(s: State) {
    forall i :: i in s.born ==> i < s.next && Placed(s, i)
  }

  ghost predicate Inv(policy: RetryPolicy, s: State, handouts: Counts, queued: Times) {
    QueueOk(policy, s, handouts, queued) && HandedOk(policy, s, handouts) && BornOk(s)
  }

  /** What one event does to the history of one item. */
  ghost predicate Advances(h: Counts, q: Times, h': Counts, q': Times, e: Event, i: nat) {
    && h'(i) == h(i) + (if e.Take? && e.ann.item == i then 1 else 0)
    && q'(i) == if Enqueues(e, i) then e.now else q(i)
  }

  /** The item an event moves. */
  ghost function Moved(s: State, e: Event): nat {
    if !e.Drain? then e.ann.item else if e.key in s.queue then s.queue[e.key].ann.item else 0
  }

  ghost predicate Unborn(s: State, h: Counts, i: nat) {
    i !in s.born && i !in s.out && i !in s.done && h(i) == 0
  }

  /** Where the item that an event moves was before. */
  lemma MovedFrom(policy: RetryPolicy, s: State, h: Counts, q: Times, e: Event)
    requires Inv(policy, s, h, q) && Allowed(policy, s, e)
    ensures e.Queue? ==> Unborn(s, h, Moved(s, e))
    ensures e.Take? || e.Drain? ==> e.key in s.queue && WaitingOk(policy, s, h, q, e.key) && s.queue[e.key].ann.item == Moved(s, e)
    ensures e.Retry? || e.Record? ==> e.ann.item in s.out && OutOk(policy, s, h, e.ann.item)
    ensures s.next !in s.queue
  {}

  lemma OthersStay(policy: RetryPolicy, s: State, h: Counts, q: Times, h': Counts, q': Times, e: Event, k: nat)
    requires Allowed(policy, s, e) && k in s.queue && WaitingOk(policy, s, h, q, k)
    requires s.queue[k].ann.item != Moved(s, e) && Advances(h, q, h', q', e, s.queue[k].ann.item)
    ensures k in After(policy, s, e).queue && WaitingOk(policy, After(policy, s, e), h', q', k)
    ensures After(policy, s, e).queue[k] == s.queue[k]
  {}

  lemma MovedWaits(policy: RetryPolicy, s: State, h: Counts, q: Times, h': Counts, q': Times, e: Event)
    requires Allowed(policy, s, e) && Advances(h, q, h', q', e, Moved(s, e))
    requires s.next in After(policy, s, e).queue && s.next !in s.queue
    requires e.Queue? ==> Unborn(s, h, Moved(s, e))
    requires e.Retry? ==> OutOk(policy, s, h, e.ann.item)
    ensures After(policy, s, e).queue[s.next].ann.item == Moved(s, e)
    ensures WaitingOk(policy, After(policy, s, e), h', q', s.next)
  {}

  /** No other entry holds the item that an event moves. */
  lemma MovedIsAlone(policy: RetryPolicy, s: State, h: Counts, q: Times, e: Event, k: nat)
    requires Inv(policy, s, h, q) && Allowed(policy, s, e) && k in s.queue
    ensures s.queue[k].ann.item == Moved(s, e) ==> (e.Take? || e.Drain?) && k == e.key
    ensures k != s.next
  {}

  lemma QueueStep(policy: RetryPolicy, s: State, h: Counts, q: Times, h': Counts, q': Times, e: Event)
    requires Inv(policy, s, h, q) && Allowed(policy, s, e)
    requires forall i: nat :: Advances(h, q, h', q', e, i)
    ensures forall k :: k in After(policy, s, e).queue ==> WaitingOk(policy, After(policy, s, e), h', q', k)
    ensures OneEntryEach(After(policy, s, e).queue)
  {
    var t := After(policy, s, e);
    MovedFrom(policy, s, h, q, e);
    forall k | k in t.queue
      ensures WaitingOk(policy, t, h', q', k)
      ensures k != s.next ==> k in s.queue && t.queue[k] == s.queue[k] && s.queue[k].ann.item != Moved(s, e)
      ensures k == s.next ==> t.queue[k].ann.item == Moved(s, e)
    {
      if k == s.next {
        MovedWaits(policy, s, h, q, h', q', e);
      } else {
        MovedIsAlone(policy, s, h, q, e, k);
        assert WaitingOk(policy, s, h, q, k);
        OthersStay(policy, s, h, q, h', q', e, k);
      }
    }
  }

  lemma OutStep(policy: RetryPolicy, s: State, h: Counts, q: Times, h': Counts, q': Times, e: Event, i: nat)
    requires Inv(policy, s, h, q) && Allowed(policy, s, e) && Advances(h, q, h', q', e, i)
    requires i in After(policy, s, e).out
    ensures OutOk(policy, After(policy, s, e), h', i)
  {
    MovedFrom(policy, s, h, q, e);
    if i in s.out { assert OutOk(policy, s, h, i); }
  }

  lemma HandedStep(policy: RetryPolicy, s: State, h: Counts, q: Times, h': Counts, q': Times, e: Event)
    requires Inv(policy, s, h, q) && Allowed(policy, s, e)
    requires forall i: nat :: Advances(h, q, h', q', e, i)
    ensures HandedOk(policy, After(policy, s, e), h')
  {
    var t := After(policy, s, e);
    MovedFrom(policy, s, h, q, e);
    forall i | i in t.out ensures OutOk(policy, t, h', i) {
      OutStep(policy, s, h, q, h', q', e, i);
    }
    forall i | i in t.done ensures i in t.born && h'(i) <= policy.MostHandouts() {
      assert Advances(h, q, h', q', e, i);
    }
    forall i: nat | i !in t.born ensures h'(i) == 0 {
      assert Advances(h, q, h', q', e, i);
    }
  }

  /** An entry that stays keeps its item waiting. */
  lemma StillWaits(s: State, t: State, i: nat, gone: nat)
    requires forall k :: k in s.queue && k != gone ==> k in t.queue && t.queue[k] == s.queue[k]
    requires gone in s.queue ==> s.queue[gone].ann.item != i
    ensures Waits(s, i) ==> Waits(t, i)
  {}

  lemma BornStep(policy: RetryPolicy, s: State, h: Counts, q: Times, e: Event)
    requires Inv(policy, s, h, q) && Allowed(policy, s, e)
    ensures BornOk(After(policy, s, e))
  {
    var t := After(policy, s, e);
    MovedFrom(policy, s, h, q, e);
    forall i | i in t.born ensures i < t.next && Placed(t, i) {
      if i == Moved(s, e) {
        MovedIsPlaced(policy, s, e);
      } else {
        OthersPlaced(policy, s, e, i);
      }
    }
  }

  lemma OthersPlaced(policy: RetryPolicy, s: State, e: Event, i: nat)
    requires Allowed(policy, s, e) && s.next !in s.queue && i != Moved(s, e) && Placed(s, i)
    ensures Placed(After(policy, s, e), i)
  {
    StillWaits(s, After(policy, s, e), i, if e.Take? || e.Drain? then e.key else s.next);
  }

  lemma MovedIsPlaced(policy: RetryPolicy, s: State, e: Event)
    requires Allowed(policy, s, e) && s.next !in s.queue
    ensures Placed(After(policy, s, e), Moved(s, e))
  {
    var t := After(policy, s, e);
    if s.next in t.queue { assert t.queue[s.next].ann.item == Moved(s, e); }
  }

  ghost function HandoutsIn(trace: Trace): Counts { (i: nat) => Handouts(trace, i) }

  ghost function QueuedIn(trace: Trace): Times { (i: nat) => LastQueued(trace, i) }

  lemma {:induction false} RunsKeepInv(policy: RetryPolicy, trace: Trace)
    requires AllowedAll(policy, trace)
    ensures Inv(policy, AfterAll(policy, trace), HandoutsIn(trace), QueuedIn(trace))
    decreases |trace|
  {
    if trace != [] {
      var front, last := trace[..|trace| - 1], trace[|trace| - 1];
      RunsKeepInv(policy, front);
      KeepsInv(policy, AfterAll(policy, front), HandoutsIn(front), QueuedIn(front), HandoutsIn(trace), QueuedIn(trace), last);
    }
  }

  /** One event keeps the invariant. */
  lemma KeepsInv(policy: RetryPolicy, s: State, h: Counts, q: Times, h': Counts, q': Times, e: Event)
    requires Inv(policy, s, h, q) && Allowed(policy, s, e)
    requires forall i: nat :: Advances(h, q, h', q', e, i)
    ensures Inv(policy, After(policy, s, e), h', q')
  {
    QueueStep(policy, s, h, q, h', q', e);
    HandedStep(policy, s, h, q, h', q', e);
    BornStep(policy, s, h, q, e);
  }

  // ---------------------------------------------------------------------------------------------
  // The guarantees
  // ---------------------------------------------------------------------------------------------

  /** Over every run, an announcement that was queued is exactly one of waiting (once), handed out or
    * finished, and one that was not is none of them. */
  lemma {:induction false} ExactlyOnePlace(policy: RetryPolicy, trace: Trace, item: nat)
    requires AllowedAll(policy, trace)
    ensures var s := AfterAll(policy, trace);
      && (item in s.born <==> Waits(s, item) || item in s.out || item in s.done)
      && !(Waits(s, item) && item in s.out) && !(Waits(s, item) && item in s.done) && !(item in s.out && item in s.done)
      && OneEntryEach(s.queue)
  {
    var s := AfterAll(policy, trace);
    RunsKeepInv(policy, trace);
    if Waits(s, item) {
      var k :| k in s.queue && s.queue[k].ann.item == item;
      assert WaitingOk(policy, s, HandoutsIn(trace), QueuedIn(trace), k);
    }
    if item in s.out { assert OutOk(policy, s, HandoutsIn(trace), item); }
  }

  /** Over every run, nothing is handed out more often than the limit allows. */
  lemma HandedOutAtMost(policy: RetryPolicy, trace: Trace, item: nat)
    requires AllowedAll(policy, trace)
    ensures Handouts(trace, item) <= policy.MostHandouts()
  {
    var s := AfterAll(policy, trace);
    RunsKeepInv(policy, trace);
    if item in s.out { assert OutOk(policy, s, HandoutsIn(trace), item); }
    if Waits(s, item) {
      var k :| k in s.queue && s.queue[k].ann.item == item;
      assert WaitingOk(policy, s, HandoutsIn(trace), QueuedIn(trace), k);
    }
  }

  ghost predicate LimitHolds(policy: RetryPolicy) {
    forall trace, item :: AllowedAll(policy, trace) ==> Handouts(trace, item) <= policy.maxAttempts
  }

  /** The configured limit is kept over every run exactly when it is at least 1. */
  lemma LimitHoldsExactly(policy: RetryPolicy)
    ensures LimitHolds(policy) <==> policy.maxAttempts >= 1
  {
    if policy.maxAttempts >= 1 {
      forall trace, item | AllowedAll(policy, trace) ensures Handouts(trace, item) <= policy.maxAttempts {
        HandedOutAtMost(policy, trace, item);
      }
    } else {
      var ann := Announcement(0, TaskId("t"), "", "", "", 0, 0);
      var first := [] + [Queue(0, ann)];
      AppendEvent(policy, [], Queue(0, ann), 0);
      AppendEvent(policy, first, Take(0, 0, ann), 0);
      assert AfterAll(policy, first).queue == map[0 := Entry(ann, 0)];
      assert Handouts(first + [Take(0, 0, ann)], 0) > 0;
    }
  }

  lemma AppendEvent(policy: RetryPolicy, trace: Trace, e: Event, item: nat)
    ensures AllowedAll(policy, trace + [e]) <==> AllowedAll(policy, trace) && Allowed(policy, AfterAll(policy, trace), e)
    ensures AfterAll(policy, trace + [e]) == After(policy, AfterAll(policy, trace), e)
    ensures Handouts(trace + [e], item) == Handouts(trace, item) + if e.Take? && e.ann.item == item then 1 else 0
  {}

  /** Over every run, an announcement is handed out no earlier than it was queued, and before a further
    * attempt no earlier than that attempt's delay after the retry. */
  lemma NeverEarly(policy: RetryPolicy, trace: Trace, now: int, key: nat, ann: Announcement)
    requires AllowedAll(policy, trace) && Allowed(policy, AfterAll(policy, trace), Take(now, key, ann))
    ensures now >= LastQueued(trace, ann.item) + WaitFor(policy, ann.attempts)
    ensures ann.attempts == Handouts(trace, ann.item)
  {
    RunsKeepInv(policy, trace);
    assert WaitingOk(policy, AfterAll(policy, trace), HandoutsIn(trace), QueuedIn(trace), key);
  }

  /** The attempts are there to be used: some run hands an announcement out that often. */
  lemma {:induction false} HandedOutAsOften(policy: RetryPolicy, n: nat) returns (trace: Trace, ann: Announcement)
    requires 1 <= n <= policy.MostHandouts()
    ensures AllowedAll(policy, trace) && Handouts(trace, 0) == n && ann.item == 0 && ann.attempts == n - 1
    ensures ann.maxAttempts == policy.maxAttempts
    ensures AfterAll(policy, trace).queue == map[] && AfterAll(policy, trace).out == map[0 := ann]
    decreases n
  {
    if n == 1 {
      ann := Announcement(0, TaskId("t"), "", "", "", 0, policy.maxAttempts);
      AppendEvent(policy, [], Queue(0, ann), 0);
      var one := [] + [Queue(0, ann)];
      assert AfterAll(policy, one).queue == map[0 := Entry(ann, 0)];
      AppendEvent(policy, one, Take(0, 0, ann), 0);
      trace := one + [Take(0, 0, ann)];
    } else {
      var before, last := HandedOutAsOften(policy, n - 1);
      var s := AfterAll(policy, before);
      var again := before + [Retry(0, last, true)];
      AppendEvent(policy, before, Retry(0, last, true), 0);
      ann := last.(attempts := n - 1);
      var due := policy.DelayForAttempt(n - 2);
      assert AfterAll(policy, again).queue == map[s.next := Entry(ann, due)];
      assert AfterAll(policy, again).out == map[];
      AppendEvent(policy, again, Take(due, s.next, ann), 0);
      trace := again + [Take(due, s.next, ann)];
    }
  }

  /** Over every run, what waits becomes ready exactly its attempt's delay after it was last queued. */
  lemma ReadyExactly(policy: RetryPolicy, trace: Trace, key: nat)
    requires AllowedAll(policy, trace) && key in AfterAll(policy, trace).queue
    ensures var e := AfterAll(policy, trace).queue[key];
      e.readyAt == LastQueued(trace, e.ann.item) + (if e.ann.attempts == 0 then 0 else policy.DelayForAttempt(e.ann.attempts - 1))
  {
    RunsKeepInv(policy, trace);
    ReadyAsQueued(policy, AfterAll(policy, trace), HandoutsIn(trace), QueuedIn(trace), key);
  }

  lemma ReadyAsQueued(policy: RetryPolicy, s: State, h: Counts, q: Times, key: nat)
    requires QueueOk(policy, s, h, q) && key in s.queue
    ensures var e := s.queue[key];
      e.readyAt == q(e.ann.item) + if e.ann.attempts == 0 then 0 else policy.DelayForAttempt(e.ann.attempts - 1)
  {
    assert WaitingOk(policy, s, h, q, key);
  }

  /** The announcement as it was queued first. */
  function Original(trace: Trace, item: nat): Option<Announcement>
    decreases |trace|
  {
    if trace == [] then None
    else if trace[|trace| - 1].Queue? && trace[|trace| - 1].ann.item == item then Some(trace[|trace| - 1].ann)
    else Original(trace[..|trace| - 1], item)
  }

  ghost predicate Genuine(trace: Trace, ann: Announcement) {
    Original(trace, ann.item) == Some(ann.(attempts := 0))
  }

  /** Over every run, what waits and what is handed out is what was queued, to its target and with its payload. */
  lemma {:induction false} ContentKept(policy: RetryPolicy, trace: Trace)
    requires AllowedAll(policy, trace)
    ensures forall k :: k in AfterAll(policy, trace).queue ==> Genuine(trace, AfterAll(policy, trace).queue[k].ann)
    ensures forall i :: i in AfterAll(policy, trace).out ==> Genuine(trace, AfterAll(policy, trace).out[i])
    decreases |trace|
  {
    if trace != [] {
      var front := trace[..|trace| - 1];
      ContentKept(policy, front);
      RunsKeepInv(policy, front);
      var s, last := AfterAll(policy, front), trace[|trace| - 1];
      forall k | k in s.queue ensures s.queue[k].ann.item != s.next {
        assert WaitingOk(policy, s, HandoutsIn(front), QueuedIn(front), k);
      }
      forall i | i in s.out ensures s.out[i].item != s.next {
        assert OutOk(policy, s, HandoutsIn(front), i);
      }
      forall k | k in After(policy, s, last).queue ensures Genuine(trace, After(policy, s, last).queue[k].ann) {
        QueuedContent(policy, trace, s, k);
      }
      forall i | i in After(policy, s, last).out ensures Genuine(trace, After(policy, s, last).out[i]) {
        OutContent(policy, trace, s, i);
      }
    }
  }

  /** What an event leaves in the queue was there, or is what it queues. */
  lemma QueuedContent(policy: RetryPolicy, trace: Trace, s: State, k: nat)
    requires trace != [] && Allowed(policy, s, trace[|trace| - 1]) && k in After(policy, s, trace[|trace| - 1]).queue
    requires k in s.queue ==> Genuine(trace[..|trace| - 1], s.queue[k].ann) && s.queue[k].ann.item != s.next
    requires forall i :: i in s.out ==> Genuine(trace[..|trace| - 1], s.out[i]) && s.out[i].item != s.next
    ensures Genuine(trace, After(policy, s, trace[|trace| - 1]).queue[k].ann)
  {}

  lemma OutContent(policy: RetryPolicy, trace: Trace, s: State, i: nat)
    requires trace != [] && Allowed(policy, s, trace[|trace| - 1]) && i in After(policy, s, trace[|trace| - 1]).out
    requires forall k :: k in s.queue ==> Genuine(trace[..|trace| - 1], s.queue[k].ann) && s.queue[k].ann.item != s.next
    requires i in s.out ==> Genuine(trace[..|trace| - 1], s.out[i]) && s.out[i].item != s.next
    ensures Genuine(trace, After(policy, s, trace[|trace| - 1]).out[i])
  {}

  /** The items that ended this way. */
  function Ended(done: map<nat, Outcome>, o: Outcome): set<nat> {
    set i | i in done && done[i] == o
  }

  lemma OneMoreEnded(done: map<nat, Outcome>, item: nat, o: Outcome, other: Outcome)
    requires item !in done
    ensures |Ended(done[item := o], other)| == |Ended(done, other)| + if o == other then 1 else 0
  {
    var more := done[item := o];
    assert Ended(more, other) == Ended(done, other) + if o == other then {item} else {};
  }

  /** Over every run the two counters are the numbers of announcements that were delivered and that failed. */
  lemma {:induction false} CountersCountOutcomes(policy: RetryPolicy, trace: Trace)
    requires AllowedAll(policy, trace)
    ensures var s := AfterAll(policy, trace);
      s.delivered == |Ended(s.done, Delivered)| && s.failed == |Ended(s.done, Failed)|
    decreases |trace|
  {
    if trace != [] {
      var front, last := trace[..|trace| - 1], trace[|trace| - 1];
      var s := AfterAll(policy, front);
      CountersCountOutcomes(policy, front);
      RunsKeepInv(policy, front);
      EndsFresh(policy, s, HandoutsIn(front), QueuedIn(front), last);
      CountersStep(policy, s, last);
    }
  }

  /** What an event ends had not ended before. */
  lemma EndsFresh(policy: RetryPolicy, s: State, h: Counts, q: Times, e: Event)
    requires Inv(policy, s, h, q) && Allowed(policy, s, e)
    ensures e.Retry? || e.Record? || e.Drain? ==> Moved(s, e) !in s.done
  {
    MovedFrom(policy, s, h, q, e);
  }

  lemma CountersStep(policy: RetryPolicy, s: State, e: Event)
    requires Allowed(policy, s, e) && (e.Retry? || e.Record? || e.Drain? ==> Moved(s, e) !in s.done)
    requires s.delivered == |Ended(s.done, Delivered)| && s.failed == |Ended(s.done, Failed)|
    ensures var t := After(policy, s, e); t.delivered == |Ended(t.done, Delivered)| && t.failed == |Ended(t.done, Failed)|
  {
    if e.Retry? || e.Record? || e.Drain? {
      var o := if e.Retry? then Failed else if e.Record? then Delivered else Drained;
      OneMoreEnded(s.done, Moved(s, e), o, Delivered);
      OneMoreEnded(s.done, Moved(s, e), o, Failed);
    }
  }

  // Capacity -------------------------------------------------------------------------------------------------

  /** Announcing looks at the capacity first; retrying does not. */
  ghost predicate Gated(policy: RetryPolicy, trace: Trace, capacity: nat)
    decreases |trace|
  {
    trace == [] ||
    (var front := trace[..|trace| - 1];
     Gated(policy, front, capacity) && (trace[|trace| - 1].Queue? ==> |AfterAll(policy, front).queue| < capacity))
  }

  /** The most that were ever handed out at a time. */
  function Peak(policy: RetryPolicy, trace: Trace): nat
    decreases |trace|
  {
    var now := |AfterAll(policy, trace).out|;
    if trace == [] then now else Larger(Peak(policy, trace[..|trace| - 1]), now)
  }

  function Larger(m: nat, n: nat): nat { if m >= n then m else n }

  lemma Sizes<T>(m: map<nat, T>, k: nat, v: T)
    ensures |m[k := v]| == if k in m then |m| else |m| + 1
    ensures |m - {k}| == if k in m then |m| - 1 else |m|
  {
    assert m[k := v].Keys == m.Keys + {k};
    assert (m - {k}).Keys == m.Keys - {k};
  }

  /** How an event changes the number of announcements queued and handed out. */
  lemma SizeStep(policy: RetryPolicy, s: State, h: Counts, q: Times, e: Event)
    requires Inv(policy, s, h, q) && Allowed(policy, s, e)
    ensures var t := After(policy, s, e);
      && (e.Queue? ==> |t.queue| == |s.queue| + 1 && |t.out| == |s.out|)
      && (e.Take? ==> |t.queue| + 1 == |s.queue| && |t.out| == |s.out| + 1)
      && (e.Retry? ==> |t.queue| == |s.queue| + (if Requeues(e.ann, e.locked) then 1 else 0) && |t.out| + 1 == |s.out|)
      && (e.Record? ==> |t.queue| == |s.queue| && |t.out| + 1 == |s.out|)
      && (e.Drain? ==> |t.queue| + 1 == |s.queue| && |t.out| == |s.out|)
  {
    MovedFrom(policy, s, h, q, e);
    match e
    case Queue(now, ann) => Sizes(s.queue, s.next, Entry(ann, now));
    case Take(_, key, ann) => Sizes(s.queue, key, s.queue[key]); Sizes(s.out, ann.item, ann);
    case Retry(now, ann, _) => Sizes(s.queue, s.next, Retried(policy, ann, now)); Sizes(s.out, ann.item, ann);
    case Record(ann) => Sizes(s.out, ann.item, ann);
    case Drain(key) => Sizes(s.queue, key, s.queue[key]);
  }

  /** Over every run the queue outgrows the capacity by no more than the most announcements that were handed
    * out at a time. */
  lemma {:induction false} QueueBound(policy: RetryPolicy, trace: Trace, capacity: nat)
    requires AllowedAll(policy, trace) && Gated(policy, trace, capacity)
    ensures var s := AfterAll(policy, trace); |s.queue| + |s.out| <= capacity + Peak(policy, trace)
    decreases |trace|
  {
    if trace != [] {
      var front, last := trace[..|trace| - 1], trace[|trace| - 1];
      QueueBound(policy, front, capacity);
      RunsKeepInv(policy, front);
      SizeStep(policy, AfterAll(policy, front), HandoutsIn(front), QueuedIn(front), last);
    }
  }

  ghost predicate CapacityHolds(policy: RetryPolicy, capacity: nat) {
    forall trace :: AllowedAll(policy, trace) && Gated(policy, trace, capacity) ==> |AfterAll(policy, trace).queue| <= capacity
  }

  /** The capacity is kept over every run exactly when nothing is ever requeued, or nothing can be queued. */
  lemma CapacityHoldsExactly(policy: RetryPolicy, capacity: nat)
    ensures CapacityHolds(policy, capacity) <==> policy.maxAttempts <= 1 || capacity == 0
  {
    if policy.maxAttempts <= 1 || capacity == 0 {
      forall trace | AllowedAll(policy, trace) && Gated(policy, trace, capacity)
        ensures |AfterAll(policy, trace).queue| <= capacity
      {
        KeepsCapacity(policy, trace, capacity);
      }
    } else {
      var trace := Overfill(policy, capacity);
    }
  }

  lemma {:induction false} KeepsCapacity(policy: RetryPolicy, trace: Trace, capacity: nat)
    requires AllowedAll(policy, trace) && Gated(policy, trace, capacity)
    requires policy.maxAttempts <= 1 || capacity == 0
    ensures |AfterAll(policy, trace).queue| <= capacity
    ensures capacity == 0 ==> AfterAll(policy, trace).out == map[]
    decreases |trace|
  {
    if trace != [] {
      var front, last := trace[..|trace| - 1], trace[|trace| - 1];
      KeepsCapacity(policy, front, capacity);
      RunsKeepInv(policy, front);
      var s := AfterAll(policy, front);
      SizeStep(policy, s, HandoutsIn(front), QueuedIn(front), last);
      if last.Retry? { assert OutOk(policy, s, HandoutsIn(front), last.ann.item); }
    }
  }

  /** A run that goes over the capacity: one announcement is handed out, the queue is filled up, and the one
    * is retried. */
  lemma Overfill(policy: RetryPolicy, capacity: nat) returns (trace: Trace)
    requires policy.maxAttempts >= 2 && capacity >= 1
    ensures AllowedAll(policy, trace) && Gated(policy, trace, capacity)
    ensures |AfterAll(policy, trace).queue| == capacity + 1
  {
    var ann := Announcement(0, TaskId("t"), "", "", "", 0, policy.maxAttempts);
    AppendEvent(policy, [], Queue(0, ann), 0);
    AppendGate(policy, [], Queue(0, ann), capacity);
    var one := [] + [Queue(0, ann)];
    assert AfterAll(policy, one).queue == map[0 := Entry(ann, 0)];
    AppendEvent(policy, one, Take(0, 0, ann), 0);
    AppendGate(policy, one, Take(0, 0, ann), capacity);
    var full := FillUp(policy, one + [Take(0, 0, ann)], capacity, capacity);
    AppendEvent(policy, full, Retry(0, ann, true), 0);
    AppendGate(policy, full, Retry(0, ann, true), capacity);
    RunsKeepInv(policy, full);
    SizeStep(policy, AfterAll(policy, full), HandoutsIn(full), QueuedIn(full), Retry(0, ann, true));
    trace := full + [Retry(0, ann, true)];
  }

  lemma AppendGate(policy: RetryPolicy, trace: Trace, e: Event, capacity: nat)
    ensures Gated(policy, trace + [e], capacity) <==>
      Gated(policy, trace, capacity) && (e.Queue? ==> |AfterAll(policy, trace).queue| < capacity)
  {
    assert (trace + [e])[..|trace|] == trace;
  }

  /** k more announcements, with room for them. */
  lemma {:induction false} FillUp(policy: RetryPolicy, trace: Trace, capacity: nat, k: nat) returns (longer: Trace)
    requires AllowedAll(policy, trace) && Gated(policy, trace, capacity) && |AfterAll(policy, trace).queue| + k <= capacity
    ensures AllowedAll(policy, longer) && Gated(policy, longer, capacity)
    ensures |AfterAll(policy, longer).queue| == |AfterAll(policy, trace).queue| + k
    ensures AfterAll(policy, longer).out == AfterAll(policy, trace).out
    decreases k
  {
    if k == 0 {
      longer := trace;
    } else {
      var before := FillUp(policy, trace, capacity, k - 1);
      var s := AfterAll(policy, before);
      var e := Queue(0, Announcement(s.next, TaskId("t"), "", "", "", 0, policy.maxAttempts));
      AppendEvent(policy, before, e, 0);
      AppendGate(policy, before, e, capacity);
      RunsKeepInv(policy, before);
      SizeStep(policy, s, HandoutsIn(before), QueuedIn(before), e);
      longer := before + [e];
    }
  }

  // First come, first served ---------------------------------------------------------------------------

  /** When an event took place, for those that look at the clock. */
  function TimeOf(e: Event, otherwise: int): int {
    if e.Queue? || e.Take? || e.Retry? then e.now else otherwise
  }

  predicate Timely(trace: Trace, now: int)
    decreases |trace|
  {
    trace == [] ||
    (var last := trace[|trace| - 1];
     TimeOf(last, now) <= now && Timely(trace[..|trace| - 1], TimeOf(last, now)))
  }

  /** Among announcements that were never retried, the ready times follow the sequence numbers. */
  ghost predicate FreshInOrder(queue: Queue, now: int) {
    && (forall k :: k in queue && queue[k].ann.attempts == 0 ==> queue[k].readyAt <= now)
    && (forall j, k :: j in queue && k in queue && j < k && queue[j].ann.attempts == 0 == queue[k].ann.attempts ==>
          queue[j].readyAt <= queue[k].readyAt)
  }

  lemma {:induction false} RunsKeepOrder(policy: RetryPolicy, trace: Trace, now: int)
    requires AllowedAll(policy, trace) && Timely(trace, now)
    ensures FreshInOrder(AfterAll(policy, trace).queue, now)
    decreases |trace|
  {
    if trace != [] {
      var front, last := trace[..|trace| - 1], trace[|trace| - 1];
      RunsKeepOrder(policy, front, TimeOf(last, now));
      RunsKeepInv(policy, front);
      var s := AfterAll(policy, front);
      forall k | k in s.queue ensures k < s.next {
        assert WaitingOk(policy, s, HandoutsIn(front), QueuedIn(front), k);
      }
      OrderStep(policy, s, last, TimeOf(last, now), now);
    }
  }

  lemma OrderStep(policy: RetryPolicy, s: State, e: Event, before: int, now: int)
    requires Allowed(policy, s, e) && FreshInOrder(s.queue, before) && KeysBelow(s.queue, s.next)
    requires before == TimeOf(e, now) && before <= now
    ensures FreshInOrder(After(policy, s, e).queue, now)
  {}

  /** With a clock that does not run backwards, first attempts are handed out in the order announced. */
  lemma FirstAttemptsInOrder(policy: RetryPolicy, trace: Trace, now: int, key: nat, ann: Announcement, other: nat)
    requires AllowedAll(policy, trace) && Timely(trace, now) && ann.attempts == 0
    requires Allowed(policy, AfterAll(policy, trace), Take(now, key, ann))
    requires other in AfterAll(policy, trace).queue && AfterAll(policy, trace).queue[other].ann.attempts == 0
    ensures key <= other
  {
    RunsKeepOrder(policy, trace, now);
    assert other != key ==> Before(AfterAll(policy, trace).queue, key, other);
  }

  // ---------------------------------------------------------------------------------------------
  // The router as the source runs it
  // ---------------------------------------------------------------------------------------------

  datatype Subscription = Subscription(target: string, subscribedAt: int)

  function Live(subs: seq<Subscription>, now: int, ttl: int): seq<Subscription>
    decreases |subs|
  {
    if subs == [] then []
    else
      var front, last := Live(subs[..|subs| - 1], now, ttl), subs[|subs| - 1];
      if now - last.subscribedAt < ttl then front + [last] else front
  }

  /** A subscription is live until it is a whole TTL old; the live ones keep their order. */
  lemma {:induction false} LiveExactly(subs: seq<Subscription>, more: seq<Subscription>, sub: Subscription, now: int, ttl: int)
    ensures Live([sub], now, ttl) == if now < sub.subscribedAt + ttl then [sub] else []
    ensures Live(subs + more, now, ttl) == Live(subs, now, ttl) + Live(more, now, ttl)
    decreases |more|
  {
    assert [sub][..0] == [];
    if more == [] {
      assert subs + more == subs;
    } else {
      LiveExactly(subs, more[..|more| - 1], sub, now, ttl);
      assert (subs + more)[..|subs + more| - 1] == subs + more[..|more| - 1];
    }
  }

  /** The queue after one entry for each of the subscriptions, numbered from next. */
  function Pushed(queue: Queue, next: nat, subs: seq<Subscription>, template: Announcement, now: int): Queue
    decreases |subs|
  {
    if subs == [] then queue
    else
      var n := |subs| - 1;
      Pushed(queue, next, subs[..n], template, now)
        [next + n := Entry(template.(item := next + n, target := subs[n].target), now)]
  }

  /** The i-th subscription gets its own entry, ready at once, to its own target; nothing else changes. */
  lemma {:induction false} PushedExactly(queue: Queue, next: nat, subs: seq<Subscription>, template: Announcement, now: int, k: nat)
    requires KeysBelow(queue, next)
    ensures var after := Pushed(queue, next, subs, template, now);
      && (k in after <==> k in queue || next <= k < next + |subs|) && (k in queue ==> after[k] == queue[k])
      && (next <= k < next + |subs| ==> after[k] == Entry(Announcement(k, template.task, template.source,
            subs[k - next].target, template.payload, template.attempts, template.maxAttempts), now))
    decreases |subs|
  {
    if subs != [] { PushedExactly(queue, next, subs[..|subs| - 1], template, now, k); }
  }

  /** How many entries still fit. */
  function Fits(wanted: nat, held: nat, capacity: nat): nat {
    if held >= capacity then 0 else Smaller(wanted, capacity - held)
  }

  /** All that are wanted while they fit; otherwise the queue is filled up to the capacity; nothing goes into a
    * queue that is already over it. */
  lemma FitsExactly(wanted: nat, held: nat, capacity: nat)
    ensures held + wanted <= capacity ==> Fits(wanted, held, capacity) == wanted
    ensures held <= capacity < held + wanted ==> held + Fits(wanted, held, capacity) == capacity
    ensures capacity < held ==> Fits(wanted, held, capacity) == 0
  {}

  /** The run of single entries that one announcement stands for. */
  function QueueEvents(next: nat, subs: seq<Subscription>, template: Announcement, now: int): Trace
    decreases |subs|
  {
    if subs == [] then []
    else
      var n := |subs| - 1;
      QueueEvents(next, subs[..n], template, now) + [Queue(now, template.(item := next + n, target := subs[n].target))]
  }

  ghost predicate RunsTo(policy: RetryPolicy, trace: Trace, next: nat, queue: Queue) {
    AllowedAll(policy, trace) && AfterAll(policy, trace).next == next && AfterAll(policy, trace).queue == queue
  }

  /** What one announcement pushes is such a run. */
  lemma {:induction false} PushedIsRun(policy: RetryPolicy, trace: Trace, next: nat, queue: Queue,
                                       subs: seq<Subscription>, template: Announcement, now: int)
    requires RunsTo(policy, trace, next, queue) && template.attempts == 0 && template.maxAttempts == policy.maxAttempts
    ensures RunsTo(policy, trace + QueueEvents(next, subs, template, now), next + |subs|,
                   Pushed(queue, next, subs, template, now))
    decreases |subs|
  {
    if subs == [] {
      assert trace + [] == trace;
    } else {
      var n := |subs| - 1;
      PushedIsRun(policy, trace, next, queue, subs[..n], template, now);
      OneMoreEvent(trace, next, subs, template, now);
      AppendQueue(policy, trace + QueueEvents(next, subs[..n], template, now), next + n,
                  Pushed(queue, next, subs[..n], template, now), now, template.(item := next + n, target := subs[n].target),
                  trace + QueueEvents(next, subs, template, now), Pushed(queue, next, subs, template, now));
    }
  }

  lemma OneMoreEvent(trace: Trace, next: nat, subs: seq<Subscription>, template: Announcement, now: int)
    requires subs != []
    ensures var n := |subs| - 1;
      trace + QueueEvents(next, subs, template, now) ==
      (trace + QueueEvents(next, subs[..n], template, now)) + [Queue(now, template.(item := next + n, target := subs[n].target))]
  {}

  lemma AppendQueue(policy: RetryPolicy, trace: Trace, next: nat, queue: Queue, now: int, ann: Announcement,
                    trace': Trace, queue': Queue)
    requires RunsTo(policy, trace, next, queue)
    requires ann.item == next && ann.attempts == 0 && ann.maxAttempts == policy.maxAttempts
    requires trace' == trace + [Queue(now, ann)] && queue' == queue[next := Entry(ann, now)]
    ensures RunsTo(policy, trace', next + 1, queue')
  {}

  /** The queue without these entries. */
  function Removed(queue: Queue, keys: seq<nat>): Queue
    decreases |keys|
  {
    if keys == [] then queue else Removed(queue, keys[..|keys| - 1]) - {keys[|keys| - 1]}
  }

  /** Each entry was the least of those still there when it was taken. */
  ghost predicate LeastEach(queue: Queue, keys: seq<nat>, anns: seq<Announcement>)
    decreases |keys|
  {
    |anns| == |keys| &&
    (keys == [] ||
     (var n := |keys| - 1;
      var left := Removed(queue, keys[..n]);
      LeastEach(queue, keys[..n], anns[..n]) && IsLeast(left, keys[n]) && left[keys[n]].ann == anns[n]))
  }

  lemma TakeLeast(queue: Queue, keys: seq<nat>, anns: seq<Announcement>, k: nat)
    requires LeastEach(queue, keys, anns) && IsLeast(Removed(queue, keys), k)
    ensures Removed(queue, keys + [k]) == Removed(queue, keys) - {k}
    ensures LeastEach(queue, keys + [k], anns + [Removed(queue, keys)[k].ann])
  {}

  lemma {:induction false} RemovedKeeps(queue: Queue, keys: seq<nat>)
    ensures forall k: nat :: k in Removed(queue, keys) <==> k in queue && k !in keys
    ensures forall k :: k in Removed(queue, keys) ==> Removed(queue, keys)[k] == queue[k]
    decreases |keys|
  {
    if keys != [] {
      RemovedKeeps(queue, keys[..|keys| - 1]);
      assert keys == keys[..|keys| - 1] + [keys[|keys| - 1]];
    }
  }

  lemma LastInOrder(queue: Queue, keys: seq<nat>, anns: seq<Announcement>)
    requires keys != [] && LeastEach(queue, keys, anns)
    ensures var n := |keys| - 1;
      && keys[n] in queue && anns[n] == queue[keys[n]].ann
      && forall k :: k in Removed(queue, keys) ==> k in queue && Before(queue, keys[n], k)
  {
    var n := |keys| - 1;
    RemovedKeeps(queue, keys[..n]);
    RemovedKeeps(queue, keys);
    var left := Removed(queue, keys[..n]);
    forall k | k in Removed(queue, keys) ensures k in queue && Before(queue, keys[n], k) {
      assert k in left && k != keys[n] && Before(left, keys[n], k);
    }
  }

  lemma {:induction false} TakenBeforeLeft(queue: Queue, keys: seq<nat>, anns: seq<Announcement>, i: nat, k: nat)
    requires LeastEach(queue, keys, anns) && i < |keys| && k in Removed(queue, keys)
    ensures keys[i] in queue && k in queue && Before(queue, keys[i], k)
    decreases |keys|
  {
    var n := |keys| - 1;
    LastInOrder(queue, keys, anns);
    if i < n {
      TakenBeforeLeft(queue, keys[..n], anns[..n], i, k);
    }
  }

  /** Draining returns the announcements in the order of the queue. */
  lemma {:induction false} DrainedInOrder(queue: Queue, keys: seq<nat>, anns: seq<Announcement>, i: nat, j: nat)
    requires LeastEach(queue, keys, anns) && i < j < |keys|
    ensures keys[i] in queue && keys[j] in queue && Before(queue, keys[i], keys[j]) && anns[j] == queue[keys[j]].ann
    decreases |keys|
  {
    var n := |keys| - 1;
    if j < n {
      DrainedInOrder(queue, keys[..n], anns[..n], i, j);
    } else {
      LastInOrder(queue, keys, anns);
      TakenBeforeLeft(queue, keys[..n], anns[..n], i, keys[n]);
    }
  }

  class AnnounceRouter {
    const policy: RetryPolicy
    const subscriptionTtl: int
    const maxCapacity: nat
    var queue: Queue
    var nextSequence: nat
    var delivered: nat
    var failed: nat
    var subscriptions: map<TaskId, seq<Subscription>>

    ghost predicate Valid()
      reads this
    {
      KeysBelow(queue, nextSequence)
    }

    constructor (policy: RetryPolicy, subscriptionTtl: int)
      ensures Valid() && queue == map[] && nextSequence == delivered == failed == 0 && subscriptions == map[]
      ensures this.policy == policy && this.subscriptionTtl == subscriptionTtl && maxCapacity == 4096
    {
      this.policy, this.subscriptionTtl, maxCapacity := policy, subscriptionTtl, 4096;
      queue, nextSequence, delivered, failed, subscriptions := map[], 0, 0, 0, map[];
    }

    method Subscribe(task: TaskId, target: string, now: int)
      modifies this`subscriptions
      ensures subscriptions == old(subscriptions)[task :=
        (if task in old(subscriptions) then old(subscriptions)[task] else []) + [Subscription(target, now)]]
    {
      var subs := if task in subscriptions then subscriptions[task] else [];
      subscriptions := subscriptions[task := subs + [Subscription(target, now)]];
    }

    /** One entry for each live subscription of the task, until the queue is full; none when the lock was
      * not obtained. Expired subscriptions of the task are dropped either way. */
    method Announce(task: TaskId, source: string, payload: string, now: int, locked: bool) returns (count: nat)
      requires Valid()
      modifies this`queue, this`nextSequence, this`subscriptions
      ensures Valid() && nextSequence == old(nextSequence) + count
      ensures subscriptions == if task in old(subscriptions)
                               then old(subscriptions)[task := Live(old(subscriptions)[task], now, subscriptionTtl)]
                               else old(subscriptions)
      ensures count == if task in old(subscriptions) && locked
                       then Fits(|subscriptions[task]|, |old(queue)|, maxCapacity) else 0
      ensures queue == if task in old(subscriptions)
                       then Pushed(old(queue), old(nextSequence), subscriptions[task][..count],
                                   Announcement(0, task, source, "", payload, 0, policy.maxAttempts), now)
                       else old(queue)
    {
      if task !in subscriptions {
        return 0;
      }
      var subs := Live(subscriptions[task], now, subscriptionTtl);
      subscriptions := subscriptions[task := subs];
      count := 0;
      if locked {
        count := PushAll(subs, Announcement(0, task, source, "", payload, 0, policy.maxAttempts), now);
      }
    }

    method PushAll(subs: seq<Subscription>, template: Announcement, now: int) returns (count: nat)
      requires Valid()
      modifies this`queue, this`nextSequence
      ensures Valid() && nextSequence == old(nextSequence) + count
      ensures count == Fits(|subs|, |old(queue)|, maxCapacity)
      ensures queue == Pushed(old(queue), old(nextSequence), subs[..count], template, now)
    {
      count := 0;
      while count < |subs|
        invariant Valid() && nextSequence == old(nextSequence) + count
        invariant count <= |subs| && |queue| == |old(queue)| + count && (count > 0 ==> |queue| <= maxCapacity)
        invariant queue == Pushed(old(queue), old(nextSequence), subs[..count], template, now)
      {
        if |queue| >= maxCapacity {
          break;
        }
        assert subs[..count + 1][..count] == subs[..count];
        queue := queue[nextSequence := Entry(template.(item := nextSequence, target := subs[count].target), now)];
        nextSequence := nextSequence + 1;
        count := count + 1;
      }
    }

    /** The top of the heap. */
    method FindLeast() returns (least: nat)
      requires queue != map[]
      ensures IsLeast(queue, least)
    {
      least :| least in queue;
      var rest := queue.Keys - {least};
      while rest != {}
        invariant rest <= queue.Keys && least in queue && least !in rest
        invariant forall k :: k in queue && k !in rest && k != least ==> Before(queue, least, k)
        decreases |rest|
      {
        var k :| k in rest;
        rest := rest - {k};
        if Before(queue, k, least) {
          least := k;
        }
      }
    }

    /** Hands out the first entry if its time has come; when nothing is handed out, nothing is ready. */
    method NextDelivery(now: int) returns (ann: Option<Announcement>, ghost key: nat)
      requires Valid()
      modifies this`queue
      ensures Valid()
      ensures ann.None? ==> queue == old(queue) && forall k :: k in queue ==> now < queue[k].readyAt
      ensures ann.Some? ==> IsLeast(old(queue), key) && old(queue)[key] == Entry(ann.value, old(queue)[key].readyAt)
      ensures ann.Some? ==> old(queue)[key].readyAt <= now && queue == old(queue) - {key}
    {
      if queue == map[] {
        return None, 0;
      }
      var least := FindLeast();
      if now >= queue[least].readyAt {
        ann, key := Some(queue[least].ann), least;
        queue := queue - {least};
      } else {
        ann, key := None, 0;
      }
    }

    /** Requeues with backoff; fails for good when the attempts are used up or the lock was not obtained. */
    method RetryLater(ann: Announcement, now: int, locked: bool) returns (requeued: bool)
      requires Valid()
      modifies this`queue, this`nextSequence, this`failed
      ensures Valid() && (requeued <==> Requeues(ann, locked))
      ensures queue == if requeued then old(queue)[old(nextSequence) := Retried(policy, ann, now)] else old(queue)
      ensures nextSequence == old(nextSequence) + if requeued then 1 else 0
      ensures failed == old(failed) + if requeued then 0 else 1
    {
      var attempts := ann.attempts + 1;
      if attempts >= ann.maxAttempts {
        failed := failed + 1;
        return false;
      }
      var delay := policy.DelayForAttempt(attempts - 1);
      if locked {
        queue := queue[nextSequence := Entry(ann.(attempts := attempts), now + delay)];
        nextSequence := nextSequence + 1;
        return true;
      }
      failed := failed + 1;
      return false;
    }

    method RecordDelivered()
      modifies this`delivered
      ensures delivered == old(delivered) + 1
    {
      delivered := delivered + 1;
    }

    /** Everything that waits, ready or not, one least entry after another. */
    method DrainPending() returns (drained: seq<Announcement>, ghost keys: seq<nat>)
      requires Valid()
      modifies this`queue
      ensures Valid() && queue == map[] && Removed(old(queue), keys) == queue
      ensures LeastEach(old(queue), keys, drained)
    {
      drained, keys := [], [];
      while queue != map[]
        invariant KeysBelow(queue, nextSequence)
        invariant queue == Removed(old(queue), keys) && LeastEach(old(queue), keys, drained)
        decreases queue.Keys
      {
        var least := FindLeast();
        TakeLeast(old(queue), keys, drained, least);
        drained, keys := drained + [queue[least].ann], keys + [least];
        queue := queue - {least};
      }
    }
  }
}
