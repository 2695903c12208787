/** The sliding-window circuit breaker of crates/clawdesk-adapters/src/circuit_breaker.rs, used by one
  * thread at a time: a ring of packed counters that stands for the last N window advances, and the
  * closed / open / half-open switch with exponential backoff.
  *
  * Milliseconds are passed in. `Advance` moves at most one bucket per call, as the source does, so
  * the ring is about advances, not about seconds.
  */
module CircuitBreaker {
  import opened Bits
  import opened Modular

  const U32: nat := 0x1_0000_0000

  // ---------------------------------------------------------------------------------------------
  // The switch
  // ---------------------------------------------------------------------------------------------

  datatype CircuitState = Closed | Open | HalfOpen

  /** The switch alone; openedAt == 0 means "never opened". */
  datatype Switch = Switch(state: CircuitState, openedAt: nat, openCount: nat)

  datatype Backoff = Backoff(base: nat, max: nat) {
    /** min(base * 2^min(openCount, 10), max). */
    function Wait(openCount: nat): nat {
      var wait := base * Pow2(if openCount <= 10 then openCount else 10);
      if wait <= max then wait else max
    }
  }

  function SaturatingSub(a: nat, b: nat): nat {
    if a >= b then a - b else 0
  }

  predicate Allowed(s: Switch, b: Backoff, now: nat) {
    match s.state
    case Closed => true
    case Open => s.openedAt > 0 && SaturatingSub(now, s.openedAt) >= b.Wait(s.openCount)
    case HalfOpen => false
  }

  function AfterAllow(s: Switch, b: Backoff, now: nat): Switch {
    if s.state.Open? && Allowed(s, b, now) then s.(state := HalfOpen) else s
  }

  function AfterSuccess(s: Switch): Switch {
    if s.state.HalfOpen? then Switch(Closed, 0, 0) else s
  }

  /** `trips` says whether the window has passed the threshold. */
  function AfterFailure(s: Switch, trips: bool, now: nat): Switch {
    if s.state.HalfOpen? || (s.state.Closed? && trips) then Switch(Open, now, s.openCount + 1) else s
  }

  /** Answers to a run of requests with no result recorded in between. */
  function Answers(s: Switch, b: Backoff, times: seq<nat>): (answers: seq<bool>)
    ensures |answers| == |times|
    decreases |times|
  {
    if times == [] then []
    else [Allowed(s, b, times[0])] + Answers(AfterAllow(s, b, times[0]), b, times[1..])
  }

  predicate Due(s: Switch, b: Backoff, now: nat) {
    now >= s.openedAt + b.Wait(s.openCount)
  }

  lemma {:induction false} HalfOpenRefusesAll(s: Switch, b: Backoff, times: seq<nat>, i: nat)
    requires s.state.HalfOpen? && i < |times|
    ensures !Answers(s, b, times)[i]
    decreases |times|
  {
    if i > 0 { HalfOpenRefusesAll(s, b, times[1..], i - 1); }
  }

  /** While open (opened at a nonzero clock time): a request passes exactly when it is the first one
    * not before the end of the backoff, so none passes earlier and only one passes until a result is
    * recorded. */
  lemma {:induction false} ExactlyOneProbe(s: Switch, b: Backoff, times: seq<nat>, i: nat)
    requires s.state.Open? && s.openedAt > 0 && i < |times|
    requires forall j :: 0 <= j < |times| ==> s.openedAt <= times[j]
    ensures Answers(s, b, times)[i] <==>
            Due(s, b, times[i]) && forall j :: 0 <= j < i ==> !Due(s, b, times[j])
    decreases |times|
  {
    if i > 0 {
      if Due(s, b, times[0]) {
        HalfOpenRefusesAll(AfterAllow(s, b, times[0]), b, times[1..], i - 1);
      } else {
        ExactlyOneProbe(s, b, times[1..], i - 1);
        assert forall j :: 1 <= j < i ==> times[j] == times[1..][j - 1];
        if forall j :: 0 <= j < i - 1 ==> !Due(s, b, times[1..][j]) {
          forall j | 0 <= j < i ensures !Due(s, b, times[j]) {
            if j > 0 { assert times[j] == times[1..][j - 1]; }
          }
        } else {
          var j :| 0 <= j < i - 1 && Due(s, b, times[1..][j]);
          assert Due(s, b, times[j + 1]);
        }
      }
    }
  }

  /** Everything a caller can do to the switch. */
  datatype Call = Ask(now: nat) | Success | Failure(trips: bool, now: nat)

  function AfterCall(s: Switch, b: Backoff, c: Call): Switch {
    match c
    case Ask(now) => AfterAllow(s, b, now)
    case Success => AfterSuccess(s)
    case Failure(trips, now) => AfterFailure(s, trips, now)
  }

  function AfterCalls(s: Switch, b: Backoff, calls: seq<Call>): Switch
    decreases |calls|
  {
    if calls == [] then s else AfterCall(AfterCalls(s, b, calls[..|calls| - 1]), b, calls[|calls| - 1])
  }

  ghost predicate EverRecovers(s: Switch, b: Backoff) {
    exists calls :: !AfterCalls(s, b, calls).state.Open?
  }

  /** An open circuit can be left at all exactly when it was not opened at clock time zero: a trip in
    * the first millisecond is read as "never opened" and blocks every request for good. */
  lemma OpenedAtZeroIsStuck(s: Switch, b: Backoff)
    requires s.state.Open?
    ensures EverRecovers(s, b) <==> s.openedAt > 0
  {
    if s.openedAt > 0 {
      var calls := [Ask(s.openedAt + b.Wait(s.openCount))];
      assert calls[..0] == [];
      assert AfterCalls(s, b, calls) == AfterCall(AfterCalls(s, b, []), b, calls[0]);
    } else {
      forall calls ensures AfterCalls(s, b, calls).state.Open? {
        StuckOpen(s, b, calls);
      }
    }
  }

  lemma {:induction false} StuckOpen(s: Switch, b: Backoff, calls: seq<Call>)
    requires s.state.Open? && s.openedAt == 0
    ensures AfterCalls(s, b, calls) == s
    decreases |calls|
  {
    if calls != [] { StuckOpen(s, b, calls[..|calls| - 1]); }
  }

  // What a breaker remembers ------------------------------------------------------------------------------

  const NEW: Switch := Switch(Closed, 0, 0)

  /** The failure opens the circuit: of a probe, or past the threshold while closed. */
  predicate Opens(s: Switch, c: Call) {
    c.Failure? && (s.state.HalfOpen? || (s.state.Closed? && c.trips))
  }

  /** The success of a probe closes the circuit. */
  predicate Closes(s: Switch, c: Call) {
    c.Success? && s.state.HalfOpen?
  }

  /** How often the circuit opened since it was last closed. */
  function Openings(b: Backoff, calls: seq<Call>): nat
    decreases |calls|
  {
    if calls == [] then 0
    else
      var front, last := calls[..|calls| - 1], calls[|calls| - 1];
      if Closes(AfterCalls(NEW, b, front), last) then 0
      else Openings(b, front) + if Opens(AfterCalls(NEW, b, front), last) then 1 else 0
  }

  /** When it last opened. */
  function LastOpened(b: Backoff, calls: seq<Call>): nat
    decreases |calls|
  {
    if calls == [] then 0
    else
      var front, last := calls[..|calls| - 1], calls[|calls| - 1];
      if Opens(AfterCalls(NEW, b, front), last) then last.now else LastOpened(b, front)
  }

  /** For every sequence of calls on a new breaker, with requests refused, results that come late and
    * results nobody waits for anywhere in it: the switch holds the number of openings since the last close
    * and the time of the latest one. */
  lemma {:induction false} SwitchFollowsHistory(b: Backoff, calls: seq<Call>)
    ensures var s := AfterCalls(NEW, b, calls);
      && s.openCount == Openings(b, calls)
      && (s.state.Closed? <==> Openings(b, calls) == 0)
      && s.openedAt == (if s.state.Closed? then 0 else LastOpened(b, calls))
    decreases |calls|
  {
    if calls != [] { SwitchFollowsHistory(b, calls[..|calls| - 1]); }
  }

  /** So while it is open, after the k-th opening in a row a request passes exactly when
    * min(base * 2^min(k, 10), max) has gone by since the latest one, and that one was not at time zero. */
  lemma {:induction false} BackoffDoubles(b: Backoff, calls: seq<Call>, now: nat)
    requires AfterCalls(NEW, b, calls).state.Open?
    ensures Openings(b, calls) > 0
    ensures Allowed(AfterCalls(NEW, b, calls), b, now) <==>
      LastOpened(b, calls) > 0 && SaturatingSub(now, LastOpened(b, calls)) >= b.Wait(Openings(b, calls))
  {
    SwitchFollowsHistory(b, calls);
  }

  /** Each opening in a row doubles the wait, up to the tenth and up to the cap. */
  lemma WaitDoubles(b: Backoff, k: nat)
    ensures b.Wait(0) == if b.base <= b.max then b.base else b.max
    ensures k < 10 ==> b.Wait(k + 1) == if 2 * b.Wait(k) <= b.max then 2 * b.Wait(k) else b.max
    ensures k >= 10 ==> b.Wait(k) == b.Wait(10)
  {
    if k < 10 { DoubleProduct(b.base, Pow2(k)); }
  }

  /** A breaker gets stuck exactly when its latest opening was in the first millisecond. */
  lemma StuckExactly(b: Backoff, calls: seq<Call>)
    ensures !EverRecovers(AfterCalls(NEW, b, calls), b) <==>
      AfterCalls(NEW, b, calls).state.Open? && LastOpened(b, calls) == 0
  {
    var s := AfterCalls(NEW, b, calls);
    SwitchFollowsHistory(b, calls);
    if s.state.Open? {
      OpenedAtZeroIsStuck(s, b);
    } else {
      assert AfterCalls(s, b, []) == s;
    }
  }

  /** Waits never shrink as failures pile up, and stay within the cap. */
  lemma WaitMonotone(b: Backoff, j: nat, k: nat)
    requires j <= k
    ensures b.Wait(j) <= b.Wait(k) <= b.max
  {
    var x, y := if j <= 10 then j else 10, if k <= 10 then k else 10;
    Pow2Monotone(x, y);
    MulMonotone(b.base, Pow2(x), b.base, Pow2(y));
  }

  // ---------------------------------------------------------------------------------------------
  // The window
  // ---------------------------------------------------------------------------------------------

  datatype Counts = Counts(successes: nat, failures: nat)

  /** High half successes, low half failures. */
  function Hi(word: nat): nat {
    word / 0x1_0000_0000 % 0x1_0000_0000
  }

  function Lo(word: nat): nat {
    word % 0x1_0000_0000
  }

  predicate Packs(word: nat, c: Counts) {
    Hi(word) == c.successes && Lo(word) == c.failures
  }

  /** Adding one to a word adds one failure exactly while the low half does not overflow; at 2^32
    * failures it turns into a success. */
  lemma AddFailureExactly(word: nat, c: Counts)
    requires Packs(word, c)
    ensures Packs(word + 1, c.(failures := c.failures + 1)) <==> c.failures + 1 < U32
  {}

  /** What a packed word holds after one more failure: at 2^32 it carries into the successes. */
  function OneMoreFailure(c: Counts): Counts {
    if c.failures + 1 < U32 then c.(failures := c.failures + 1)
    else Counts(if c.successes + 1 < U32 then c.successes + 1 else 0, 0)
  }

  /** After one more success: at 2^32 it wraps. */
  function OneMoreSuccess(c: Counts): Counts {
    c.(successes := if c.successes + 1 < U32 then c.successes + 1 else 0)
  }

  lemma FailurePacks(word: nat, c: Counts)
    requires Packs(word, c)
    ensures Packs(word + 1, OneMoreFailure(c))
  {
    var hi, lo := word / 0x1_0000_0000, word % 0x1_0000_0000;
    if lo + 1 < 0x1_0000_0000 {
      ModUnique(word + 1, 0x1_0000_0000, hi, lo + 1);
    } else {
      ModUnique(word + 1, 0x1_0000_0000, hi + 1, 0);
      NextMod(hi, 0x1_0000_0000);
    }
  }

  lemma SuccessPacks(word: nat, c: Counts)
    requires Packs(word, c)
    ensures Packs(word + 0x1_0000_0000, OneMoreSuccess(c))
  {
    var hi, lo := word / 0x1_0000_0000, word % 0x1_0000_0000;
    ModUnique(word + 0x1_0000_0000, 0x1_0000_0000, hi + 1, lo);
    NextMod(hi, 0x1_0000_0000);
  }

  lemma NextMod(n: nat, m: nat)
    requires m > 1
    ensures (n + 1) % m == if n % m + 1 < m then n % m + 1 else 0
  {
    var q, r := n / m, n % m;
    if r + 1 < m {
      ModUnique(n + 1, m, q, r + 1);
    } else {
      assert q * m + m == (q + 1) * m;
      ModUnique(n + 1, m, q + 1, 0);
    }
  }

  /** Adding 2^32 adds one success exactly while the high half does not overflow. */
  lemma AddSuccessExactly(word: nat, c: Counts)
    requires Packs(word, c)
    ensures Packs(word + 0x1_0000_0000, c.(successes := c.successes + 1)) <==> c.successes + 1 < U32
  {}

  /** Counts per window advance, oldest first; the last one is still being added to. A new breaker
    * starts with a full window of empty epochs. */
  type Epochs = seq<Counts>

  function NoCounts(): Counts {
    Counts(0, 0)
  }

  function Successes(e: Epochs): nat
    decreases |e|
  {
    if e == [] then 0 else Successes(e[..|e| - 1]) + e[|e| - 1].successes
  }

  function Failures(e: Epochs): nat
    decreases |e|
  {
    if e == [] then 0 else Failures(e[..|e| - 1]) + e[|e| - 1].failures
  }

  /** The current epoch and the n - 1 before it. */
  function Window(e: Epochs, n: nat): Epochs
    requires n <= |e|
  {
    e[|e| - n..]
  }

  /** Words that hold these epochs, one each. */
  ghost predicate Holds(words: seq<nat>, e: Epochs)
    decreases |e|
  {
    && |words| == |e|
    && (e == [] ||
        (Packs(words[|e| - 1], e[|e| - 1]) && Holds(words[..|e| - 1], e[..|e| - 1])))
  }

  lemma HoldsAppend(words: seq<nat>, e: Epochs, word: nat, c: Counts)
    requires Holds(words, e) && Packs(word, c)
    ensures Holds(words + [word], e + [c])
  {}

  lemma {:induction false} HoldsTail(words: seq<nat>, e: Epochs)
    requires Holds(words, e) && e != []
    ensures Holds(words[1..], e[1..])
    decreases |e|
  {
    var n := |e| - 1;
    if n > 0 {
      HoldsTail(words[..n], e[..n]);
      HoldsAppend(words[..n][1..], e[..n][1..], words[n], e[n]);
      assert words[1..] == words[..n][1..] + [words[n]] && e[1..] == e[..n][1..] + [e[n]];
    }
  }

  /** The words of a ring from the oldest to the current one. */
  function View(words: seq<nat>, idx: nat): seq<nat>
    requires idx < |words|
  {
    words[idx + 1..] + words[..idx + 1]
  }

  /** The ring holds the window, rotated so that the current epoch is at idx. */
  ghost predicate Ring(words: seq<nat>, idx: nat, e: Epochs) {
    && idx < |words| <= |e|
    && Holds(View(words, idx), Window(e, |words|))
  }

  /** The word at idx is the current epoch, packed. */
  lemma RingCurrent(words: seq<nat>, idx: nat, e: Epochs)
    requires Ring(words, idx, e)
    ensures Packs(words[idx], e[|e| - 1])
  {}

  /** Recording into the current bucket. */
  lemma RingRecord(words: seq<nat>, idx: nat, e: Epochs, word: nat, c: Counts)
    requires Ring(words, idx, e) && Packs(word, c)
    ensures Ring(words[idx := word], idx, e[|e| - 1 := c])
  {
    var n := |words|;
    var view, w := View(words, idx), Window(e, n);
    HoldsAppend(view[..n - 1], w[..n - 1], word, c);
    assert View(words[idx := word], idx) == view[..n - 1] + [word];
    assert Window(e[|e| - 1 := c], n) == w[..n - 1] + [c];
  }

  function NextIndex(idx: nat, n: nat): nat {
    if idx + 1 == n then 0 else idx + 1
  }

  lemma ViewShift(words: seq<nat>, idx: nat)
    requires idx < |words|
    ensures NextIndex(idx, |words|) < |words|
    ensures View(words[NextIndex(idx, |words|) := 0], NextIndex(idx, |words|)) == View(words, idx)[1..] + [0]
  {}

  /** Advancing: the oldest word is cleared and becomes the current one. */
  lemma RingAdvance(words: seq<nat>, idx: nat, e: Epochs)
    requires Ring(words, idx, e)
    ensures Ring(words[NextIndex(idx, |words|) := 0], NextIndex(idx, |words|), e + [NoCounts()])
  {
    var n := |words|;
    ViewShift(words, idx);
    assert Window(e + [NoCounts()], n) == Window(e, n)[1..] + [NoCounts()];
    HoldsTail(View(words, idx), Window(e, n));
    HoldsAppend(View(words, idx)[1..], Window(e, n)[1..], 0, NoCounts());
  }

  /** The sum of one half of each word. */
  function SumBy(f: nat -> nat, words: seq<nat>): nat
    decreases |words|
  {
    if words == [] then 0 else SumBy(f, words[..|words| - 1]) + f(words[|words| - 1])
  }

  lemma {:induction false} SumConcat(f: nat -> nat, a: seq<nat>, b: seq<nat>)
    ensures SumBy(f, a + b) == SumBy(f, a) + SumBy(f, b)
    decreases |b|
  {
    if b == [] {
      assert a + b == a;
    } else {
      SumConcat(f, a, b[..|b| - 1]);
      assert (a + b)[..|a + b| - 1] == a + b[..|b| - 1];
    }
  }

  lemma {:induction false} SumPacked(words: seq<nat>, e: Epochs)
    requires Holds(words, e)
    ensures SumBy(Hi, words) == Successes(e) && SumBy(Lo, words) == Failures(e)
    decreases |e|
  {
    if e != [] {
      var n := |e| - 1;
      SumPacked(words[..n], e[..n]);
    }
  }

  /** Whatever the rotation, summing all words gives the counts of the window. */
  lemma {:induction false} RingSum(words: seq<nat>, idx: nat, e: Epochs)
    requires Ring(words, idx, e)
    ensures SumBy(Hi, words) == Successes(Window(e, |words|))
    ensures SumBy(Lo, words) == Failures(Window(e, |words|))
  {
    ViewSum(Hi, words, idx);
    ViewSum(Lo, words, idx);
    SumPacked(View(words, idx), Window(e, |words|));
  }

  lemma {:induction false} ViewSum(f: nat -> nat, words: seq<nat>, idx: nat)
    requires idx < |words|
    ensures SumBy(f, View(words, idx)) == SumBy(f, words)
  {
    InTwo(words, idx + 1);
    SumSwapped(f, words[..idx + 1], words[idx + 1..]);
  }

  lemma InTwo(words: seq<nat>, k: nat)
    requires k <= |words|
    ensures words == words[..k] + words[k..]
  {}

  lemma SumSwapped(f: nat -> nat, a: seq<nat>, b: seq<nat>)
    ensures SumBy(f, a + b) == SumBy(f, b + a)
  {
    SumConcat(f, a, b);
    SumConcat(f, b, a);
  }

  /** The trip rule on the window counts, in thousandths, rounded down. */
  predicate Trips(total: nat, failures: nat, thresholdMillis: nat) {
    total >= 5 && failures * 1000 / total > thresholdMillis
  }

  /** The rounding makes the rule trip from one thousandth above the threshold on, not right above it. */
  lemma TripsExactly(total: nat, failures: nat, thresholdMillis: nat)
    requires total >= 5
    ensures Trips(total, failures, thresholdMillis) <==> failures * 1000 >= (thresholdMillis + 1) * total
  {
    var x, t, k := failures * 1000, total, thresholdMillis + 1;
    var q := x / t;
    assert x == q * t + x % t;
    if q >= k {
      MulMonotone(k, t, q, t);
    } else {
      MulMonotone(q + 1, t, k, t);
      assert (q + 1) * t == q * t + t;
    }
  }

  // What a run of calls leaves in the window ---------------------------------------------------------------

  /** The epochs, and when the current one began; 0 for not yet. */
  datatype Meter = Meter(epochs: Epochs, start: nat)

  /** A call's reading of the clock, and what it records, if anything. */
  datatype Reading = Request(now: nat) | Result(good: bool, now: nat)

  /** An epoch begins with the first call, and a new one when the current one has run its time. */
  function Advanced(m: Meter, duration: nat, now: nat): Meter {
    if m.start == 0 then m.(start := now)
    else if SaturatingSub(now, m.start) >= duration then Meter(m.epochs + [NoCounts()], now)
    else m
  }

  function MeterAfter(m: Meter, duration: nat, r: Reading): (after: Meter)
    requires m.epochs != []
    ensures |after.epochs| >= |m.epochs|
  {
    var moved := Advanced(m, duration, r.now);
    if r.Result? then moved.(epochs := Recorded(moved.epochs, r.good)) else moved
  }

  function MeterAfterAll(n: nat, duration: nat, rs: seq<Reading>): (m: Meter)
    requires n > 0
    ensures |m.epochs| >= n
    decreases |rs|
  {
    if rs == [] then Meter(Zeros(n), 0) else MeterAfter(MeterAfterAll(n, duration, rs[..|rs| - 1]), duration, rs[|rs| - 1])
  }

  // Read off the calls alone: when the current epoch began, how many have begun since the first, and how many
  // results of a kind were recorded in each.

  function Began(duration: nat, rs: seq<Reading>): nat
    decreases |rs|
  {
    if rs == [] then 0
    else
      var start, now := Began(duration, rs[..|rs| - 1]), rs[|rs| - 1].now;
      if start == 0 || (now >= start + duration || duration == 0) then now else start
  }

  function Moves(duration: nat, rs: seq<Reading>): nat
    decreases |rs|
  {
    if rs == [] then 0
    else
      var start, now := Began(duration, rs[..|rs| - 1]), rs[|rs| - 1].now;
      Moves(duration, rs[..|rs| - 1]) + if start > 0 && (now >= start + duration || duration == 0) then 1 else 0
  }

  function CountAt(good: bool, duration: nat, rs: seq<Reading>, epoch: int): nat
    decreases |rs|
  {
    if rs == [] then 0
    else
      var here := rs[|rs| - 1].Result? && rs[|rs| - 1].good == good && Moves(duration, rs) == epoch;
      CountAt(good, duration, rs[..|rs| - 1], epoch) + if here then 1 else 0
  }

  /** Recorded in this epoch or a later one. */
  function CountSince(good: bool, duration: nat, rs: seq<Reading>, epoch: int): nat
    decreases |rs|
  {
    if rs == [] then 0
    else
      var here := rs[|rs| - 1].Result? && rs[|rs| - 1].good == good && Moves(duration, rs) >= epoch;
      CountSince(good, duration, rs[..|rs| - 1], epoch) + if here then 1 else 0
  }

  /** No epoch has 2^32 results of one kind. */
  ghost predicate Fits(duration: nat, rs: seq<Reading>) {
    forall good, epoch :: FitsAt(good, duration, rs, epoch)
  }

  ghost predicate FitsAt(good: bool, duration: nat, rs: seq<Reading>, epoch: int) {
    CountAt(good, duration, rs, epoch) < 0x1_0000_0000
  }

  lemma FitsFront(duration: nat, rs: seq<Reading>)
    requires rs != [] && Fits(duration, rs)
    ensures Fits(duration, rs[..|rs| - 1])
  {
    var front := rs[..|rs| - 1];
    forall good, epoch ensures FitsAt(good, duration, front, epoch) {
      assert FitsAt(good, duration, rs, epoch);
    }
  }

  lemma {:induction false} NoneYet(good: bool, duration: nat, rs: seq<Reading>, epoch: int)
    requires epoch > Moves(duration, rs)
    ensures CountAt(good, duration, rs, epoch) == 0 && CountSince(good, duration, rs, epoch) == 0
    decreases |rs|
  {
    if rs != [] { NoneYet(good, duration, rs[..|rs| - 1], epoch); }
  }

  lemma {:induction false} OneEpochMore(good: bool, duration: nat, rs: seq<Reading>, epoch: int)
    ensures CountSince(good, duration, rs, epoch) == CountAt(good, duration, rs, epoch) + CountSince(good, duration, rs, epoch + 1)
    decreases |rs|
  {
    if rs != [] { OneEpochMore(good, duration, rs[..|rs| - 1], epoch); }
  }

  /** The counts of one epoch. */
  ghost predicate EpochOk(n: nat, duration: nat, rs: seq<Reading>, c: Counts, j: nat) {
    c == Counts(CountAt(true, duration, rs, j - n + 1), CountAt(false, duration, rs, j - n + 1))
  }

  ghost predicate Tallied(n: nat, duration: nat, rs: seq<Reading>, m: Meter) {
    && m.start == Began(duration, rs) && |m.epochs| == n + Moves(duration, rs)
    && forall j :: 0 <= j < |m.epochs| ==> EpochOk(n, duration, rs, m.epochs[j], j)
  }

  lemma {:induction false} MeterTallies(n: nat, duration: nat, rs: seq<Reading>)
    requires n > 0 && Fits(duration, rs)
    ensures Tallied(n, duration, rs, MeterAfterAll(n, duration, rs))
    decreases |rs|
  {
    if rs == [] {
      ZerosAre(n);
    } else {
      FitsFront(duration, rs);
      MeterTallies(n, duration, rs[..|rs| - 1]);
      TallyStep(n, duration, rs, MeterAfterAll(n, duration, rs[..|rs| - 1]));
    }
  }

  lemma {:induction false} ZerosAre(n: nat)
    ensures forall j :: 0 <= j < n ==> Zeros(n)[j] == Counts(0, 0)
  {
    if n > 0 { ZerosAre(n - 1); }
  }

  lemma TallyStep(n: nat, duration: nat, rs: seq<Reading>, before: Meter)
    requires n > 0 && rs != [] && Fits(duration, rs) && Tallied(n, duration, rs[..|rs| - 1], before)
    ensures Tallied(n, duration, rs, MeterAfter(before, duration, rs[|rs| - 1]))
  {
    var front, last := rs[..|rs| - 1], rs[|rs| - 1];
    var moved, after := Advanced(before, duration, last.now), MeterAfter(before, duration, last);
    forall j | 0 <= j < |after.epochs| ensures EpochOk(n, duration, rs, after.epochs[j], j) {
      var epoch := j - n + 1;
      if j < |before.epochs| {
        assert EpochOk(n, duration, front, before.epochs[j], j);
      } else {
        NoneYet(true, duration, front, epoch);
        NoneYet(false, duration, front, epoch);
      }
      assert FitsAt(true, duration, rs, epoch) && FitsAt(false, duration, rs, epoch);
    }
  }

  lemma {:induction false} SumsOfEpochs(n: nat, duration: nat, rs: seq<Reading>, e: Epochs, from: nat)
    requires forall j :: 0 <= j < |e| ==> EpochOk(n, duration, rs, e[j], from + j)
    ensures Successes(e) == CountSince(true, duration, rs, from - n + 1) - CountSince(true, duration, rs, from + |e| - n + 1)
    ensures Failures(e) == CountSince(false, duration, rs, from - n + 1) - CountSince(false, duration, rs, from + |e| - n + 1)
    decreases |e|
  {
    if e != [] {
      var k := |e| - 1;
      SumsOfEpochs(n, duration, rs, e[..k], from);
      assert EpochOk(n, duration, rs, e[k], from + k);
      OneEpochMore(true, duration, rs, from + k - n + 1);
      OneEpochMore(false, duration, rs, from + k - n + 1);
    }
  }

  /** Over every run of requests and results, while no epoch has 2^32 of one kind: the window holds exactly the
    * successes and the failures recorded in the current epoch and the n - 1 before it. */
  lemma WindowByHistory(n: nat, duration: nat, rs: seq<Reading>)
    requires n > 0 && Fits(duration, rs)
    ensures var w, first := Window(MeterAfterAll(n, duration, rs).epochs, n), Moves(duration, rs) - n + 1;
      Successes(w) == CountSince(true, duration, rs, first) && Failures(w) == CountSince(false, duration, rs, first)
  {
    var e, moves := MeterAfterAll(n, duration, rs).epochs, Moves(duration, rs);
    MeterTallies(n, duration, rs);
    forall j | 0 <= j < n ensures EpochOk(n, duration, rs, Window(e, n)[j], moves + j) {
      assert EpochOk(n, duration, rs, e[moves + j], moves + j);
    }
    SumsOfEpochs(n, duration, rs, Window(e, n), moves);
    NoneYet(true, duration, rs, moves + 1);
    NoneYet(false, duration, rs, moves + 1);
  }

  /** So the window is past the threshold exactly when there are five results in it and the failures are at
    * least one thousandth above the threshold. */
  lemma TripsByHistory(n: nat, duration: nat, rs: seq<Reading>, thresholdMillis: nat)
    requires n > 0 && Fits(duration, rs)
    ensures var first := Moves(duration, rs) - n + 1;
      var bad, good := CountSince(false, duration, rs, first), CountSince(true, duration, rs, first);
      WindowTrips(MeterAfterAll(n, duration, rs).epochs, n, thresholdMillis) <==>
      bad + good >= 5 && bad * 1000 >= (thresholdMillis + 1) * (bad + good)
  {
    WindowByHistory(n, duration, rs);
    var first := Moves(duration, rs) - n + 1;
    var bad, good := CountSince(false, duration, rs, first), CountSince(true, duration, rs, first);
    if bad + good >= 5 { TripsExactly(bad + good, bad, thresholdMillis); }
  }

  // ---------------------------------------------------------------------------------------------
  // The breaker as the source runs it
  // ---------------------------------------------------------------------------------------------

  class Breaker {
    const bucketCount: nat
    const bucketDurationMs: nat
    const words: array<nat>
    const starts: array<nat>
    const thresholdMillis: nat
    const backoff: Backoff
    var currentIndex: nat
    var state: CircuitState
    var openedAtMs: nat
    var openCount: nat
    ghost var epochs: Epochs

    ghost predicate Valid()
      reads this, words
    {
      && bucketCount > 0 && words.Length == bucketCount && starts.Length == bucketCount && words != starts
      && Ring(words[..], currentIndex, epochs)
    }

    ghost function Abs(): Switch
      reads this
    {
      Switch(state, openedAtMs, openCount)
    }

    ghost function Measured(): Meter
      requires Valid()
      reads this, words, starts
    {
      Meter(epochs, starts[currentIndex])
    }

    /** A window of no buckets makes the source divide by zero. */
    constructor (windowSecs: nat, bucketCount: nat, thresholdMillis: nat)
      requires bucketCount > 0
      ensures Valid() && Abs() == Switch(Closed, 0, 0) && Measured() == Meter(Zeros(bucketCount), 0)
      ensures this.bucketCount == bucketCount && this.thresholdMillis == thresholdMillis
      ensures bucketDurationMs == windowSecs * 1000 / bucketCount && backoff == Backoff(5000, 300000)
      ensures fresh(words) && fresh(starts)
    {
      this.bucketCount, this.thresholdMillis := bucketCount, thresholdMillis;
      bucketDurationMs := windowSecs * 1000 / bucketCount;
      var ws := new nat[bucketCount](_ => 0);
      var ss := new nat[bucketCount](_ => 0);
      words, starts := ws, ss;
      backoff := Backoff(5000, 300000);
      currentIndex, state, openedAtMs, openCount := 0, Closed, 0, 0;
      epochs := Zeros(bucketCount);
      new;
      EmptyRing(words[..]);
    }

    /** Clears the next bucket and makes it the current one. */
    method MoveOn(now: nat)
      requires Valid()
      modifies this`currentIndex, this`epochs, words, starts
      ensures Valid() && epochs == old(epochs) + [NoCounts()] && starts[currentIndex] == now
    {
      var next := NextBucket();
      RingAdvance(words[..], currentIndex, epochs);
      ghost var before := words[..];
      currentIndex := next;
      words[next] := 0;
      starts[next] := now;
      assert words[..] == before[next := 0];
      epochs := epochs + [NoCounts()];
    }

    method NextBucket() returns (next: nat)
      requires Valid()
      ensures next == NextIndex(currentIndex, bucketCount) < bucketCount
    {
      NextIndexIs(currentIndex, bucketCount);
      next := (currentIndex + 1) % bucketCount;
    }

    /** Moves to the next bucket when the current one has run its time; one bucket per call. */
    method AdvanceWindow(now: nat) returns (ghost moved: bool)
      requires Valid()
      modifies this`currentIndex, this`epochs, words, starts
      ensures Valid() && Measured() == Advanced(old(Measured()), bucketDurationMs, now)
      ensures epochs == if moved then old(epochs) + [NoCounts()] else old(epochs)
    {
      moved := false;
      var idx := currentIndex;
      var start := starts[idx];
      if start == 0 {
        starts[idx] := now;
        return;
      }
      if SaturatingSub(now, start) >= bucketDurationMs {
        moved := true;
        MoveOn(now);
      }
    }

    /** The totals of the ring are the totals of the current and the preceding N - 1 epochs. */
    method WindowCounts() returns (total: nat, failures: nat)
      requires Valid()
      ensures failures == Failures(Window(epochs, bucketCount))
      ensures total == Successes(Window(epochs, bucketCount)) + failures
    {
      RingSum(words[..], currentIndex, epochs);
      total, failures := 0, 0;
      ghost var all := words[..];
      for i := 0 to bucketCount
        invariant failures == SumBy(Lo, all[..i]) && total == SumBy(Hi, all[..i]) + failures
      {
        assert all[..i + 1][..i] == all[..i];
        total := total + Hi(words[i]) + Lo(words[i]);
        failures := failures + Lo(words[i]);
      }
      assert all[..bucketCount] == all;
    }

    method AllowRequest(now: nat, later: nat) returns (ok: bool)
      requires Valid() && now <= later
      modifies this`currentIndex, this`epochs, this`state, words, starts
      ensures Valid()
      ensures ok == Allowed(old(Abs()), backoff, later) && Abs() == AfterAllow(old(Abs()), backoff, later)
      ensures Measured() == Advanced(old(Measured()), bucketDurationMs, now)
    {
      ghost var moved := AdvanceWindow(now);
      match state
      case Closed => ok := true;
      case Open =>
        ok := false;
        if openedAtMs > 0 {
          var wait := CurrentBackoffMs();
          if SaturatingSub(later, openedAtMs) >= wait {
            state := HalfOpen;
            ok := true;
          }
        }
      case HalfOpen => ok := false;
    }

    method CurrentBackoffMs() returns (wait: nat)
      ensures wait == backoff.Wait(openCount)
    {
      var k := if openCount <= 10 then openCount else 10;
      var product := backoff.base * Pow2(k);
      wait := if product <= backoff.max then product else backoff.max;
    }

    /** Adds to the current bucket. */
    method AddToCurrent(delta: nat, ghost c: Counts)
      requires Valid() && Packs(words[currentIndex] + delta, c)
      modifies this`epochs, words
      ensures Valid() && Measured() == old(Measured()).(epochs := old(epochs)[|old(epochs)| - 1 := c])
    {
      RingRecord(words[..], currentIndex, epochs, words[currentIndex] + delta, c);
      ghost var before := words[..];
      words[currentIndex] := words[currentIndex] + delta;
      assert words[..] == before[currentIndex := before[currentIndex] + delta];
      epochs := epochs[|epochs| - 1 := c];
    }

    method AddSuccess()
      requires Valid()
      modifies this`epochs, words
      ensures Valid() && Measured() == old(Measured()).(epochs := Recorded(old(epochs), true))
    {
      RingCurrent(words[..], currentIndex, epochs);
      SuccessPacks(words[currentIndex], epochs[|epochs| - 1]);
      AddToCurrent(0x1_0000_0000, OneMoreSuccess(epochs[|epochs| - 1]));
    }

    method AddFailure()
      requires Valid()
      modifies this`epochs, words
      ensures Valid() && Measured() == old(Measured()).(epochs := Recorded(old(epochs), false))
    {
      RingCurrent(words[..], currentIndex, epochs);
      FailurePacks(words[currentIndex], epochs[|epochs| - 1]);
      AddToCurrent(1, OneMoreFailure(epochs[|epochs| - 1]));
    }

    /** Counts a success into the current bucket; while half-open it closes the circuit. */
    method RecordSuccess(now: nat)
      requires Valid()
      modifies this, words, starts
      ensures Valid() && Abs() == AfterSuccess(old(Abs()))
      ensures Measured() == MeterAfter(old(Measured()), bucketDurationMs, Result(true, now))
    {
      AdvanceAndAddSuccess(now);
      if state.HalfOpen? {
        state := Closed;
        openCount := 0;
        openedAtMs := 0;
      }
    }

    method AdvanceAndAddSuccess(now: nat)
      requires Valid()
      modifies this`currentIndex, this`epochs, words, starts
      ensures Valid() && Measured() == MeterAfter(old(Measured()), bucketDurationMs, Result(true, now))
    {
      ghost var moved := AdvanceWindow(now);
      AddSuccess();
    }

    /** Counts a failure; while half-open it reopens, while closed it may trip. */
    method RecordFailure(now: nat, later: nat)
      requires Valid() && now <= later
      modifies this, words, starts
      ensures Valid() && Measured() == MeterAfter(old(Measured()), bucketDurationMs, Result(false, now))
      ensures Abs() == AfterFailure(old(Abs()), WindowTrips(epochs, bucketCount, thresholdMillis), later)
    {
      AdvanceAndAddFailure(now);
      ReactToFailure(later);
    }

    method AdvanceAndAddFailure(now: nat)
      requires Valid()
      modifies this`currentIndex, this`epochs, words, starts
      ensures Valid() && Measured() == MeterAfter(old(Measured()), bucketDurationMs, Result(false, now))
    {
      ghost var moved := AdvanceWindow(now);
      AddFailure();
    }

    method ReactToFailure(later: nat)
      requires Valid()
      modifies this`state, this`openedAtMs, this`openCount
      ensures Valid() && Abs() == AfterFailure(old(Abs()), WindowTrips(epochs, bucketCount, thresholdMillis), later)
    {
      if state.HalfOpen? {
        state := Open;
        openCount := openCount + 1;
        openedAtMs := later;
        return;
      }
      if state.Closed? {
        TripIfPastThreshold(later);
      }
    }

    method TripIfPastThreshold(later: nat)
      requires Valid() && state.Closed?
      modifies this`state, this`openedAtMs, this`openCount
      ensures Valid() && Abs() == AfterFailure(old(Abs()), WindowTrips(epochs, bucketCount, thresholdMillis), later)
    {
      var total, failures := WindowCounts();
      if total >= 5 && failures * 1000 / total > thresholdMillis {
        state := Open;
        openCount := openCount + 1;
        openedAtMs := later;
      }
    }
  }

  /** Whether the window of these epochs is past the threshold. */
  predicate WindowTrips(e: Epochs, n: nat, thresholdMillis: nat)
    requires n <= |e|
  {
    var w := Window(e, n);
    Trips(Successes(w) + Failures(w), Failures(w), thresholdMillis)
  }

  /** One more result in the newest epoch. */
  function Recorded(e: Epochs, good: bool): Epochs
    requires e != []
  {
    var last := e[|e| - 1];
    e[|e| - 1 := if good then OneMoreSuccess(last) else OneMoreFailure(last)]
  }

  /** A new breaker after k failures in its first bucket. */
  function FailedEpochs(n: nat, k: nat): (e: Epochs)
    requires n > 0
    ensures |e| == n
    decreases k
  {
    if k == 0 then Zeros(n) else Recorded(FailedEpochs(n, k - 1), false)
  }

  /** The calls that record them, each with what the window then says. */
  function FirstFailures(n: nat, thresholdMillis: nat, k: nat): seq<Call>
    requires n > 0
    decreases k
  {
    if k == 0 then []
    else FirstFailures(n, thresholdMillis, k - 1) + [Failure(WindowTrips(FailedEpochs(n, k), n, thresholdMillis), 0)]
  }

  lemma {:induction false} FailedCounts(n: nat, k: nat)
    requires n > 0 && k < 10
    ensures FailedEpochs(n, k) == Zeros(n)[n - 1 := Counts(0, k)]
    ensures Failures(Window(FailedEpochs(n, k), n)) == k && Successes(Window(FailedEpochs(n, k), n)) == 0
    decreases k
  {
    if k > 0 {
      FailedCounts(n, k - 1);
      OneMoreRecorded(Zeros(n), n - 1, k - 1);
    } else {
      assert Zeros(n)[n - 1] == NoCounts();
    }
    WholeWindow(FailedEpochs(n, k));
    CountsInLast(n, k);
  }

  lemma OneMoreRecorded(e: Epochs, last: nat, k: nat)
    requires |e| == last + 1 && k < 10
    ensures Recorded(e[last := Counts(0, k)], false) == e[last := Counts(0, k + 1)]
  {}

  lemma CountsInLast(n: nat, k: nat)
    requires n > 0
    ensures Failures(Zeros(n)[n - 1 := Counts(0, k)]) == k && Successes(Zeros(n)[n - 1 := Counts(0, k)]) == 0
  {
    assert Zeros(n)[n - 1 := Counts(0, k)][..n - 1] == Zeros(n - 1);
    ZerosCount(n - 1);
  }

  lemma {:induction false} ZerosCount(n: nat)
    ensures Failures(Zeros(n)) == 0 && Successes(Zeros(n)) == 0
    decreases n
  {
    if n > 0 {
      assert Zeros(n)[..n - 1] == Zeros(n - 1);
      ZerosCount(n - 1);
    }
  }

  /** Whatever the window and the threshold (below 1), five failures in the first millisecond of a new
    * breaker open it for good. */
  lemma {:induction false} FirstMillisecondSticks(b: Backoff, n: nat, thresholdMillis: nat)
    requires n > 0 && thresholdMillis < 1000
    ensures !EverRecovers(AfterCalls(NEW, b, FirstFailures(n, thresholdMillis, 5)), b)
  {
    StillClosed(b, n, thresholdMillis, 4);
    FiveAreEnough(n, thresholdMillis);
    OpenedAtEnd(b, FirstFailures(n, thresholdMillis, 4));
    OpenedAtZeroIsStuck(Switch(Open, 0, 1), b);
  }

  lemma FiveAreEnough(n: nat, thresholdMillis: nat)
    requires n > 0 && thresholdMillis < 1000
    ensures WindowTrips(FailedEpochs(n, 5), n, thresholdMillis)
  {
    FailedCounts(n, 5);
  }

  lemma OpenedAtEnd(b: Backoff, calls: seq<Call>)
    requires AfterCalls(NEW, b, calls) == NEW
    ensures AfterCalls(NEW, b, calls + [Failure(true, 0)]) == Switch(Open, 0, 1)
  {
    assert (calls + [Failure(true, 0)])[..|calls|] == calls;
  }

  lemma IgnoredAtEnd(b: Backoff, calls: seq<Call>)
    requires AfterCalls(NEW, b, calls) == NEW
    ensures AfterCalls(NEW, b, calls + [Failure(false, 0)]) == NEW
  {
    assert (calls + [Failure(false, 0)])[..|calls|] == calls;
  }

  /** Below five results nothing trips. */
  lemma TooFew(n: nat, thresholdMillis: nat, k: nat)
    requires n > 0 && k < 5
    ensures !WindowTrips(FailedEpochs(n, k), n, thresholdMillis)
  {
    FailedCounts(n, k);
  }

  lemma {:induction false} FailureIgnored(n: nat, thresholdMillis: nat, k: nat)
    requires n > 0 && 0 < k < 5
    ensures FirstFailures(n, thresholdMillis, k) == FirstFailures(n, thresholdMillis, k - 1) + [Failure(false, 0)]
  {
    TooFew(n, thresholdMillis, k);
  }

  lemma {:induction false} StillClosed(b: Backoff, n: nat, thresholdMillis: nat, k: nat)
    requires n > 0 && k < 5
    ensures AfterCalls(NEW, b, FirstFailures(n, thresholdMillis, k)) == NEW
    decreases k
  {
    if k > 0 {
      StillClosed(b, n, thresholdMillis, k - 1);
      FailureIgnored(n, thresholdMillis, k);
      IgnoredAtEnd(b, FirstFailures(n, thresholdMillis, k - 1));
    }
  }

  function Zeros(n: nat): (e: Epochs)
    ensures |e| == n
  {
    if n == 0 then [] else Zeros(n - 1) + [NoCounts()]
  }

  lemma {:induction false} EmptyRing(words: seq<nat>)
    requires |words| > 0 && forall i :: 0 <= i < |words| ==> words[i] == 0
    ensures Ring(words, 0, Zeros(|words|))
  {
    ZeroView(words);
    ZerosHold(View(words, 0));
    WholeWindow(Zeros(|words|));
  }

  lemma ZeroView(words: seq<nat>)
    requires |words| > 0 && forall i :: 0 <= i < |words| ==> words[i] == 0
    ensures |View(words, 0)| == |words| && forall i :: 0 <= i < |words| ==> View(words, 0)[i] == 0
  {}

  lemma WholeWindow(e: Epochs)
    ensures Window(e, |e|) == e
  {}

  lemma {:induction false} ZerosHold(words: seq<nat>)
    requires forall i :: 0 <= i < |words| ==> words[i] == 0
    ensures Holds(words, Zeros(|words|))
    decreases |words|
  {
    if words != [] {
      var n := |words| - 1;
      ZerosHold(words[..n]);
      HoldsAppend(words[..n], Zeros(n), words[n], NoCounts());
      assert words == words[..n] + [words[n]];
    }
  }

  lemma NextIndexIs(idx: nat, n: nat)
    requires idx < n
    ensures (idx + 1) % n == NextIndex(idx, n)
  {}
}
