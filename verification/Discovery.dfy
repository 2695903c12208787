/** The discovery cache of crates/clawdesk-acp/src/discovery.rs: a map whose entries carry a clock
  * stamp, scanned for the smallest stamp when an entry has to go.
  *
  * `OrderAfter` is the plain least-recently-used list the stamps stand for. Time is passed in; the
  * TTL formula (a square root) is a function the configuration supplies; a card is its structural
  * fingerprint and its cosmetic rest.
  */
module Discovery {
  import opened Wrappers
  import opened Agents
  import opened Sets

  // ---------------------------------------------------------------------------------------------
  // The recency list
  // ---------------------------------------------------------------------------------------------

  type Order = seq<AgentId>  // least recently used first

  datatype Op = Get(id: AgentId) | Put(id: AgentId) | PutIfChanged(id: AgentId, structural: bool) | Invalidate(id: AgentId)

  function Remove(s: Order, id: AgentId): Order
    decreases |s|
  {
    if s == [] then []
    else if Last(s) == id then Front(s)
    else Remove(Front(s), id) + [Last(s)]
  }

  function Touch(s: Order, id: AgentId): Order {
    Remove(s, id) + [id]
  }

  /** A full list makes room for a newcomer by dropping its oldest element. */
  function MakeRoom(s: Order, id: AgentId, maxEntries: nat): Order {
    if |s| >= maxEntries && id !in s && s != [] then s[1..] else s
  }

  function OrderAfter(s: Order, op: Op, maxEntries: nat): Order {
    match op
    case Get(id) => if id in s then Touch(s, id) else s
    case Put(id) => Touch(MakeRoom(s, id, maxEntries), id)
    case PutIfChanged(id, structural) =>
      if id in s && !structural then s else Touch(MakeRoom(s, id, maxEntries), id)
    case Invalidate(id) => Remove(s, id)
  }

  function OrderAfterAll(s: Order, ops: seq<Op>, maxEntries: nat): Order
    decreases |ops|
  {
    if ops == [] then s else OrderAfterAll(OrderAfter(s, ops[0], maxEntries), ops[1..], maxEntries)
  }

  lemma {:induction false} RemoveKeeps(s: Order, id: AgentId)
    requires NoDuplicates(s)
    ensures NoDuplicates(Remove(s, id)) && id !in Remove(s, id)
    ensures forall x :: x in Remove(s, id) <==> x in s && x != id
    ensures |Remove(s, id)| == if id in s then |s| - 1 else |s|
    decreases |s|
  {
    if s != [] {
      Split(s);
      RemoveKeeps(Front(s), id);
      if Last(s) != id {
        assert Front(Remove(s, id)) == Remove(Front(s), id);
      }
    }
  }

  lemma {:induction false} TouchKeeps(s: Order, id: AgentId)
    requires NoDuplicates(s)
    ensures NoDuplicates(Touch(s, id))
    ensures forall x :: x in Touch(s, id) <==> x in s || x == id
    ensures |Touch(s, id)| == if id in s then |s| else |s| + 1
  {
    RemoveKeeps(s, id);
    Split(Touch(s, id));
    assert Front(Touch(s, id)) == Remove(s, id);
  }

  /** Dropping the head is removing it. */
  lemma {:induction false} RemoveHead(s: Order)
    requires NoDuplicates(s) && s != []
    ensures Remove(s, s[0]) == s[1..]
    decreases |s|
  {
    if |s| > 1 {
      HeadOfFront(s);
      RemoveHead(Front(s));
      assert s[1..] == Front(s)[1..] + [Last(s)];
    }
  }

  lemma HeadOfFront(s: Order)
    requires NoDuplicates(s) && |s| > 1
    ensures Front(s)[0] == s[0] && s[0] != Last(s)
  {}

  lemma OrderStep(s: Order, op: Op, maxEntries: nat)
    requires NoDuplicates(s) && |s| <= Capacity(maxEntries)
    ensures NoDuplicates(OrderAfter(s, op, maxEntries))
    ensures |OrderAfter(s, op, maxEntries)| <= Capacity(maxEntries)
  {
    var m := MakeRoom(s, op.id, maxEntries);
    if s != [] {
      RemoveHead(s);
      RemoveKeeps(s, s[0]);
    }
    TouchKeeps(m, op.id);
    TouchKeeps(s, op.id);
    RemoveKeeps(s, op.id);
  }

  /** A cache configured for no entries still holds the one put last. */
  function Capacity(maxEntries: nat): nat {
    if maxEntries == 0 then 1 else maxEntries
  }

  lemma {:induction false} SizeBounded(s: Order, ops: seq<Op>, maxEntries: nat)
    requires NoDuplicates(s) && |s| <= Capacity(maxEntries)
    ensures NoDuplicates(OrderAfterAll(s, ops, maxEntries))
    ensures |OrderAfterAll(s, ops, maxEntries)| <= Capacity(maxEntries)
    decreases |ops|
  {
    if ops != [] {
      OrderStep(s, ops[0], maxEntries);
      SizeBounded(OrderAfter(s, ops[0], maxEntries), ops[1..], maxEntries);
    }
  }

  ghost predicate StaysWithin(maxEntries: nat) {
    forall ops :: |OrderAfterAll([], ops, maxEntries)| <= maxEntries
  }

  /** Every run from the empty cache stays within `max_entries` exactly when that is at least 1. */
  lemma SizeBoundExact(maxEntries: nat)
    ensures StaysWithin(maxEntries) <==> maxEntries >= 1
    ensures forall ops :: |OrderAfterAll([], ops, maxEntries)| <= maxEntries || |OrderAfterAll([], ops, maxEntries)| == 1
  {
    forall ops ensures |OrderAfterAll([], ops, maxEntries)| <= Capacity(maxEntries) {
      SizeBounded([], ops, maxEntries);
    }
    if maxEntries >= 1 {
      forall ops ensures |OrderAfterAll([], ops, maxEntries)| <= maxEntries {
        SizeBounded([], ops, maxEntries);
      }
    } else {
      var a := AgentId("a");
      var ops := [Put(a)];
      assert OrderAfterAll([], ops, 0) == OrderAfterAll([a], ops[1..], 0) == [a];
    }
  }

  /** What counts as a use: a lookup that finds the key, a put, a structural change. A cosmetic change of a
    * cached key is none. */
  lemma UseMakesNewest(s: Order, id: AgentId, maxEntries: nat)
    requires NoDuplicates(s)
    ensures var t := OrderAfter(s, Put(id), maxEntries); t != [] && Last(t) == id
    ensures OrderAfter(s, PutIfChanged(id, true), maxEntries) == OrderAfter(s, Put(id), maxEntries)
    ensures id in s ==> Last(OrderAfter(s, Get(id), maxEntries)) == id
    ensures id in s ==> OrderAfter(s, PutIfChanged(id, false), maxEntries) == s
    ensures id !in s ==> OrderAfter(s, PutIfChanged(id, false), maxEntries) == OrderAfter(s, Put(id), maxEntries)
    ensures id !in OrderAfter(s, Invalidate(id), maxEntries)
  {
    RemoveKeeps(s, id);
  }

  // ---------------------------------------------------------------------------------------------
  // Recently used entries survive
  // ---------------------------------------------------------------------------------------------

  /** The keys other than `keep` that these operations got or put. */
  function Others(ops: seq<Op>, keep: AgentId): set<AgentId> {
    set i | 0 <= i < |ops| && !ops[i].Invalidate? && ops[i].id != keep :: ops[i].id
  }

  /** The keys used more recently than `keep`. */
  function NewerThan(s: Order, keep: AgentId): set<AgentId>
    decreases |s|
  {
    if s == [] || Last(s) == keep then {} else {Last(s)} + NewerThan(Front(s), keep)
  }

  lemma {:induction false} NewerIsMember(s: Order, keep: AgentId)
    ensures forall x :: x in NewerThan(s, keep) ==> x in s && x != keep
    decreases |s|
  {
    if s != [] {
      Split(s);
      NewerIsMember(Front(s), keep);
    }
  }

  /** When the oldest element is the one to keep, everything else is newer. */
  lemma {:induction false} OldestIsAlone(s: Order)
    requires NoDuplicates(s) && s != []
    ensures |NewerThan(s, s[0])| == |s| - 1
    decreases |s|
  {
    if |s| > 1 {
      Split(s);
      HeadOfFront(s);
      OldestIsAlone(Front(s));
      NewerIsMember(Front(s), s[0]);
    }
  }

  /** Removing another key makes nothing newer than `keep`. */
  lemma {:induction false} RemoveNewer(s: Order, id: AgentId, keep: AgentId)
    requires NoDuplicates(s) && id != keep
    ensures NewerThan(Remove(s, id), keep) <= NewerThan(s, keep)
    decreases |s|
  {
    if s != [] {
      Split(s);
      RemoveNewer(Front(s), id, keep);
      if Last(s) == id {
        assert NewerThan(s, keep) == {id} + NewerThan(Front(s), keep);
      } else {
        assert Front(Remove(s, id)) == Remove(Front(s), id);
      }
    }
  }

  lemma TouchNewer(s: Order, id: AgentId, keep: AgentId)
    requires NoDuplicates(s)
    ensures NewerThan(Touch(s, id), keep) <= NewerThan(s, keep) + (if id == keep then {} else {id})
  {
    assert Front(Touch(s, id)) == Remove(s, id);
    if id != keep {
      RemoveNewer(s, id, keep);
    }
  }

  /** One operation: `keep` stays, and only the operation's own key can become newer than it, as long
    * as fewer than maxEntries other keys are in play. */
  lemma StepKeeps(s: Order, op: Op, keep: AgentId, seen: set<AgentId>, maxEntries: nat)
    requires NoDuplicates(s) && keep in s && op != Invalidate(keep)
    requires NewerThan(s, keep) <= seen && Others([op], keep) <= seen && |seen| < maxEntries
    ensures keep in OrderAfter(s, op, maxEntries) && NewerThan(OrderAfter(s, op, maxEntries), keep) <= seen
  {
    if !op.Invalidate? && op.id != keep {
      assert [op][0] == op;
      assert op.id in Others([op], keep);
    }
    match op
    case Get(id) => TouchNewer(s, id, keep); TouchKeeps(s, id);
    case Put(id) => PutNewer(s, id, keep, seen, maxEntries);
    case PutIfChanged(id, _) => PutNewer(s, id, keep, seen, maxEntries);
    case Invalidate(id) => RemoveNewer(s, id, keep); RemoveKeeps(s, id);
  }

  lemma PutNewer(s: Order, id: AgentId, keep: AgentId, seen: set<AgentId>, maxEntries: nat)
    requires NoDuplicates(s) && keep in s && NewerThan(s, keep) <= seen && |seen| < maxEntries
    requires id == keep || id in seen
    ensures var t := Touch(MakeRoom(s, id, maxEntries), id); keep in t && NewerThan(t, keep) <= seen
  {
    var m := MakeRoom(s, id, maxEntries);
    RemoveHead(s);
    RemoveKeeps(s, s[0]);
    if |s| >= maxEntries && id !in s {
      if s[0] == keep {
        OldestIsAlone(s);
        NewerIsMember(s, keep);
        SubsetSize(NewerThan(s, keep) + {id}, seen);
      } else {
        RemoveNewer(s, s[0], keep);
      }
    }
    TouchNewer(m, id, keep);
    TouchKeeps(m, id);
  }

  lemma {:induction false} RunKeeps(s: Order, ops: seq<Op>, keep: AgentId, seen: set<AgentId>, maxEntries: nat)
    requires NoDuplicates(s) && |s| <= Capacity(maxEntries) && keep in s
    requires Invalidate(keep) !in ops
    requires NewerThan(s, keep) <= seen && Others(ops, keep) <= seen && |seen| < maxEntries
    ensures keep in OrderAfterAll(s, ops, maxEntries)
    decreases |ops|
  {
    if ops != [] {
      assert ops[0] in ops;
      assert Others([ops[0]], keep) <= Others(ops, keep) by {
        forall x | x in Others([ops[0]], keep) ensures x in Others(ops, keep) {
          assert !ops[0].Invalidate? && ops[0].id == x;
        }
      }
      assert Others(ops[1..], keep) <= Others(ops, keep) by {
        forall x | x in Others(ops[1..], keep) ensures x in Others(ops, keep) {
          var i :| 0 <= i < |ops| - 1 && !ops[1..][i].Invalidate? && ops[1..][i].id == x && x != keep;
          assert ops[i + 1].id == x;
        }
      }
      StepKeeps(s, ops[0], keep, seen, maxEntries);
      OrderStep(s, ops[0], maxEntries);
      RunKeeps(OrderAfter(s, ops[0], maxEntries), ops[1..], keep, seen, maxEntries);
    }
  }

  /** The least-recently-used guarantee, over every run: a key that was just used is still cached as
    * long as it is not invalidated and fewer than `max_entries` other keys are got or put. */
  lemma {:induction false} RecentlyUsedSurvives(s: Order, ops: seq<Op>, keep: AgentId, maxEntries: nat)
    requires NoDuplicates(s) && |s| <= Capacity(maxEntries) && s != [] && s[|s| - 1] == keep
    requires Invalidate(keep) !in ops && |Others(ops, keep)| < maxEntries
    ensures keep in OrderAfterAll(s, ops, maxEntries)
  {
    RunKeeps(s, ops, keep, Others(ops, keep), maxEntries);
  }

  // ---------------------------------------------------------------------------------------------
  // The cache as the source runs it
  // ---------------------------------------------------------------------------------------------

  datatype Card = Card(fingerprint: nat, cosmetic: string)

  datatype Entry = Entry(card: Card, fetchedAt: int, etag: Option<string>, ttl: int, refreshCount: nat,
                         unchangedCount: nat, changeRate: real, accessCount: nat, lruClock: nat)

  function Promoted(e: Entry, tick: nat): Entry {
    e.(accessCount := e.accessCount + 1, lruClock := tick)
  }

  /** The entry a put stores: the estimate and the counters of the old one live on. */
  function Fetched(config: Config, entries: map<AgentId, Entry>, id: AgentId, card: Card, etag: Option<string>,
                   now: int, tick: nat): Entry
  {
    var rate := if id in entries then entries[id].changeRate else config.initialChangeRate;
    Entry(card, now, etag, config.ttlFor(rate),
          if id in entries then entries[id].refreshCount + 1 else 1,
          if id in entries then entries[id].unchangedCount else 0, rate, 0, tick)
  }

  /** A cosmetic refresh: the stamp stays, the estimated change rate moves down. */
  function Refreshed(config: Config, e: Entry, card: Card, etag: Option<string>, now: int): Entry {
    var observed := 1.0 - (e.unchangedCount + 1) as real / (e.refreshCount + 1) as real;
    var rate := e.changeRate * (1.0 - 0.1) + observed * 0.1;
    e.(card := card, fetchedAt := now, etag := etag, unchangedCount := e.unchangedCount + 1,
       refreshCount := e.refreshCount + 1, changeRate := rate, ttl := config.ttlFor(rate))
  }

  /** A change that was seen: the estimated change rate moves up. */
  function SeenChanged(config: Config, e: Entry): Entry {
    var rate := e.changeRate * (1.0 - 0.3) + 0.1 * 0.3;
    e.(changeRate := rate, ttl := config.ttlFor(rate))
  }

  /** The entries that are left when id has to be put: without the oldest one when the cache is full. */
  function WithRoom(entries: map<AgentId, Entry>, order: Order, id: AgentId, maxEntries: nat): map<AgentId, Entry> {
    if |order| >= maxEntries && id !in order && order != [] then entries - {order[0]} else entries
  }

  datatype Config = Config(initialChangeRate: real, ttlFor: real -> int, maxStaleness: int, maxEntries: nat)

  /** The stamps of the entries, in recency order, increase up to the bound; nothing else is cached. */
  ghost predicate Stamped(entries: map<AgentId, Entry>, order: Order, bound: nat)
    decreases |order|
  {
    if order == [] then entries == map[]
    else
      && Last(order) in entries && entries[Last(order)].lruClock < bound
      && Stamped(entries - {Last(order)}, Front(order), entries[Last(order)].lruClock)
  }

  lemma {:induction false} StampedKeys(entries: map<AgentId, Entry>, order: Order, bound: nat)
    requires Stamped(entries, order, bound)
    ensures NoDuplicates(order) && |entries| == |order|
    ensures forall id :: id in entries <==> id in order
    decreases |order|
  {
    if order != [] {
      Split(order);
      StampedKeys(entries - {Last(order)}, Front(order), entries[Last(order)].lruClock);
      assert entries.Keys == (entries - {Last(order)}).Keys + {Last(order)};
    }
  }

  lemma StampedLater(entries: map<AgentId, Entry>, order: Order, bound: nat, bound': nat)
    requires Stamped(entries, order, bound) && bound <= bound'
    ensures Stamped(entries, order, bound')
  {}

  lemma {:induction false} StampedRemove(entries: map<AgentId, Entry>, order: Order, bound: nat, id: AgentId)
    requires Stamped(entries, order, bound)
    ensures Stamped(entries - {id}, Remove(order, id), bound)
    decreases |order|
  {
    if order == [] {
      assert entries - {id} == entries;
    } else {
      var last := Last(order);
      var b := entries[last].lruClock;
      if last == id {
        StampedLater(entries - {id}, Front(order), b, bound);
      } else {
        StampedRemove(entries - {last}, Front(order), b, id);
        assert (entries - {last}) - {id} == (entries - {id}) - {last};
        assert Front(Remove(order, id)) == Remove(Front(order), id);
      }
    }
  }

  lemma StampedTouch(entries: map<AgentId, Entry>, order: Order, clock: nat, id: AgentId, e: Entry)
    requires Stamped(entries, order, clock) && e.lruClock == clock
    ensures Stamped(entries[id := e], Touch(order, id), clock + 1)
  {
    StampedRemove(entries, order, clock, id);
    assert entries[id := e] - {id} == entries - {id};
    assert Front(Touch(order, id)) == Remove(order, id);
  }

  /** Changing an entry without touching its stamp changes no order. */
  lemma {:induction false} StampedRefresh(entries: map<AgentId, Entry>, order: Order, bound: nat, id: AgentId, e: Entry)
    requires Stamped(entries, order, bound) && id in entries && e.lruClock == entries[id].lruClock
    ensures Stamped(entries[id := e], order, bound)
    decreases |order|
  {
    if order != [] {
      var last := Last(order);
      if last == id {
        assert entries[id := e] - {id} == entries - {id};
      } else {
        StampedRefresh(entries - {last}, Front(order), entries[last].lruClock, id, e);
        assert entries[id := e] - {last} == (entries - {last})[id := e];
      }
    }
  }

  /** The head of the recency list has the smallest stamp, strictly. */
  lemma {:induction false} HeadIsSmallest(entries: map<AgentId, Entry>, order: Order, bound: nat, k: AgentId)
    requires Stamped(entries, order, bound) && k in entries
    ensures order != [] && order[0] in entries && entries[order[0]].lruClock < bound
    ensures k != order[0] ==> entries[order[0]].lruClock < entries[k].lruClock
    decreases |order|
  {
    var last := Last(order);
    var rest := entries - {last};
    if Front(order) == [] {
      assert k in rest || k == last;
    } else {
      assert Front(order)[0] == order[0];
      var x := if k == last then Last(Front(order)) else k;
      HeadIsSmallest(rest, Front(order), entries[last].lruClock, x);
    }
  }

  /** Only the entry of the same agent matters. */
  lemma SameFetched(config: Config, before: map<AgentId, Entry>, after: map<AgentId, Entry>, id: AgentId, card: Card,
                    etag: Option<string>, now: int, tick: nat)
    requires id in before <==> id in after
    requires id in before ==> before[id] == after[id]
    ensures Fetched(config, before, id, card, etag, now, tick) == Fetched(config, after, id, card, etag, now, tick)
  {}

  // What an entry remembers ---------------------------------------------------------------------------------

  /** What can happen to one cached entry, with the tick drawn where it counts as a use. */
  datatype Touching =
    | Fetch(card: Card, etag: Option<string>, now: int, tick: nat)    // put
    | Change(card: Card, etag: Option<string>, now: int, tick: nat)   // put_if_changed, structural
    | Same(card: Card, etag: Option<string>, now: int)                // put_if_changed, cosmetic
    | Look(tick: nat)

  function EntryAfter(config: Config, e: Entry, id: AgentId, x: Touching): Entry {
    match x
    case Fetch(card, etag, now, tick) => Fetched(config, map[id := e], id, card, etag, now, tick)
    case Change(card, etag, now, tick) => SeenChanged(config, Fetched(config, map[id := e], id, card, etag, now, tick))
    case Same(card, etag, now) => Refreshed(config, e, card, etag, now)
    case Look(tick) => Promoted(e, tick)
  }

  /** A new entry, and what happened to it since. */
  function EntryBy(config: Config, id: AgentId, first: Touching, xs: seq<Touching>): Entry
    requires first.Fetch?
    decreases |xs|
  {
    if xs == [] then Fetched(config, map[], id, first.card, first.etag, first.now, first.tick)
    else EntryAfter(config, EntryBy(config, id, first, xs[..|xs| - 1]), id, xs[|xs| - 1])
  }

  function LastRefresh(first: Touching, xs: seq<Touching>): (x: Touching)
    requires first.Fetch?
    ensures !x.Look?
    decreases |xs|
  {
    if xs == [] then first
    else if xs[|xs| - 1].Look? then LastRefresh(first, xs[..|xs| - 1]) else xs[|xs| - 1]
  }

  function LastTick(first: Touching, xs: seq<Touching>): nat
    requires first.Fetch?
    decreases |xs|
  {
    if xs == [] then first.tick
    else if xs[|xs| - 1].Same? then LastTick(first, xs[..|xs| - 1]) else xs[|xs| - 1].tick
  }

  /** Lookups since the last fetch or change. */
  function Looks(xs: seq<Touching>): nat
    decreases |xs|
  {
    if xs == [] || xs[|xs| - 1].Fetch? || xs[|xs| - 1].Change? then 0
    else Looks(xs[..|xs| - 1]) + if xs[|xs| - 1].Look? then 1 else 0
  }

  function Refreshes(xs: seq<Touching>): nat
    decreases |xs|
  {
    if xs == [] then 0 else Refreshes(xs[..|xs| - 1]) + if xs[|xs| - 1].Look? then 0 else 1
  }

  function Sames(xs: seq<Touching>): nat
    decreases |xs|
  {
    if xs == [] then 0 else Sames(xs[..|xs| - 1]) + if xs[|xs| - 1].Same? then 1 else 0
  }

  /** Over every run: an entry holds the card, the ETag and the time of its last refresh, of any kind; its stamp
    * is the tick of its last use; its counters are the numbers of refreshes, of cosmetic ones, and of lookups
    * since it was last fetched; and its TTL is that of its estimated change rate. */
  lemma {:induction false} EntryFollowsHistory(config: Config, id: AgentId, first: Touching, xs: seq<Touching>)
    requires first.Fetch?
    ensures var e, last := EntryBy(config, id, first, xs), LastRefresh(first, xs);
      && e.card == last.card && e.etag == last.etag && e.fetchedAt == last.now && e.lruClock == LastTick(first, xs)
      && e.refreshCount == 1 + Refreshes(xs) && e.unchangedCount == Sames(xs) && e.accessCount == Looks(xs)
      && e.ttl == config.ttlFor(e.changeRate)
    decreases |xs|
  {
    if xs != [] { EntryFollowsHistory(config, id, first, xs[..|xs| - 1]); }
  }

  /** The estimate starts at the configured rate and is left alone by fetches and lookups; a change takes it
    * three tenths of the way to 0.1, a cosmetic refresh one tenth of the way to the share of refreshes that
    * brought something new. */
  lemma RateMoves(config: Config, e: Entry, id: AgentId, x: Touching)
    ensures x.Fetch? || x.Look? ==> EntryAfter(config, e, id, x).changeRate == e.changeRate
    ensures x.Change? ==> 10.0 * (EntryAfter(config, e, id, x).changeRate - 0.1) == 7.0 * (e.changeRate - 0.1)
    ensures x.Same? && e.unchangedCount <= e.refreshCount ==>
      var news := (e.refreshCount - e.unchangedCount) as real / (e.refreshCount + 1) as real;
      10.0 * (EntryAfter(config, e, id, x).changeRate - news) == 9.0 * (e.changeRate - news)
    ensures x.Fetch? ==> EntryBy(config, id, x, []).changeRate == config.initialChangeRate
  {
    if x.Same? && e.unchangedCount <= e.refreshCount {
      var n, k := (e.refreshCount + 1) as real, (e.unchangedCount + 1) as real;
      assert (e.refreshCount - e.unchangedCount) as real == n - k;
      ShareLeft(n, k);
    }
  }

  lemma ShareLeft(n: real, k: real)
    requires n > 0.0
    ensures (n - k) / n == 1.0 - k / n
  {
    var x, y := (n - k) / n, 1.0 - k / n;
    assert x * n == n - k && y * n == n - k;
    if x != y { ProductsDiffer(x, y, n); }
  }

  lemma ProductsDiffer(x: real, y: real, n: real)
    requires n > 0.0 && x != y
    ensures x * n != y * n
  {
    assert (x - y) * n == x * n - y * n;
    if x < y { assert (y - x) * n > 0.0; } else { assert (x - y) * n > 0.0; }
  }

  class DiscoveryCache {
    const config: Config
    var entries: map<AgentId, Entry>
    var globalClock: nat
    var totalLookups: nat
    var cacheHits: nat
    var cacheMisses: nat
    var staleServed: nat
    ghost var order: Order

    ghost predicate Valid()
      reads this
    {
      && Stamped(entries, order, globalClock) && |order| <= Capacity(config.maxEntries)
      && totalLookups == cacheHits + staleServed + cacheMisses
    }

    constructor (config: Config)
      ensures Valid() && this.config == config && entries == map[] && order == []
      ensures totalLookups == cacheHits == cacheMisses == staleServed == 0
    {
      this.config := config;
      entries, order, globalClock := map[], [], 0;
      totalLookups, cacheHits, cacheMisses, staleServed := 0, 0, 0, 0;
    }

    /** Stores an entry under the next clock tick, which makes it the most recently used one. */
    method Stamp(id: AgentId, e: Entry)
      requires Stamped(entries, order, globalClock) && e.lruClock == globalClock
      modifies this`entries, this`globalClock, this`order
      ensures Stamped(entries, order, globalClock)
      ensures entries == old(entries)[id := e] && order == Touch(old(order), id) && globalClock == old(globalClock) + 1
    {
      StampedTouch(entries, order, globalClock, id, e);
      globalClock := globalClock + 1;
      entries := entries[id := e];
      order := Touch(order, id);
    }

    /** A lookup: fresh entries hit, expired ones are served while within the staleness bound, and
      * every entry found is promoted, served or not. */
    method Get(id: AgentId, now: int) returns (card: Option<Card>)
      requires Valid()
      modifies this
      ensures Valid() && order == OrderAfter(old(order), Op.Get(id), config.maxEntries)
      ensures entries == if id in old(entries) then old(entries)[id := Promoted(old(entries)[id], old(globalClock))]
                         else old(entries)
      ensures totalLookups == old(totalLookups) + 1
      ensures if id in old(entries) && now - old(entries)[id].fetchedAt <= old(entries)[id].ttl
              then card == Some(old(entries)[id].card) && cacheHits == old(cacheHits) + 1 && staleServed == old(staleServed)
              else if id in old(entries) && now - old(entries)[id].fetchedAt < config.maxStaleness
              then card == Some(old(entries)[id].card) && staleServed == old(staleServed) + 1 && cacheHits == old(cacheHits)
              else card == None && cacheMisses == old(cacheMisses) + 1
    {
      StampedKeys(entries, order, globalClock);
      OrderStep(order, Op.Get(id), config.maxEntries);
      totalLookups := totalLookups + 1;
      if id in entries {
        var e := entries[id];
        Stamp(id, Promoted(e, globalClock));
        if !(now - e.fetchedAt > e.ttl) {
          cacheHits := cacheHits + 1;
          return Some(e.card);
        }
        if now - e.fetchedAt < config.maxStaleness {
          staleServed := staleServed + 1;
          return Some(e.card);
        }
      }
      cacheMisses := cacheMisses + 1;
      return None;
    }

    method MakeRoomFor(id: AgentId)
      requires Stamped(entries, order, globalClock) && |entries| == |order|
      modifies this`entries, this`order
      ensures Stamped(entries, order, globalClock) && order == MakeRoom(old(order), id, config.maxEntries)
      ensures entries == WithRoom(old(entries), old(order), id, config.maxEntries)
      ensures id in entries <==> id in old(entries)
      ensures id in entries ==> entries[id] == old(entries)[id]
    {
      StampedKeys(entries, order, globalClock);
      if |entries| >= config.maxEntries && id !in entries {
        EvictOldest();
      }
    }

    /** Inserts or replaces; a full cache first loses its least recently used entry. */
    method Put(id: AgentId, card: Card, etag: Option<string>, now: int)
      requires Valid()
      modifies this`entries, this`globalClock, this`order
      ensures Valid() && order == OrderAfter(old(order), Op.Put(id), config.maxEntries)
      ensures entries == WithRoom(old(entries), old(order), id, config.maxEntries)
                           [id := Fetched(config, old(entries), id, card, etag, now, old(globalClock))]
    {
      StampedKeys(entries, order, globalClock);
      OrderStep(order, Op.Put(id), config.maxEntries);
      MakeRoomFor(id);
      var e := FetchedEntry(id, card, etag, now);
      SameFetched(config, old(entries), entries, id, card, etag, now, globalClock);
      Stamp(id, e);
    }

    /** The entry a put stores. */
    method FetchedEntry(id: AgentId, card: Card, etag: Option<string>, now: int) returns (e: Entry)
      ensures e == Fetched(config, entries, id, card, etag, now, globalClock)
    {
      var rate := if id in entries then entries[id].changeRate else config.initialChangeRate;
      var ttl := config.ttlFor(rate);
      var refreshed := if id in entries then entries[id].refreshCount + 1 else 1;
      var same := if id in entries then entries[id].unchangedCount else 0;
      e := Entry(card, now, etag, ttl, refreshed, same, rate, 0, globalClock);
    }

    /** Removes exactly the entry with the smallest stamp, which is the head of the recency list. */
    method EvictOldest()
      requires Stamped(entries, order, globalClock)
      modifies this`entries, this`order
      ensures Stamped(entries, order, globalClock)
      ensures order == if old(order) == [] then [] else old(order)[1..]
      ensures entries == if old(order) == [] then old(entries) else old(entries) - {old(order)[0]}
    {
      if entries == map[] {
        StampedKeys(entries, order, globalClock);
        return;
      }
      var oldest :| oldest in entries;
      var left := entries.Keys - {oldest};
      while left != {}
        invariant oldest in entries && left <= entries.Keys
        invariant forall k :: k in entries && k !in left ==> entries[oldest].lruClock <= entries[k].lruClock
        decreases left
      {
        var k :| k in left;
        left := left - {k};
        if entries[k].lruClock < entries[oldest].lruClock {
          oldest := k;
        }
      }
      StampedKeys(entries, order, globalClock);
      HeadIsSmallest(entries, order, globalClock, oldest);
      StampedRemove(entries, order, globalClock, oldest);
      RemoveHead(order);
      entries := entries - {oldest};
      order := order[1..];
    }

    /** Replaces a card; a merely cosmetic change of a cached card is not a use and not a change. */
    method PutIfChanged(id: AgentId, card: Card, etag: Option<string>, now: int) returns (changed: bool)
      requires Valid()
      modifies this`entries, this`globalClock, this`order
      ensures Valid()
      ensures changed <==> (id in old(entries) ==> old(entries)[id].card.fingerprint != card.fingerprint)
      ensures order == OrderAfter(old(order), Op.PutIfChanged(id, changed), config.maxEntries)
      ensures entries ==
                if changed then WithRoom(old(entries), old(order), id, config.maxEntries)
                     [id := SeenChanged(config, Fetched(config, old(entries), id, card, etag, now, old(globalClock)))]
                else old(entries)[id := Refreshed(config, old(entries)[id], card, etag, now)]
    {
      StampedKeys(entries, order, globalClock);
      if id in entries && entries[id].card.fingerprint == card.fingerprint {
        RefreshInPlace(id, card, etag, now);
        return false;
      }
      Put(id, card, etag, now);
      RecordChanged(id);
      return true;
    }

    method RefreshInPlace(id: AgentId, card: Card, etag: Option<string>, now: int)
      requires Valid() && id in entries
      modifies this`entries
      ensures Valid() && entries == old(entries)[id := Refreshed(config, old(entries)[id], card, etag, now)]
    {
      var e := entries[id];
      var same, refreshed := e.unchangedCount + 1, e.refreshCount + 1;
      var observed := 1.0 - same as real / refreshed as real;
      var rate := e.changeRate * (1.0 - 0.1) + observed * 0.1;
      var e' := e.(card := card, fetchedAt := now, etag := etag, unchangedCount := same,
                   refreshCount := refreshed, changeRate := rate, ttl := config.ttlFor(rate));
      StampedRefresh(entries, order, globalClock, id, e');
      entries := entries[id := e'];
    }

    /** A changed card: its estimated change rate moves up, its TTL follows. */
    method RecordChanged(id: AgentId)
      requires Valid()
      modifies this`entries
      ensures Valid()
      ensures entries == if id in old(entries) then old(entries)[id := SeenChanged(config, old(entries)[id])] else old(entries)
    {
      if id in entries {
        var e := entries[id];
        var rate := e.changeRate * (1.0 - 0.3) + 0.1 * 0.3;
        StampedRefresh(entries, order, globalClock, id, e.(changeRate := rate, ttl := config.ttlFor(rate)));
        entries := entries[id := e.(changeRate := rate, ttl := config.ttlFor(rate))];
      }
    }

    method Invalidate(id: AgentId) returns (removed: Option<Entry>)
      requires Valid()
      modifies this`entries, this`order
      ensures Valid() && order == OrderAfter(old(order), Op.Invalidate(id), config.maxEntries)
      ensures entries == old(entries) - {id}
      ensures removed == if id in old(entries) then Some(old(entries)[id]) else None
    {
      StampedKeys(entries, order, globalClock);
      StampedRemove(entries, order, globalClock, id);
      RemoveKeeps(order, id);
      removed := if id in entries then Some(entries[id]) else None;
      entries := entries - {id};
      order := Remove(order, id);
    }
  }
}
