# ClawDesk: proofs about the agent runtime's algorithms and state machines

Dafny models of the self-contained algorithms and protocols of the ClawDesk repository, with proofs of what each
one is for. `dafny verify dfyconfig.toml` checks everything. One module stands for one source file or one part of it:

| module | models |
|---|---|
| `Glob`, `Windows`, `Policy` | the glob matcher, the sliding-window rate limiter and the policy engine |
| `SpscProtocol`, `SpscRing`, `Bits` | the lock-free ring: its atomic steps under interleaving, and its use by one thread |
| `DeliveryLedger`, `Bitmaps` | the two-generation Bloom ledger |
| `RollingHash`, `DeltaStream`, `Modular` | the resumable text stream and its hash modulo 2^61-1 |
| `AgentRegistry` | the lock-file protocol of the agent registry, with crashes |
| `Evaluate` | the retrieval metrics |
| `Discovery`, `LookupRace` | the clock-stamped least-recently-used cache, and its lookups under interleaving |
| `TokenBucket` | the lock-free token bucket and the rate controller |
| `CircuitBreaker`, `ProbeRace` | the windowed circuit breaker, and its probes under interleaving |
| `Taxonomy`, `Capability` | the capability hierarchy, its bit sets and the agent card's cached closure |
| `Router`, `SessionRouter` | the inverted index, capability routing, sticky sessions |
| `Algebra` | graded capability sets, the quality score, taxonomy similarity |
| `Announce` | the timed delivery queue |
| `Agents`, `Sets`, `Wrappers` | shared names, sets and options |

What the source changes in place is a class here; each method is proved against a function of the old state, and the
main results are lemmas about that function over every run. Concurrent parts (`SpscProtocol`, `AgentRegistry`,
`TokenBucket`, `ProbeRace`, `LookupRace`) are state machines whose steps are the source's atomic accesses or
file-system calls. Time is a parameter. Floating-point numbers are reals. Integer widths are explicit where wrap-around or truncation matters
(ring indices, FNV hashing, packed counters, `as u32` and `as i64` casts, the modular hash).

## Where the code differs from what it promises

The model follows the code. Where a promise fails, a lemma gives a failing input and another says exactly when the
promise holds.

- Glob: the literal branch runs before the star branch, so a `*` in the text can consume the pattern's `*`
  (`ExactForText`, `ExactForPattern`).
- Rate limit: the first request is checked when no window exists, so `max_tasks` of 0 grants one
  (`QuotaKeptExactly`, `ZeroQuotaGrantsOne`).
- Registry: the stale-lock check and the removal are separate calls, and the removal deletes whatever file is at the
  path by then. Exclusion holds for runs whose removals hit a file without a live holder; any other removal lets a
  second process in (`ReclaimExactly`, `UncheckedReclaimLosesUpdate`). In one step, check and removal would be safe
  but for the branch that removes a lock without a pid (`AtomicReclaimExactly`).
- Discovery cache: `max_entries` of 0 still holds one entry (`SizeBoundExact`); a cosmetic `put_if_changed` does not
  make an entry recent. Lookups run concurrently, and one that stores its tick late can make its entry older than
  ones used before it (`LateStoreAges`, `AgedExactly`, `OrderOfUseExactly`, `RecencyLostExactly`).
- Token bucket: refills that swap out of clock order credit the same time twice, so that more is granted than the
  rate allows (`TimeHonestExactly`, `LateSwapGrantsTwice`); a negative cost overfills the bucket
  (`CostMustNotBeNegative`).
- Circuit breaker: a trip at clock time 0 never recovers (`StuckExactly`, `FirstMillisecondSticks`); callers that load
  the state before the first compare-exchange all pass as probes, and after a failed probe even before the new
  backoff, while the opening time is not stored yet (`ProbeRace`); the first wait is twice the base,
  because the open count is 1 by then (`BackoffDoubles`); the rounded rate trips from one thousandth above the
  threshold on (`TripsExactly`).
- Router: the candidate lookup uses the listed requirements, not what they imply, and finds nobody for an empty list,
  though every agent scores 1 on it (`FilterCompleteExactly`, `IncompleteFilterMisses`, `AudioMissesMedia`).
- Session router: tripping also marks the agent unhealthy, and neither time nor a recorded success undoes that, so the
  half-open probe that the documentation draws needs a health update or a registration from outside (`OutExactly`,
  `AnswerableByHistory`, `HalfOpenRefuses`). After a health update it is not one probe but any number of requests, as
  `should_allow_probe` is never called (`HalfOpenAdmitsAll`).
- Announcements: a limit of 0 attempts still hands an announcement out once (`LimitHoldsExactly`); a retry is queued
  beyond the capacity (`CapacityHoldsExactly`, `QueueBound`).
- Quality score: requirements without weight do not show in it (`PerfectScoreMeansSatisfied`).

## Model

| member | source | states |
|---|---|---|
| `Glob.GlobMatch` | crates/clawdesk-acp/src/policy.rs:430-472 | The loop with one backtrack point, fast paths included, terminates for every pattern and text and computes `GlobMatches`. |
| `Glob.ScanSound` | crates/clawdesk-acp/src/policy.rs:438-471 | From any loop state whose consumed part matches, an answer of true is a match of the whole. |
| `Glob.GlobMatchesSound` | crates/clawdesk-acp/src/policy.rs:430-472 | For every pattern and text: true only if the recursive meaning of `*` and `?` matches. |
| `Glob.LastStarIsEnough` | crates/clawdesk-acp/src/policy.rs:451-455 | Meeting a further `*`, every match still within reach is within reach of the new star alone. |
| `Glob.ScanComplete` | crates/clawdesk-acp/src/policy.rs:438-471 | For a text without `*`: while a match is within reach the loop ends in true. |
| `Glob.Meaning` | crates/clawdesk-acp/src/policy.rs:430-472 | For every pattern and every text without `*`: true exactly when the recursive meaning matches. |
| `Glob.ExactForText` | crates/clawdesk-acp/src/policy.rs:448-455 | A text is judged rightly by every pattern exactly when it has no `*`: the literal branch runs before the star branch. |
| `Glob.ExactForPattern` | crates/clawdesk-acp/src/policy.rs:431-455 | A pattern judges every text rightly exactly when it is a lone `*` or has no `*`. |
| `Windows.WindowBound` | crates/clawdesk-acp/src/policy.rs:167-192 | If every recorded instant is a whole window after the one `quota` places before it, no window of that length holds more than `quota`. |
| `Windows.SpacedIsNeverOverfull` | crates/clawdesk-acp/src/policy.rs:167-192 | That spacing is equivalent to no window being overfull, wherever the window ends. |
| `Windows.CountsWhileYoung` | crates/clawdesk-acp/src/policy.rs:167-192 | An instant counts from when it is recorded until it is a whole window old. |
| `Policy.RateWindow.EvictExpired` | crates/clawdesk-acp/src/policy.rs:167-179 | Drops exactly the instants that are a whole window old; what is left is the count in the preceding window. |
| `Policy.RateWindow.IsAllowed` | crates/clawdesk-acp/src/policy.rs:182-185 | Allows exactly when the preceding window holds fewer than the quota. |
| `Policy.PolicyEngine.CheckRateLimit` | crates/clawdesk-acp/src/policy.rs:357-378 | Refuses exactly when a window exists and is full; a first request is not checked. |
| `Policy.PolicyEngine.RecordTask` | crates/clawdesk-acp/src/policy.rs:381-400 | Records the grant of a limited requester in its window. |
| `Policy.PolicyEngine.SetPolicy` | crates/clawdesk-acp/src/policy.rs:408-412 | Replaces the policy and forgets all windows. |
| `Policy.PolicyEngine.Evaluate` | crates/clawdesk-acp/src/policy.rs:256-306 | Rate limit, then the first matching rule, then the default; the new state is that of `After`, and only an Allow is recorded. |
| `Policy.FirstMatchUnique` | crates/clawdesk-acp/src/policy.rs:282-305 | The rule applied is the only one that matches with none matching before it. |
| `Policy.FirstRule` | crates/clawdesk-acp/src/policy.rs:282-354 | For names without `*`: a first rule has no effect unless the requester and the target match their own patterns, the skill is given and matches, and the source is of a listed type, all by the meaning of the patterns; when they do, it decides. |
| `Policy.VerdictExactly` | crates/clawdesk-acp/src/policy.rs:282-305 | For names without `*`: the first rule that concerns the request in that sense decides it, with its effect and its reason; where none does, the default. |
| `Policy.OwnLimitFirst` | crates/clawdesk-acp/src/policy.rs:357-378 | After every run, a request is limited by the requester's own limit, by the global one only where it has none, and before any rule; the answer gives the window. |
| `Policy.GrantsAreAllows` | crates/clawdesk-acp/src/policy.rs:256-306 | Over every run, the grants a limit counts are exactly the requester's Allow answers since the last reload. |
| `Policy.RunsKeepGood` | crates/clawdesk-acp/src/policy.rs:256-412 | Over every run of requests and reloads, every requester's log since the last reload keeps the spacing. |
| `Policy.WindowNeverOverfull` | crates/clawdesk-acp/src/policy.rs:147-192 | Over every run: no half-open window holds more Allow answers of a limited requester since the last reload than its quota (at least 1). |
| `Policy.RateLimitedMeansFull` | crates/clawdesk-acp/src/policy.rs:357-378 | After every run RateLimited is answered exactly when the preceding window really holds the quota, and then it holds exactly that many. |
| `Policy.QuotaKeptExactly` | crates/clawdesk-acp/src/policy.rs:357-400 | The configured quota is kept over every run exactly when it is at least 1, or the window is empty, or the rules never allow the requester. |
| `Policy.ZeroQuotaGrantsOne` | crates/clawdesk-acp/src/policy.rs:367-372 | A quota of 0 still grants the first allowed request. |
| `Bits.MaskAfterWrap` | crates/clawdesk-acp/src/streaming.rs:232-257 | Masking a wrapped 64-bit index gives the true index modulo the capacity, because the capacity is a power of two. |
| `Bits.WrappedDistance` | crates/clawdesk-acp/src/streaming.rs:232-257 | The wrapping difference of the two indices is the true number of events held. |
| `SpscProtocol.StepKeepsInv` | crates/clawdesk-acp/src/streaming.rs:178-257 | Every atomic step of either thread, with stale reads of the other index and wrapping indices, keeps the invariant. |
| `SpscProtocol.NothingLostOrDuplicated` | crates/clawdesk-acp/src/streaming.rs:232-257 | In every reachable state the popped events are a prefix of the accepted ones, in order; at most `capacity` are held. |
| `SpscProtocol.NoSlotRace` | crates/clawdesk-acp/src/streaming.rs:232-257 | The slot about to be written holds no accepted event, and the two threads never touch the same slot at once. |
| `SpscProtocol.RefusalsAreHonest` | crates/clawdesk-acp/src/streaming.rs:232-257 | A push is refused exactly when the head it read leaves a full ring; a pop finds nothing exactly when every visible push was popped. |
| `SpscProtocol.CallsAreShort` | crates/clawdesk-acp/src/streaming.rs:232-257 | For every interleaving, no push and no pop takes its thread more than four atomic steps. |
| `SpscProtocol.PushAlone` | crates/clawdesk-acp/src/streaming.rs:232-243 | From every reachable state, wherever the consumer stands, the producer alone completes a push: four steps while there is room, two when refused. |
| `SpscProtocol.PopAlone` | crates/clawdesk-acp/src/streaming.rs:246-257 | Likewise the consumer alone: four steps to take the oldest event, two when there is none. |
| `SpscRing.Ring.constructor` | crates/clawdesk-acp/src/streaming.rs:197-209 | An empty ring whose capacity is the least power of two that is at least the request and at least 2. |
| `SpscRing.Ring.TryPush` | crates/clawdesk-acp/src/streaming.rs:232-243 | Appends the event unless the ring is full. |
| `SpscRing.Ring.TryPop` | crates/clawdesk-acp/src/streaming.rs:246-257 | Removes and returns the oldest event, if any. |
| `SpscRing.Ring.ForcePush` | crates/clawdesk-acp/src/streaming.rs:260-265 | Drops and returns the oldest event if there is one, then the push succeeds. |
| `SpscRing.Ring.DrainStale` | crates/clawdesk-acp/src/streaming.rs:401-433 | Removes exactly the stale prefix, in order, and stops at the first fresh event. |
| `SpscRing.Ring.IsFull` | crates/clawdesk-acp/src/streaming.rs:221-223 | True exactly when `capacity` events are held. |
| `SpscRing.Ring.Len` | crates/clawdesk-acp/src/streaming.rs:213-217 | The number of events held, across index wrap-around. |
| `DeliveryLedger.TestAll` | crates/clawdesk-acp/src/streaming.rs:545-554 | True exactly when all probed bits are set. |
| `DeliveryLedger.SetAll` | crates/clawdesk-acp/src/streaming.rs:558-564 | Adds exactly the probed bits. |
| `DeliveryLedger.Ledger.MarkDelivered` | crates/clawdesk-acp/src/streaming.rs:571-593 | True exactly when neither bitmap covers the key; the bitmaps stay those of the two generations of keys, across rotations. |
| `DeliveryLedger.Ledger.Rotate` | crates/clawdesk-acp/src/streaming.rs:580-586 | Swaps the bitmaps and clears the new current one; the generations move with them. |
| `DeliveryLedger.Ledger.IsDelivered` | crates/clawdesk-acp/src/streaming.rs:597-600 | Reports whether either generation covers the key. |
| `DeliveryLedger.RunsKeepTail` | crates/clawdesk-acp/src/streaming.rs:571-593 | Over every run the two generations are the tail of the accepted keys, of length more than `max_entries` after the first rotation. |
| `DeliveryLedger.NoFalseNegatives` | crates/clawdesk-acp/src/streaming.rs:571-600 | An accepted key is still reported delivered while at most `max_entries` further keys have been accepted. |
| `DeliveryLedger.TotalCountsAccepted` | crates/clawdesk-acp/src/streaming.rs:571-593 | `total_deliveries` is the number of true answers. |
| `DeliveryLedger.AcceptedOncePerWindow` | crates/clawdesk-acp/src/streaming.rs:571-593 | No key is accepted again before more than `max_entries` other acceptances. |
| `DeliveryLedger.PositionsAre` | crates/clawdesk-acp/src/streaming.rs:521-541 | The seven positions are h1 + i x h2 in 64-bit arithmetic, reduced to the bitmap. |
| `DeliveryLedger.FnvStarts` | crates/clawdesk-acp/src/streaming.rs:521-541 | The hash starts at its seed and multiplies by the FNV prime for each byte. |
| `DeliveryLedger.FnvTellsLast` | crates/clawdesk-acp/src/streaming.rs:521-541 | Keys that differ in the last byte alone never have the same hash. |
| `DeliveryLedger.KnownIsCovered` | crates/clawdesk-acp/src/streaming.rs:571-600 | A key is reported delivered only if each of its positions is one of an accepted key within the last 2 x `max_entries`. |
| `DeliveryLedger.FreshLedger` | crates/clawdesk-acp/src/streaming.rs:503-516 | A new ledger has ten bits for each entry, at least 64, and reports nothing delivered. |
| `RollingHash.ModPow` | crates/clawdesk-acp/src/delta_stream.rs:454-470 | The squaring loop computes base^exp mod 2^61-1, for every base and exponent. |
| `RollingHash.HashBytes` | crates/clawdesk-acp/src/delta_stream.rs:431-435 | The loop computes Horner's polynomial modulo 2^61-1. |
| `RollingHash.HashOfTwo` | crates/clawdesk-acp/src/delta_stream.rs:340-377 | The base is 131, on the two-byte text. |
| `RollingHash.ModulusIsMersenne` | crates/clawdesk-acp/src/delta_stream.rs:340-352 | The modulus is 2^61-1. |
| `RollingHash.PolyIsWeightedSum` | crates/clawdesk-acp/src/delta_stream.rs:354-377 | Horner's rule is the documented sum of bytes times powers of 131. |
| `RollingHash.ModMulFits` | crates/clawdesk-acp/src/delta_stream.rs:441-443 | The 128-bit product of two 64-bit operands never overflows. |
| `RollingHash.AppendedTracks` | crates/clawdesk-acp/src/delta_stream.rs:404-413 | Appending to the state of a text gives the hash and power of the longer text. |
| `RollingHash.EverySplitHashesAlike` | crates/clawdesk-acp/src/delta_stream.rs:404-413 | However a text is cut into chunks, appending them gives the hash and the power of the whole. |
| `RollingHash.Roller.Append` | crates/clawdesk-acp/src/delta_stream.rs:404-413 | The in-place append is the step the two lemmas are about. |
| `DeltaStream.DeltaEncoder.Push` | crates/clawdesk-acp/src/delta_stream.rs:107-145 | Emits the delta with the next number, offset and hash, and takes a checkpoint at the interval, keeping the last 50. |
| `DeltaStream.DeltaEncoder.CheckpointAtOrBefore` | crates/clawdesk-acp/src/delta_stream.rs:174-179 | The last retained checkpoint at or before a sequence number. |
| `DeltaStream.DeltaDecoder.Apply` | crates/clawdesk-acp/src/delta_stream.rs:248-300 | Duplicates are ignored; append, insert, pad and finish change text, hash and counters as `Applied` says. |
| `DeltaStream.DeltaDecoder.TakeCheckpoint` | crates/clawdesk-acp/src/delta_stream.rs:328-335 | The decoder's own checkpoint: last number, text length, hash and power. |
| `DeltaStream.EncoderTracks` | crates/clawdesk-acp/src/delta_stream.rs:107-160 | Over every run the encoder holds the text and the call count, and its retained checkpoints are true and in order. |
| `DeltaStream.EmittedDelta` | crates/clawdesk-acp/src/delta_stream.rs:107-160 | What each call emits is the delta the round trip is about. |
| `DeltaStream.ApplyKeepsSync` | crates/clawdesk-acp/src/delta_stream.rs:257-299 | On every path the decoder's hash stays the hash of its text. |
| `DeltaStream.MismatchMeansDifferentText` | crates/clawdesk-acp/src/delta_stream.rs:285-299 | A counted mismatch means the texts differ. |
| `DeltaStream.RoundTrip` | crates/clawdesk-acp/src/delta_stream.rs:107-160 | First copies in order, older deltas repeated anywhere: the decoder ends with the encoder's text and hash and no mismatch. |
| `DeltaStream.Resumption` | crates/clawdesk-acp/src/delta_stream.rs:174-242 | A decoder resumed from any retained checkpoint and its prefix, then fed the later deltas, reaches the same text and hash with no mismatch. |
| `DeltaStream.ClosestCheckpoint` | crates/clawdesk-acp/src/delta_stream.rs:174-179 | The lookup finds the closest retained checkpoint, and none only when none is that old. |
| `DeltaStream.CheckpointsExactly` | crates/clawdesk-acp/src/delta_stream.rs:107-145 | Over every run the encoder retains exactly the last 50 of the checkpoints due after pushes at positive multiples of the interval. |
| `DeltaStream.AppliedBytes` | crates/clawdesk-acp/src/delta_stream.rs:248-299 | For every delta that is neither skipped nor final, every byte: the old ones before the offset, spaces up to it, the piece, the old rest behind it. |
| `DeltaStream.AppliedRest` | crates/clawdesk-acp/src/delta_stream.rs:248-299 | An old delta changes nothing; a final one leaves the text; a mismatch is counted exactly when the text does not have the hash sent. |
| `DeltaStream.LossIsBlank` | crates/clawdesk-acp/src/delta_stream.rs:248-299 | For every schedule, with deltas lost, repeated or out of order: the encoder's text up to the last push accepted, with each chunk not accepted replaced by spaces, and its hash. |
| `DeltaStream.NothingBlank` | crates/clawdesk-acp/src/delta_stream.rs:248-299 | Where no push is lost, that is the encoder's text. |
| `DeltaStream.CountsApplied` | crates/clawdesk-acp/src/delta_stream.rs:225-299 | The count of applied deltas is the number of pushes accepted from the schedule, from 0, for a new decoder and a resumed one. |
| `AgentRegistry.StepKeepsInv` | crates/clawdesk-agents/src/agent_registry.rs:128-191 | Every file-system step and every crash keeps the invariant, if a removed lock has no live holder. |
| `AgentRegistry.MutualExclusion` | crates/clawdesk-agents/src/agent_registry.rs:338-399 | Over every such run at most one live process is inside the locked section. |
| `AgentRegistry.RegistryIsFoldOfCommits` | crates/clawdesk-agents/src/agent_registry.rs:128-191 | The registry file is always the fold of the committed mutations in rename order, whole, with their number as its version. |
| `AgentRegistry.ReadsAreConsistent` | crates/clawdesk-agents/src/agent_registry.rs:95-121 | What a process reads or caches is the registry after some prefix of the commits. |
| `AgentRegistry.NoUpdateLost` | crates/clawdesk-agents/src/agent_registry.rs:128-191 | Whatever the registry file held at some point of such a run, it later holds that with the mutations committed since on top. |
| `AgentRegistry.FileFollowsHistory` | crates/clawdesk-agents/src/agent_registry.rs:193-301 | Over every such run, agent by agent: in the file exactly when registered and not collected since; state, output, error and completion time are those of the last committed mutation that set them. |
| `AgentRegistry.CommitsAreAsked` | crates/clawdesk-agents/src/agent_registry.rs:128-191 | Over every run, careful or not, the committed mutations are those the processes asked for, in the order of the renames. |
| `AgentRegistry.GcExactly` | crates/clawdesk-agents/src/agent_registry.rs:275-301 | A collection drops exactly the agents in a terminal state that were completed at or before the cutoff, and changes no other. |
| `AgentRegistry.ReclaimExactly` | crates/clawdesk-agents/src/agent_registry.rs:345-394 | A removal can be followed by two live processes inside, with no further careless removal, exactly when the file it removed had a live holder. |
| `AgentRegistry.AtomicReclaimExactly` | crates/clawdesk-agents/src/agent_registry.rs:345-368 | Were check and removal one step, a removal would hit a live holder exactly in the branch for a missing pid, while the live creator is about to write it. |
| `AgentRegistry.DeadHolderStaysSafe` | crates/clawdesk-agents/src/agent_registry.rs:345-394 | A lock file of a dead process stays safe to remove for as long as it is the file at the path. |
| `AgentRegistry.UncheckedReclaimLosesUpdate` | crates/clawdesk-agents/src/agent_registry.rs:345-394 | A run of the source's own check and removal, for any two mutations, after which two processes are inside and one update is lost. |
| `Evaluate.LcsTable` | bench/evaluate.py:104-113 | The nested loops fill a table whose last cell is `Lcs`. |
| `Evaluate.LcsAchieved` | bench/evaluate.py:104-113 | Some common subsequence has that length. |
| `Evaluate.LcsLongest` | bench/evaluate.py:104-113 | No common subsequence is longer. |
| `Evaluate.F1Value` | bench/evaluate.py:49-55 | F1 of c common tokens is 2c / (n + m). |
| `Evaluate.RougeLF1` | bench/evaluate.py:91-122 | The function computes `RougeL`, empty lists included. |
| `Evaluate.RougeAtMostTokenF1` | bench/evaluate.py:38-122 | For all inputs 0 <= ROUGE-L <= token F1 <= 1. |
| `Evaluate.PerfectScores` | bench/evaluate.py:38-122 | ROUGE-L is 1 exactly for equal lists, token F1 exactly for equal multisets. |
| `Evaluate.ZeroScores` | bench/evaluate.py:38-122 | The two metrics are zero together. |
| `Evaluate.CommonCounts` | bench/evaluate.py:46-47 | A further token counts as common while the other list has another copy of it. |
| `Evaluate.RecallAtK` | bench/evaluate.py:58-72 | 1 exactly when a relevant result is in the slice, negative k included. |
| `Evaluate.MeanReciprocalRank` | bench/evaluate.py:75-88 | The reciprocal rank of the first relevant result, else 0. |
| `Evaluate.RecallIsRank` | bench/evaluate.py:58-88 | For k >= 1: recall at k is 1 exactly when the reciprocal rank is at least 1/k. |
| `Evaluate.RelevantExactly` | bench/evaluate.py:67-72 | A result is relevant exactly when it has content and the truth occurs in its normalized form. |
| `Evaluate.RankValue` | bench/evaluate.py:75-88 | The first relevant result at rank i gives 1/i, none gives 0. |
| `Evaluate.RecallLooksAt` | bench/evaluate.py:68-72 | Recall looks at the first k results; for a negative k at all but the last -k. |
| `Discovery.DiscoveryCache.Get` | crates/clawdesk-acp/src/discovery.rs:203-228 | Hit, stale serve or miss; every entry found becomes the most recent; lookups = hits + stale serves + misses. |
| `Discovery.DiscoveryCache.Put` | crates/clawdesk-acp/src/discovery.rs:238-276 | Makes room if full, then stores the entry as the most recent. |
| `Discovery.DiscoveryCache.PutIfChanged` | crates/clawdesk-acp/src/discovery.rs:334-362 | A structural change is a put; a cosmetic one refreshes in place and is not a use. |
| `Discovery.DiscoveryCache.EvictOldest` | crates/clawdesk-acp/src/discovery.rs:392-402 | The scan removes exactly the head of the recency list. |
| `Discovery.DiscoveryCache.Invalidate` | crates/clawdesk-acp/src/discovery.rs:365-367 | Removes the entry from map and list. |
| `Discovery.HeadIsSmallest` | crates/clawdesk-acp/src/discovery.rs:392-402 | The least recently used entry has strictly the smallest stamp. |
| `Discovery.SizeBoundExact` | crates/clawdesk-acp/src/discovery.rs:238-276 | Every run stays within `max_entries` exactly when that is at least 1. |
| `Discovery.RecentlyUsedSurvives` | crates/clawdesk-acp/src/discovery.rs:203-276 | Over every run, a key just used is still cached while fewer than `max_entries` other keys are used and it is not invalidated. |
| `Discovery.UseMakesNewest` | crates/clawdesk-acp/src/discovery.rs:203-362 | A lookup that finds the key, a put and a structural change make it the most recent; a cosmetic change does not. |
| `Discovery.EntryFollowsHistory` | crates/clawdesk-acp/src/discovery.rs:203-362 | Over every run an entry holds the card, ETag and time of its last refresh, the tick of its last use, exact counters, and the TTL of its change rate. |
| `Discovery.RateMoves` | crates/clawdesk-acp/src/discovery.rs:238-362 | A change takes the estimated rate three tenths of the way to 0.1, a cosmetic refresh one tenth of the way to the observed share; nothing else moves it. |
| `LookupRace.LookupsAddUp` | crates/clawdesk-acp/src/discovery.rs:203-228 | For every interleaving of lookups: lookups = hits + stale serves + misses + lookups under way. |
| `LookupRace.StampsStayDistinct` | crates/clawdesk-acp/src/discovery.rs:203-228 | For every interleaving the stamps stay distinct. |
| `LookupRace.AloneIsNewest` | crates/clawdesk-acp/src/discovery.rs:203-228 | A lookup whose four steps run with nothing in between makes its entry the most recent one. |
| `LookupRace.StampIsLastUseExactly` | crates/clawdesk-acp/src/discovery.rs:203-228 | For every interleaving, the stamp of an entry that was looked up is the tick of its latest use exactly when the lookup that drew last for it also stored last. |
| `LookupRace.AgedExactly` | crates/clawdesk-acp/src/discovery.rs:203-228 | For every interleaving, an entry used after another one has the older stamp exactly when it was overtaken: its last storer is not its last drawer and drew before the one the other entry was stored with. |
| `LookupRace.OrderOfUseExactly` | crates/clawdesk-acp/src/discovery.rs:203-228 | For every interleaving, the stamps order all entries as their latest uses do exactly when no entry was overtaken. |
| `LookupRace.RecencyLostExactly` | crates/clawdesk-acp/src/discovery.rs:203-228 | With every tick stored, some interleaving ends in another order exactly when there are at least three lookups and two entries. |
| `LookupRace.LateStoreAges` | crates/clawdesk-acp/src/discovery.rs:203-228 | The run: a lookup of a draws and is held up, b is looked up, a is looked up again, the first one stores; a was used after b and has the older stamp. |
| `TokenBucket.ConservedStep` | crates/clawdesk-adapters/src/rate_limit.rs:74-122 | No atomic step, lost races and spurious failures included, makes more tokens than it earns: the rate a refill loads times the time it claimed. |
| `TokenBucket.TokensConserved` | crates/clawdesk-adapters/src/rate_limit.rs:74-122 | For every interleaving, whatever the costs and rate changes: granted + tokens is at most the capacity plus the sum of rate x elapsed over the refills. |
| `TokenBucket.TokensArrive` | crates/clawdesk-adapters/src/rate_limit.rs:74-122 | For every interleaving: granted + tokens + what refills owe + what the capacity cut off falls short of the capacity plus the sum of rate x elapsed by less than one millitoken for each refill. |
| `TokenBucket.CreditTruncates` | crates/clawdesk-adapters/src/rate_limit.rs:74-82 | A refill is worth rate x elapsed less a part of a millitoken, and nothing at a rate that is not positive. |
| `TokenBucket.RateArrives` | crates/clawdesk-adapters/src/rate_limit.rs:74-122 | Used by one thread, over every run that does not fill the bucket: what is granted and held is the start and rate x elapsed, less a part of a millitoken for each request. |
| `TokenBucket.GrantedExactly` | crates/clawdesk-adapters/src/rate_limit.rs:104-122 | A request is granted exactly when what is there and rate x elapsed cover it, up to the capacity. |
| `TokenBucket.NothingEarned` | crates/clawdesk-adapters/src/rate_limit.rs:74-122 | A rate that is not positive or a clock that has not moved on earns nothing, and what is there is left alone, also beyond the capacity. |
| `TokenBucket.TokensBounded` | crates/clawdesk-adapters/src/rate_limit.rs:74-122 | Tokens never go below 0, and stay within the capacity while no cost is negative. |
| `TokenBucket.CreditedTime` | crates/clawdesk-adapters/src/rate_limit.rs:74-96 | For every interleaving, credited time runs ahead of the last refill instant by exactly what late swaps set it back. |
| `TokenBucket.TimeHonestExactly` | crates/clawdesk-adapters/src/rate_limit.rs:74-96 | Over every run no time is credited twice exactly when every swap is in clock order. |
| `TokenBucket.RateIsKept` | crates/clawdesk-adapters/src/rate_limit.rs:74-122 | The total granted is at most the capacity plus the highest rate times the elapsed time and what late swaps set back; in clock order, just the elapsed time. |
| `TokenBucket.LateSwapGrantsTwice` | crates/clawdesk-adapters/src/rate_limit.rs:74-122 | A run that never changes the rate, with a late swap of one second, that grants the capacity and three seconds' worth in two. |
| `TokenBucket.CostMustNotBeNegative` | crates/clawdesk-adapters/src/rate_limit.rs:104-122 | Acquiring keeps tokens within the capacity exactly for costs that are not negative. |
| `TokenBucket.SplittingNeverGains` | crates/clawdesk-adapters/src/rate_limit.rs:74-96 | Truncation never makes several small refills worth more than one. |
| `TokenBucket.Bucket.TryAcquire` | crates/clawdesk-adapters/src/rate_limit.rs:104-122 | Used by one thread, for any cost: refills, then spends exactly when enough is there. |
| `TokenBucket.Bucket.SetRefillRate` | crates/clawdesk-adapters/src/rate_limit.rs:147-151 | Stores the rate, at least 0.1 per second, truncated to whole millitokens. |
| `TokenBucket.AdaptiveRateController.Observe` | crates/clawdesk-adapters/src/rate_limit.rs:242-280 | On a rate limit the base rate is cut by 0.5^min(n,4), down to the minimum; otherwise the PID output, clamped to the limits. |
| `TokenBucket.SlowerNeverRaises` | crates/clawdesk-adapters/src/rate_limit.rs:260-279 | With gains that are not negative, a slower response never gives a higher rate, whatever came before. |
| `TokenBucket.GainsAct` | crates/clawdesk-adapters/src/rate_limit.rs:264-276 | The gains act on the error, on its sum and on its change per second. |
| `TokenBucket.SumKept` | crates/clawdesk-adapters/src/rate_limit.rs:267-269 | The error sum is kept within 10 either way and is the plain sum in between. |
| `TokenBucket.BackoffHalves` | crates/clawdesk-adapters/src/rate_limit.rs:247-254 | Rejections in a row cut the rate to a half, a quarter, an eighth and from then on a sixteenth of what it was, not below the floor. |
| `CircuitBreaker.AddFailureExactly` | crates/clawdesk-adapters/src/circuit_breaker.rs:67-73 | Adding 1 to a packed word adds one failure exactly below 2^32. |
| `CircuitBreaker.AddSuccessExactly` | crates/clawdesk-adapters/src/circuit_breaker.rs:67-73 | Adding 2^32 adds one success exactly below 2^32. |
| `CircuitBreaker.RingRecord` | crates/clawdesk-adapters/src/circuit_breaker.rs:176-235 | Recording into the current bucket is recording into the latest advance. |
| `CircuitBreaker.RingAdvance` | crates/clawdesk-adapters/src/circuit_breaker.rs:251-275 | Clearing and moving to the next bucket starts a new advance and forgets the oldest. |
| `CircuitBreaker.RingSum` | crates/clawdesk-adapters/src/circuit_breaker.rs:278-286 | Summing all words gives the results of the current and the preceding `bucket_count` - 1 advances. |
| `CircuitBreaker.Breaker.WindowCounts` | crates/clawdesk-adapters/src/circuit_breaker.rs:278-286 | The counting loop returns those sums. |
| `CircuitBreaker.Breaker.AdvanceWindow` | crates/clawdesk-adapters/src/circuit_breaker.rs:251-275 | Moves at most one bucket per call, when the current one is over. |
| `CircuitBreaker.Breaker.AllowRequest` | crates/clawdesk-adapters/src/circuit_breaker.rs:144-173 | Answers and moves between open and half-open as `Switch` says. |
| `CircuitBreaker.FailurePacks` | crates/clawdesk-adapters/src/circuit_breaker.rs:71-73 | One more failure in a packed word, the carry at 2^32 included. |
| `CircuitBreaker.SuccessPacks` | crates/clawdesk-adapters/src/circuit_breaker.rs:67-69 | One more success in a packed word, the wrap at 2^32 included. |
| `CircuitBreaker.Breaker.RecordFailure` | crates/clawdesk-adapters/src/circuit_breaker.rs:197-235 | Records, reopens after a failed probe, trips past the threshold. |
| `CircuitBreaker.Breaker.RecordSuccess` | crates/clawdesk-adapters/src/circuit_breaker.rs:176-194 | Records, and closes after a probe that succeeded. |
| `CircuitBreaker.WindowByHistory` | crates/clawdesk-adapters/src/circuit_breaker.rs:176-286 | Over every run of requests and results, with no count at 2^32: the window holds exactly the successes and failures recorded in the current epoch and the `bucket_count` - 1 before it, counted on the calls. |
| `CircuitBreaker.TripsByHistory` | crates/clawdesk-adapters/src/circuit_breaker.rs:217-232 | So a closed breaker is past the threshold exactly when those are five or more and the failures at least one thousandth above it. |
| `CircuitBreaker.TripsExactly` | crates/clawdesk-adapters/src/circuit_breaker.rs:222-232 | The rounded failure rate trips exactly from one thousandth above the threshold on. |
| `CircuitBreaker.ExactlyOneProbe` | crates/clawdesk-adapters/src/circuit_breaker.rs:144-173 | While open a request passes exactly when it is the first one not before the end of the backoff. |
| `CircuitBreaker.OpenedAtZeroIsStuck` | crates/clawdesk-adapters/src/circuit_breaker.rs:144-165 | An open circuit can be left exactly when it was not opened at clock time 0. |
| `CircuitBreaker.StuckExactly` | crates/clawdesk-adapters/src/circuit_breaker.rs:144-235 | After every sequence of calls a breaker is stuck exactly when it is open and its latest opening was at clock time 0. |
| `CircuitBreaker.FirstMillisecondSticks` | crates/clawdesk-adapters/src/circuit_breaker.rs:197-235 | Five failures in the first millisecond of a new breaker open it for good. |
| `ProbeRace.PassesExactly` | crates/clawdesk-adapters/src/circuit_breaker.rs:144-247 | For every interleaving of callers and of the thread that opened the breaker, a caller passes exactly when it loaded the state before anyone's compare-exchange, read an opening time other than 0, and checked the clock after the backoff by what it had read. |
| `ProbeRace.EarlyExactly` | crates/clawdesk-adapters/src/circuit_breaker.rs:144-247 | For every interleaving, a caller passes before the new backoff exactly when it also read the opening time before the opener stored it, that was not 0, and the backoff since then was over. |
| `ProbeRace.EarlyPossibleExactly` | crates/clawdesk-adapters/src/circuit_breaker.rs:144-247 | Some run lets a caller pass early exactly when the breaker still holds an earlier opening time: after a failed probe, not after a trip from closed. |
| `ProbeRace.EveryoneCanPassEarly` | crates/clawdesk-adapters/src/circuit_breaker.rs:144-247 | For any number of callers, a run in which all of them pass early while the opener is held up. |
| `ProbeRace.AtMostOnePasses` | crates/clawdesk-adapters/src/circuit_breaker.rs:144-247 | While callers come one at a time, at most one passes, also while the opener is still storing. |
| `ProbeRace.EveryoneCanPass` | crates/clawdesk-adapters/src/circuit_breaker.rs:144-247 | For any number of callers, a run in which all of them pass. |
| `CircuitBreaker.SwitchFollowsHistory` | crates/clawdesk-adapters/src/circuit_breaker.rs:144-235 | For every sequence of calls on a new breaker the switch holds the number of openings since the last close and the time of the latest one. |
| `CircuitBreaker.BackoffDoubles` | crates/clawdesk-adapters/src/circuit_breaker.rs:144-248 | For every such sequence: while open, a request passes exactly when min(base x 2^min(k,10), max) has gone by since the latest of k openings in a row. |
| `CircuitBreaker.WaitDoubles` | crates/clawdesk-adapters/src/circuit_breaker.rs:243-248 | Each opening in a row doubles the wait, up to the tenth and up to the cap. |
| `CircuitBreaker.WaitMonotone` | crates/clawdesk-adapters/src/circuit_breaker.rs:243-248 | Waits min(base x 2^min(k,10), max) never shrink and never exceed the cap. |
| `Capability.Insert` | crates/clawdesk-acp/src/capability.rs:138-144 | Adds exactly one member to the bit set. |
| `Capability.Remove` | crates/clawdesk-acp/src/capability.rs:148-155 | Removes exactly one member, beyond the last word nothing. |
| `Capability.Contains` | crates/clawdesk-acp/src/capability.rs:159-164 | The bit test is membership. |
| `Capability.Intersection` | crates/clawdesk-acp/src/capability.rs:168-174 | Word by word, the bits of the intersection. |
| `Capability.Union` | crates/clawdesk-acp/src/capability.rs:178-184 | Word by word, the bits of the union. |
| `Capability.Count` | crates/clawdesk-acp/src/capability.rs:188-194 | Population count is cardinality. |
| `Bitmaps.PopcountIsCardinality` | crates/clawdesk-acp/src/capability.rs:188-194 | The sum of the words' population counts is the size of the set. |
| `Capability.Close` | crates/clawdesk-acp/src/capability.rs:212-225 | For every acyclic parent function the bit-level chain walk computes the closure. |
| `Taxonomy.ClosureIsLeast` | crates/clawdesk-acp/src/capability.rs:212-225 | The closure is the least ancestor-closed superset. |
| `Taxonomy.ClosureLaws` | crates/clawdesk-acp/src/capability.rs:212-225 | Extensive, closed, monotone, idempotent. |
| `Taxonomy.ClosureUnion` | crates/clawdesk-acp/src/capability.rs:212-225 | Closing distributes over union. |
| `Taxonomy.CapabilitiesValid` | crates/clawdesk-acp/src/capability.rs:89-119 | The hierarchy of the source is acyclic. |
| `Taxonomy.WhatIsImplied` | crates/clawdesk-acp/src/capability.rs:89-119 | What each of the 22 capabilities implies. |
| `Capability.OverlapScore` | crates/clawdesk-acp/src/capability.rs:231-238 | The share of the required members that is held, 1 when none is required. |
| `Capability.OverlapBounds` | crates/clawdesk-acp/src/capability.rs:231-238 | In [0,1], and 1 exactly when every required member is held. |
| `Capability.OverlapMonotone` | crates/clawdesk-acp/src/capability.rs:231-238 | Holding more never scores less. |
| `Capability.OverlapStep` | crates/clawdesk-acp/src/capability.rs:231-238 | Each required capability earns an equal share, and nothing else earns any. |
| `Capability.AgentCard.AddCapability` | crates/clawdesk-acp/src/agent_card.rs:159-164 | Appends unless present; the cached set is again the closure of the list. |
| `Capability.AgentCard.SetCapabilities` | crates/clawdesk-acp/src/agent_card.rs:167-170 | Replaces the list; the cached set is its closure. |
| `Capability.AgentCard.ClosedCapset` | crates/clawdesk-acp/src/agent_card.rs:185-190 | Cached or computed, the closure of the list. |
| `Capability.AgentCard.HasCapability` | crates/clawdesk-acp/src/agent_card.rs:204-206 | True exactly when some listed capability implies it. |
| `Capability.AgentCard.CapabilityScore` | crates/clawdesk-acp/src/agent_card.rs:286-297 | The overlap of the closed offer with the closed requirements. |
| `Capability.PerfectCard` | crates/clawdesk-acp/src/agent_card.rs:286-297 | The score is in [0,1] and 1 exactly when every listed requirement is offered, directly or by implication. |
| `Capability.AddedClosure` | crates/clawdesk-acp/src/agent_card.rs:159-182 | Adding a capability adds exactly what it implies. |
| `Router.BoostLaws` | crates/clawdesk-acp/src/router.rs:87-116 | The boost lies strictly between 0.8 and 1.2; praise raises and complaints lower it. |
| `Router.EvenFeedback` | crates/clawdesk-acp/src/router.rs:87-116 | Equal praise and complaints leave a score exactly as it is. |
| `Router.AgentDirectory.Register` | crates/clawdesk-acp/src/router.rs:150-178 | The entry is replaced by a fresh one and every posting list stays right. |
| `Router.AgentDirectory.Deregister` | crates/clawdesk-acp/src/router.rs:181-191 | Entry and postings go. |
| `Router.PostingAfter` | crates/clawdesk-acp/src/router.rs:150-191 | Dropping and appending keeps a posting list duplicate-free and exact. |
| `Router.AgentDirectory.CandidatesFor` | crates/clawdesk-acp/src/router.rs:197-212 | Exactly the registered agents that hold at least one listed capability. |
| `Router.AgentDirectory.UpdateHealth` | crates/clawdesk-acp/src/router.rs:239-245 | Health and latency of a known agent; the index stays right. |
| `Router.AgentDirectory.IncrementTasks` | crates/clawdesk-acp/src/router.rs:225-229 | The load of a known agent goes up by one. |
| `Router.AgentDirectory.DecrementTasks` | crates/clawdesk-acp/src/router.rs:232-236 | The load saturates at zero. |
| `Router.AgentDirectory.RecordReaction` | crates/clawdesk-acp/src/router.rs:252-266 | One more positive or negative count for a known agent. |
| `Router.RouteTask` | crates/clawdesk-acp/src/router.rs:296-362 | A lexicographically best (score, load, latency) agent among the eligible candidates; NoMatch only when none is eligible. |
| `Router.BetterIsAnOrder` | crates/clawdesk-acp/src/router.rs:335-340 | The comparison is a strict order with ties, so a best candidate is well defined. |
| `Router.BestIsBest` | crates/clawdesk-acp/src/router.rs:296-362 | The agent answered has the highest score of the eligible candidates; of those the fewest tasks; of those the lowest known latency. |
| `Router.EligibleExactly` | crates/clawdesk-acp/src/router.rs:305-330 | Eligible are the healthy agents that are not excluded, have room and score at least one half. |
| `Router.EntriesUpdated` | crates/clawdesk-acp/src/router.rs:150-270 | Registrations, health and load updates and reactions change what they are about and nothing else. |
| `Router.ReputationIsBounded` | crates/clawdesk-acp/src/router.rs:317-324 | Reputation cannot rescue a score up to 5/12, nor exclude one from 5/8, nor outweigh a factor of 1.5. |
| `Router.FilterCompleteExactly` | crates/clawdesk-acp/src/router.rs:197-212 | Looking only at holders of a listed capability misses no agent that a directory can hold and that reaches the threshold exactly when something is required and at most 5/12 of what the requirements imply can be held without implying a listed one. |
| `Router.IncompleteFilterMisses` | crates/clawdesk-acp/src/router.rs:296-332 | Otherwise some directory, with one available agent that reaches the threshold, is answered NoMatch. |
| `Router.CompleteFilterScansAll` | crates/clawdesk-acp/src/router.rs:296-362 | Then the answer is best among all eligible agents of the directory. |
| `Router.AudioMissesMedia` | crates/clawdesk-acp/src/router.rs:206-209 | A directory that holds only a media agent answers NoMatch for audio processing, though the agent scores exactly 0.5. |
| `SessionRouter.Sessions.RouteWithSession` | crates/clawdesk-acp/src/session_router.rs:340-430 | The answer is allowed and the new state is that of `After`. |
| `SessionRouter.Sessions.TryAffinity` | crates/clawdesk-acp/src/session_router.rs:346-397 | A hit exactly when the bound agent is registered, healthy, not excluded and not blocked; otherwise the binding goes. |
| `SessionRouter.Sessions.EffectiveExclude` | crates/clawdesk-acp/src/session_router.rs:399-405 | The excluded agents and exactly those behind an open breaker. |
| `SessionRouter.Sessions.RecordFailure` | crates/clawdesk-acp/src/session_router.rs:442-453 | Counts; from the threshold on trips and marks the agent unhealthy. |
| `SessionRouter.Sessions.RecordSuccess` | crates/clawdesk-acp/src/session_router.rs:435-439 | Resets the breaker; the agent's health is left alone. |
| `SessionRouter.Sessions.DeregisterAgent` | crates/clawdesk-acp/src/session_router.rs:316-321 | Removes entry, source, breaker and every binding to the agent. |
| `SessionRouter.Sessions.RegisterAgent` | crates/clawdesk-acp/src/session_router.rs:273-313 | A fresh entry and a fresh breaker. |
| `SessionRouter.Sessions.EvictStaleAffinities` | crates/clawdesk-acp/src/session_router.rs:480-494 | Keeps exactly the bindings used after the cutoff and counts the others. |
| `SessionRouter.Sessions.BreakSession` | crates/clawdesk-acp/src/session_router.rs:475-477 | Removes one binding and says whether there was one. |
| `SessionRouter.Sessions.Bind` | crates/clawdesk-acp/src/session_router.rs:525-545 | Binds a key to an agent with a turn count of zero. |
| `SessionRouter.AnswersAreServiceable` | crates/clawdesk-acp/src/session_router.rs:340-430 | In every state, an answered agent is registered, healthy, not excluded and not behind an open breaker. |
| `SessionRouter.StaysBoundExactly` | crates/clawdesk-acp/src/session_router.rs:316-430 | A binding survives a call exactly when the call is one of those that keep it. |
| `SessionRouter.Sticky` | crates/clawdesk-acp/src/session_router.rs:340-430 | Over every run a session keeps answering its agent while nothing removes the binding and the agent is serviceable when asked. |
| `SessionRouter.TurnsCounted` | crates/clawdesk-acp/src/session_router.rs:371-386 | The turn count grows by one for each call of the session. |
| `SessionRouter.StaleExactly` | crates/clawdesk-acp/src/session_router.rs:371-492 | Over every run a surviving binding remembers its last use, and an eviction takes it exactly when that is the TTL or more ago. |
| `SessionRouter.NewBinding` | crates/clawdesk-acp/src/session_router.rs:404-432 | A session without a usable binding is bound to whom it is answered with, as its first turn; no other session is touched. |
| `SessionRouter.TrippingTakesOut` | crates/clawdesk-acp/src/session_router.rs:442-453 | A failure that trips the breaker takes the agent out; any other leaves the directory alone. |
| `SessionRouter.StaysOut` | crates/clawdesk-acp/src/session_router.rs:340-453 | Over every run an agent that is out is not answered until its health is set or it is registered anew, whatever successes are recorded. |
| `SessionRouter.OutExactly` | crates/clawdesk-acp/src/session_router.rs:340-453 | Over every run, calls straight to the directory included, an agent is out exactly when its history of registrations, tripping failures and health updates says so. |
| `SessionRouter.AnswerableExactly` | crates/clawdesk-acp/src/session_router.rs:340-430 | Some call may be answered with an agent exactly when it is registered, healthy and not behind an open breaker, and has a session bound to it or holds a capability and has room. |
| `SessionRouter.AnswerableByHistory` | crates/clawdesk-acp/src/session_router.rs:340-453 | The same over every run, read off the history: listed and in, without a breaker that still blocks, and bound or with room. |
| `SessionRouter.HalfOpenRefuses` | crates/clawdesk-acp/src/session_router.rs:149-181 | A run: one agent fails until its breaker trips; after the recovery time the breaker does not block, and every request still goes without an answer. |
| `SessionRouter.HalfOpenAdmitsAll` | crates/clawdesk-acp/src/session_router.rs:149-181 | Once marked healthy in that state, any number of requests are answered with it: nothing limits them to one probe. |
| `SessionRouter.BreakerFollowsHistory` | crates/clawdesk-acp/src/session_router.rs:183-206 | Over every run, calls straight to the directory included: exactly the agents listed by either registration have an entry, exactly those registered in the router a breaker, which holds the failures in a row and is tripped exactly from the threshold on, since the last failure. |
| `Algebra.GradedCapSet.Insert` | crates/clawdesk-acp/src/capability_algebra.rs:75-77 | Stores the proficiency clamped to [0,1]. |
| `Algebra.GradedCapSet.Meet` | crates/clawdesk-acp/src/capability_algebra.rs:100-110 | The pointwise minimum, storing exactly the positive ones. |
| `Algebra.GradedCapSet.Join` | crates/clawdesk-acp/src/capability_algebra.rs:113-122 | The pointwise maximum. |
| `Algebra.MeetIsGreatestLowerBound` | crates/clawdesk-acp/src/capability_algebra.rs:99-110 | The pointwise minimum is the greatest lower bound, and nothing else is. |
| `Algebra.JoinIsLeastUpperBound` | crates/clawdesk-acp/src/capability_algebra.rs:112-122 | The pointwise maximum is the least upper bound, and nothing else is. |
| `Algebra.NewRequirement` | crates/clawdesk-acp/src/capability_algebra.rs:147-153 | Thresholds end in [0.01,1] and weights at 0 or above; values in range are kept. |
| `Algebra.QualityScore` | crates/clawdesk-acp/src/capability_algebra.rs:174-194 | The loop computes `Quality`. |
| `Algebra.QualityBounds` | crates/clawdesk-acp/src/capability_algebra.rs:168-194 | In [0,1], and 1 exactly when every requirement that weighs something is met or they weigh next to nothing. |
| `Algebra.QualityMonotone` | crates/clawdesk-acp/src/capability_algebra.rs:174-194 | More proficiency never scores less. |
| `Algebra.QualityOfBounds` | crates/clawdesk-acp/src/capability_algebra.rs:99-194 | The join scores at least as well as both sets, the meet at most as well. |
| `Algebra.QualityOfOne` | crates/clawdesk-acp/src/capability_algebra.rs:168-194 | One requirement scores the share of its threshold that the level reaches. |
| `Algebra.QualityOfLists` | crates/clawdesk-acp/src/capability_algebra.rs:168-194 | Lists of requirements count by their weight. |
| `Algebra.LightIsMet` | crates/clawdesk-acp/src/capability_algebra.rs:189-191 | Requirements that weigh less than 1e-10 together score 1. |
| `Algebra.PerfectScoreMeansSatisfied` | crates/clawdesk-acp/src/capability_algebra.rs:174-201 | A score of 1 means `satisfies_all` for every agent exactly when the weights reach 1e-10 and every requirement is covered by one that weighs something. |
| `Algebra.PositiveWeightsTell` | crates/clawdesk-acp/src/capability_algebra.rs:174-201 | With positive weights totalling at least 1e-10: 1 exactly when all requirements are satisfied. |
| `Algebra.TaxonomyDepth` | crates/clawdesk-acp/src/capability_algebra.rs:206-214 | The loop counts the proper ancestors. |
| `Algebra.LowestCommonAncestor` | crates/clawdesk-acp/src/capability_algebra.rs:219-244 | Collecting one chain and walking the other computes `Lca`. |
| `Algebra.LcaIsDeepest` | crates/clawdesk-acp/src/capability_algebra.rs:219-244 | A common ancestor deeper than every other one; none exactly when there is none. |
| `Algebra.LcaSymmetric` | crates/clawdesk-acp/src/capability_algebra.rs:219-244 | The order of the arguments does not matter. |
| `Algebra.TaxonomySimilarity` | crates/clawdesk-acp/src/capability_algebra.rs:252-270 | The method computes `Similarity`. |
| `Algebra.SimilarityLaws` | crates/clawdesk-acp/src/capability_algebra.rs:246-270 | Symmetric, in [0,1], 1 exactly for equal capabilities, 0 exactly for unrelated ones. |
| `Algebra.SimilarityIsShare` | crates/clawdesk-acp/src/capability_algebra.rs:246-270 | The score is the number of capabilities both imply as a share of what the one that implies more does. |
| `Algebra.NearerAncestorIsMoreSimilar` | crates/clawdesk-acp/src/capability_algebra.rs:246-270 | Up a chain, similarity to its bottom falls strictly. |
| `Announce.DelaysNeverFall` | crates/clawdesk-acp/src/announce.rs:164-168 | Delays never exceed the cap, never fall, and stay from the seventh on. |
| `Announce.DelaysDouble` | crates/clawdesk-acp/src/announce.rs:164-168 | The first delay is the base; each of the next six doubles it, up to the cap. |
| `Announce.AnnounceRouter.Announce` | crates/clawdesk-acp/src/announce.rs:307-356 | One entry per live subscription until the queue is full, none without the lock; expired subscriptions go. |
| `Announce.AnnounceRouter.Subscribe` | crates/clawdesk-acp/src/announce.rs:286-295 | Appends a target to the task's list. |
| `Announce.CountersCountOutcomes` | crates/clawdesk-acp/src/announce.rs:372-415 | Over every run the delivered and failed counters are the numbers of announcements that ended that way. |
| `Announce.QueueBound` | crates/clawdesk-acp/src/announce.rs:326-403 | Over every run the queue outgrows the capacity by no more than the most announcements handed out at a time. |
| `Announce.CapacityHoldsExactly` | crates/clawdesk-acp/src/announce.rs:395-403 | The capacity is kept over every run exactly when nothing is ever requeued or nothing can be queued: a retry does not look at it. |
| `Announce.PushedIsRun` | crates/clawdesk-acp/src/announce.rs:326-347 | What one announcement pushes is a run of single entries, so the guarantees below cover it. |
| `Announce.LiveExactly` | crates/clawdesk-acp/src/announce.rs:311-320 | A subscription is live until it is a whole TTL old; the live ones keep their order. |
| `Announce.PushedExactly` | crates/clawdesk-acp/src/announce.rs:322-347 | Each subscription gets its own entry, ready at once, to its own target; nothing else changes. |
| `Announce.FitsExactly` | crates/clawdesk-acp/src/announce.rs:322-347 | All that are wanted while they fit, otherwise up to the capacity, and none into a queue beyond it. |
| `Announce.AnnounceRouter.NextDelivery` | crates/clawdesk-acp/src/announce.rs:359-367 | Hands out the least (ready time, sequence) entry if its time has come; else nothing in the queue is ready. |
| `Announce.AnnounceRouter.FindLeast` | crates/clawdesk-acp/src/announce.rs:222-228 | The top of the heap: before every other entry. |
| `Announce.AnnounceRouter.RetryLater` | crates/clawdesk-acp/src/announce.rs:372-410 | Requeues with the delay of the attempt just made, or fails for good. |
| `Announce.AnnounceRouter.DrainPending` | crates/clawdesk-acp/src/announce.rs:428-435 | Empties the queue, one least entry after another. |
| `Announce.DrainedInOrder` | crates/clawdesk-acp/src/announce.rs:428-435 | Draining returns the announcements in queue order. |
| `Announce.KeepsInv` | crates/clawdesk-acp/src/announce.rs:307-435 | Every event keeps the invariant that ties attempts, hand-outs and ready times together. |
| `Announce.ExactlyOnePlace` | crates/clawdesk-acp/src/announce.rs:307-435 | Over every run a queued announcement is exactly one of waiting (once), handed out or finished. |
| `Announce.HandedOutAtMost` | crates/clawdesk-acp/src/announce.rs:372-383 | Over every run nothing is handed out more than max(1, `max_attempts`) times. |
| `Announce.LimitHoldsExactly` | crates/clawdesk-acp/src/announce.rs:372-383 | `max_attempts` itself is kept over every run exactly when it is at least 1. |
| `Announce.NeverEarly` | crates/clawdesk-acp/src/announce.rs:359-403 | Over every run nothing is handed out before it was queued plus the delay of its attempt; attempts count hand-outs. |
| `Announce.ReadyExactly` | crates/clawdesk-acp/src/announce.rs:322-403 | Over every run, what waits becomes ready exactly its attempt's delay after it was last queued. |
| `Announce.ContentKept` | crates/clawdesk-acp/src/announce.rs:305-403 | Over every run, what waits and what is handed out is what was queued, with its target and payload. |
| `Announce.HandedOutAsOften` | crates/clawdesk-acp/src/announce.rs:359-403 | Some run hands an announcement out as often as the limit allows. |
| `Announce.FirstAttemptsInOrder` | crates/clawdesk-acp/src/announce.rs:222-228 | With a clock that does not run backwards, first attempts are handed out in the order announced. |

## Left out

- Memory ordering beyond stale reads of the other index, and more than one producer or consumer of the ring.
- `BackpressureStream`, `DeltaPublisher`, `DeltaConsumer`: wrappers around channels that are drained independently.
- DeltaStream.DeltaDecoder.Apply: text is bytes, so the panic of the source off a UTF-8 character boundary is not modelled.
- DeltaStream.DeltaDecoder.Apply: `hash_valid` is never cleared in the source and has no counterpart here.
- DeltaStream.DeltaEncoder.Push: a checkpoint interval of 0 divides by zero in the source and is excluded.
- CircuitBreaker.Breaker.constructor: a bucket count of 0 divides by zero in the source and is excluded.
- CircuitBreaker.Breaker.AllowRequest: one thread at a time; concurrent callers of an opening and open breaker are in `ProbeRace`, concurrent recording of results is not modelled.
- ProbeRace.PassesExactly: all threads see the accesses in one order, while the source's relaxed loads and stores allow more.
- CircuitBreaker.ExactlyOneProbe: one request after another; `ProbeRace.PassesExactly` is about requests at the same time.
- CircuitBreaker.Breaker.WindowCounts: the totals are unbounded, while the source adds them in 32 bits.
- AgentRegistry.MutualExclusion: holds for runs whose removals of stale locks hit no live holder; the source does not ensure that, see above.
- AgentRegistry.RegistryIsFoldOfCommits: about the same runs.
- AgentRegistry.ReadsAreConsistent: about the same runs.
- AgentRegistry.NoUpdateLost: about the same runs.
- Discovery.DiscoveryCache.Get: one call after another; concurrent lookups are in `LookupRace`, with no put or removal among them, as in the source.
- Algebra.QualityScore: a threshold of exactly 0, which makes the source divide 0 by 0, is excluded.
- `AgentRegistry`: handles and their state transitions are abstract operations, since `subagent.rs` is not part of this model; the retry loop's timing is a free choice of when to try again.
- Sequence numbers, task counts, turn counts and attempt counts are unbounded here; their 32- and 64-bit overflow is not modelled.
- Floating-point rounding, NaN and infinities.
- `Discovery`: the TTL formula (a square root) is a parameter, fingerprints are given, and `record_not_modified`, `expired_entries` and `clear` are not modelled.
- `Evaluate`: text normalization, `exact_match` and `substring_match`; token lists are given.
- `Capability`: `weighted_score`, `to_vec`, display and parsing of names.
- `Router`: `find_all`, which repeats the lookup without reputation, load and exclusion; the threshold is the default 0.5; among equal candidates any may be answered.
- `SessionRouter`: replacing the public `directory` or `router` as a whole; health statistics and `should_allow_probe`, which nothing calls; which keys mention a thread is an argument of unbinding.
- `Algebra`: `rank_agents`, a library sort by the two scores; the check after the ancestor walk, which repeats its first test.
- `Announce`: the heap is a map that is searched for its least entry; `gc_subscriptions`, `unsubscribe` and `summary`; overflow of the delay product.
- Announce.CountersCountOutcomes: a delivery is recorded for an announcement handed out, once; `record_delivered` takes no argument and ties it to none.
- Announce.ExactlyOnePlace: a handed-out announcement is given back at most once, as a moved value is.
- `task.rs`, `heartbeat.rs`, `error.rs`, `contract.rs`, `durable_announce.rs`, `content_router.rs`, `server.rs`: finite case splits, stubs and library calls that would only add easy members.
- Loading of files, user interfaces, providers, OAuth and the command line.
