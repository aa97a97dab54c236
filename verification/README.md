# AmberClaw: verified cores

This project models fourteen stateful or arithmetic cores of AmberClaw in Dafny and proves what
they promise, over every input, every run or every interleaving. The pattern is the same
throughout: a specification on values (`Step`, `Run`, `Exec`), a class or a method that carries the
source's loops and assignments out and is proved equal to that specification, and theorems about
the specification. What comes from outside (clocks, Redis replies, task completion, the answers of a
model) is an input of each step; hash, cron arithmetic, JSON parsing, discount and gain are function
parameters with their assumptions in the `requires` clauses.

Where a natural promise is false of the code, the code is kept as it is, a lemma shows how it fails, and
another states, for all inputs, the exact condition under which the promise holds. The one case where
only part of the inputs is covered exactly, more than two overlapping PII matches, is listed under
"Left out".

| component | files | main result |
|---|---|---|
| two-tier cache | `CacheModel`, `CacheTheorems`, `CacheRefinement`, `CacheFaults`, `CacheTtl`, `CacheResidency`, `CacheIndex`, `CacheBreaker`, `CacheManager` | a healthy run answers as a plain map; what `get` answers in any run, with any failures and TTLs, and exactly when that is what the callers intended; L1 is bounded, ordered by recency and fully indexed; exact conditions for tag and prefix invalidation; the tag index, the breaker and the counters follow from the calls and what Redis answered |
| ranking metrics | `Ranking` | DCG never exceeds ideal DCG exactly when no id is repeated, with equality exactly for ideal rankings; an exchange raises it exactly when it moves a better result forward; recall is the share found |
| streaming chat | `ChatStream` | one chunk per payload, with what it parses to; the chunks depend only on the text, not on how it was cut |
| Mochat delay buffer | `DelayBuffer` | no entry lost, reordered or taken twice in any interleaving of timers, cancellations and lock waits, and every run comes to rest with all delivered |
| Mochat deduplication | `SeenIds` | duplicate exactly when among the last 2000 recorded ids |
| token bucket | `TokenBucket` | the tightest limiter that keeps every interval within capacity plus rate times length |
| sliding window | `SlidingWindow` | the pruned list judges as the full log; every window within the limit |
| audit chain | `AuditChain` | short of a hash collision, an accepted file is fixed by its last hash exactly when no record is ambiguous; when appending keeps acceptance |
| cron service | `CronModel`, `CronTiming`, `CronService`, `CronInterleaving` | every job fires exactly when its schedule is due from its last planning; the armed wake-up is always the earliest; one-shot jobs fire once per enable; with operations between the jobs of a tick, what is started twice and that nothing is lost |
| agent graph | `AgentGraph`, `ReflectRouter` | every mode halts, with tight iteration bounds; exactly when a reflection starts over |
| PII splice | `PiiSplice` | right-to-left splicing equals the forward reading of the text |
| card splitter | `CardSplitter` | fewest groups, and the only greedy partition |
| entity memory | `GraphModel`, `GraphStory`, `GraphMemory` | what an entity is follows from the calls that named it; history rebuilds every past state of an entity, both ways; the first target of a relation wins |
| supervisor | `Supervisor` | at most five quick restarts in a row; exactly which crashes end restarted and which failed |

`Sequences` and `Wrappers` hold duplicate-free sequences and the optional value.

## What the proofs found

- Tag and prefix invalidation do not reach items that live only in Redis; `TagCompleteExactly`
  and `PrefixInvalidationExactly` say when they are complete, `EvictedKeyOutlivesInvalidation` shows a
  stale value being served.
- A key set again without a tag is still named under it, so the tag invalidates the untagged value, in both
  tiers (`RetaggedKeyIsDropped`; `IndexExactly` says what the index names after any run).
- A write or deletion that Redis missed shows through after an eviction (`MissedWriteIsUndone`). In any
  run `get` returns the intended value exactly when L1 has held the item since its last set and it is
  live, or what Redis contributes agrees (`RightExactly`; without TTLs, `LastSetOrReceived`).
- A promotion from Redis to L1 drops the TTL (`PromotionOutlivesTtl`); `StaleExactly` says when a `get` is
  stale and `TtlRespectedWithoutPromotion` what remains without promotions. A TTL means the same in both
  tiers exactly if it is negative or a positive number of whole seconds (`TiersAgreeExactly`): one of
  zero expires at once in L1 and never in Redis (`ZeroTtlNeverExpires`), a fraction is cut off for
  Redis, and below one second Redis refuses the write: with a negative TTL the older item is read
  (`WriteRefusedExactly`).
- The nDCG clamp is inert for every relevance map exactly when no id is repeated among the first k
  (`ClampInertExactly`, `RepeatExceedsIdeal`); recall is the share found exactly when no relevant id is,
  or all were found (`RecallExactly`, `RepeatedIdInflatesRecall`).
- The delimiter-joined text under the audit hash is ambiguous exactly for records with a bar in a field
  or a target that reads `None`, so for every record without a target (`AmbiguousExactly`); a bar in the
  details does no harm, because what follows it is not a JSON text (`NoJsonAfterBar`). Short of a hash
  collision, an accepted file has a rival with the same last hash exactly when it holds such a record
  (`LastHashExactly`).
- `verify_chain` accepts objects that `AuditRecord` rejects, such as one without a timestamp. After such
  a line the numbering starts over, and the next record spoils an accepted file (`LogAction`).
- A shorter back-off reported later replaces a longer one (`ShorterReportReplacesLonger`), and that is
  the only way a back-off ends early (`CutShortByLaterReport`).
- An operation on the cron table while a tick awaits a job cancels the tick: the job is cut off and started
  again (`CancelledIsTakenUpAgain`), so a one-shot job can start twice without an enable, but for no other
  reason (`StartsOncePerRelease`).
- A one-shot job whose time passes while the service is down stays enabled and is never fired: the start plans
  it anew and finds no next run (`MissedWhileStopped`; exactly when a job fires is `OneShotFiresExactly`).
- A successful reflection whose critique mentions failure sends the run back. The reflector's own
  fallback, documented as "defaulting to success", always does so while iterations are left
  (`FallbackStartsOver`).
- In plan-and-execute mode the iteration counter can end two above the configured maximum; for a
  maximum of two or three it ends at most one above it (`Halts`, `MostIsAttained`).
- `add_relationship` looks an edge up by source and relation only: a second target is not recorded and
  its properties go to the first (`AddedExactly`, `FirstTargetWins`, `SecondTargetIsLost`).
- A service whose failure event cannot be published is left failed without using its restarts, and
  the rest of that sweep is skipped (`UnannouncedIsNotRestarted`, `RefusedExactly`).
- Overlapping PII matches are spliced with stale offsets; for every overlapping pair `OverlapExactly` says
  when the result is still right and `LeftoverExactly` what is left in the text.

## Assumptions

- Clocks are reals or integers read once per operation. The sliding window and the bounds on stored
  tokens need a clock that does not go back; the rate bound of the token bucket and the supervisor's
  bound on quick restarts do not.
- `discount` is positive and strictly decreasing with the rank, `gain` is zero at zero and strictly
  increasing, as the source's formulas are. The audit hash has a fixed length, and the files compared hold
  no hash collision; `LastHashApplies` exhibits a hash and a file that meet this. A cron expression's next
  match is later than its reference time; ids drawn for new cron jobs are never used before. Of
  upper-casing only the ASCII letters are assumed.
- Each method is one atomic step, except in the delay buffer, where statements interleave, and in
  `CronInterleaving`, where other operations come between the jobs of a tick.

## Model

| member | source | states |
|---|---|---|
| CacheManager.ResilientCacheManager.Set | src/amberclaw/cache/resilience.py:116-150 | the whole new state of both tiers, index, breaker and counters after `set`, including the skipped write in degraded mode and the failure of a TTL that Redis refuses |
| CacheManager.ResilientCacheManager.Get | src/amberclaw/cache/resilience.py:152-202 | the value returned and the whole new state: L1 hit moved to the end, expired entry dropped, Redis value promoted without TTL, probe after the interval |
| CacheManager.ResilientCacheManager.Invalidate | src/amberclaw/cache/resilience.py:204-218 | the whole new state after invalidating one key |
| CacheManager.ResilientCacheManager.InvalidateByTag | src/amberclaw/cache/resilience.py:220-242 | the whole new state; the count is the number of indexed keys that were resident in L1 |
| CacheManager.ResilientCacheManager.InvalidatePrefix | src/amberclaw/cache/resilience.py:244-267 | the whole new state, also when a Redis delete fails midway; the count is the number of matching L1 keys |
| CacheManager.ResilientCacheManager.EvictL1LruIfNeeded | src/amberclaw/cache/resilience.py:107-114 | the loop leaves the most recent `max_l1_items - 1` keys, unlinked from the tag index |
| CacheManager.ResilientCacheManager.OnRedisFailure | src/amberclaw/cache/resilience.py:84-97 | both failure counters go up by one, the time is noted, and at the threshold the mode is degraded; `fallback_events` counts entering it |
| CacheManager.ResilientCacheManager.OnRedisSuccess | src/amberclaw/cache/resilience.py:99-105 | no failure is left counted, and the mode is normal if it was degraded or a failure had been counted |
| CacheModel.EvictedKeeps | src/amberclaw/cache/resilience.py:107-114 | eviction keeps exactly the most recently used keys with their entries |
| CacheModel.StepKeepsTier | src/amberclaw/cache/resilience.py:107-267 | every operation, whatever Redis does, keeps L1 within its size, its order duplicate-free and every tag of every entry indexed |
| CacheTheorems.RunKeepsTier | src/amberclaw/cache/resilience.py:107-267 | the same after every run |
| CacheTheorems.RunByRecency | src/amberclaw/cache/resilience.py:116-193 | the L1 order is the order of last set, hit or promotion |
| CacheTheorems.StoringEvictsLeastRecent | src/amberclaw/cache/resilience.py:107-138 | storing a new key in a full L1 evicts the one least recently used key and no other; otherwise nothing is evicted |
| CacheRefinement.StepIsCommand | src/amberclaw/cache/resilience.py:116-267 | a healthy operation keeps L1 equal to Redis key by key and acts on Redis as a map command |
| CacheRefinement.HealthyRunIsPlainMap | src/amberclaw/cache/resilience.py:116-267 | with Redis healthy, no TTL and non-None values, every `get` of every run answers as a plain map would; what a tag or prefix invalidation erases from that map is read from L1 and its index |
| CacheRefinement.CapacityIsInvisible | src/amberclaw/cache/resilience.py:107-202 | two caches of different L1 size give the same answers in healthy runs of keyed operations |
| CacheRefinement.TagInvalidationClearsL1 | src/amberclaw/cache/resilience.py:220-232 | afterwards no L1 entry carries the tag, and only indexed keys left L1 |
| CacheRefinement.TagInvalidationExactly | src/amberclaw/cache/resilience.py:220-242 | the tag is gone from both tiers if and only if every Redis key with the tag was still indexed |
| CacheRefinement.PrefixInvalidationExactly | src/amberclaw/cache/resilience.py:244-267 | the prefix is gone from both tiers if and only if every matching Redis key was resident in L1 |
| CacheRefinement.InvalidationCompleteWithinCapacity | src/amberclaw/cache/resilience.py:220-267 | while the keys ever set fit in L1, both invalidations clear both tiers |
| CacheRefinement.IndexNamesOnlyTagged | src/amberclaw/cache/resilience.py:129-138 | the index never names a key under a tag it was never stored with |
| CacheIndex.IndexExactly | src/amberclaw/cache/resilience.py:107-267 | after any run the index names for a tag exactly the keys stored with it, by a set or a promotion, less those whose entry has since left L1 with that tag and those before the tag's last invalidation |
| CacheIndex.RetaggedKeyIsDropped | src/amberclaw/cache/resilience.py:129-138 | in every state: a value set without a tag is gone from both tiers after the tag is invalidated, if the key was set with it just before |
| CacheRefinement.PromotionOutlivesTtl | src/amberclaw/cache/resilience.py:179-193 | a concrete run that serves a value after its TTL expired in Redis |
| CacheRefinement.EvictedKeyOutlivesInvalidation | src/amberclaw/cache/resilience.py:107-114 | a concrete run that serves a value after its tag and its prefix were invalidated |
| CacheRefinement.MissedWriteIsUndone | src/amberclaw/cache/resilience.py:140-150 | a concrete run in which an eviction brings an older value back; the exact condition is `CacheFaults.LastSetOrReceived` |
| CacheFaults.RunFollows | src/amberclaw/cache/resilience.py:107-267 | after any run, with any failures, modes, TTLs and invalidations, every L1 entry held since its last set is the item the caller intended, and every other is a copy of what reached Redis |
| CacheFaults.GetInAnyRun | src/amberclaw/cache/resilience.py:152-202 | after any run `get` returns the intended item if held and live, and otherwise what Redis contributes |
| CacheFaults.RightExactly | src/amberclaw/cache/resilience.py:152-202 | so it returns what a cache without tiers, failures, capacity or index would exactly when the item is held and live or what Redis contributes agrees; tags, prefixes and TTLs are taken from the history of calls |
| CacheFaults.LastSetOrReceived | src/amberclaw/cache/resilience.py:140-202 | without TTLs, in any run, an answered `get` is the last value set while the key is held, the last value that reached Redis otherwise, and right if and only if the key is held or the two agree |
| CacheResidency.TagCompleteExactly | src/amberclaw/cache/resilience.py:220-242 | after any healthy run tag invalidation clears both tiers if and only if every item that Redis holds with the tag is resident in L1 |
| CacheTtl.RunTied | src/amberclaw/cache/resilience.py:116-267 | in runs where no Redis call fails, with any TTLs that Redis accepts, every L1 entry has the value Redis has and, if it has a TTL, the one Redis was given |
| CacheTtl.StaleExactly | src/amberclaw/cache/resilience.py:152-202 | after any such run `get` returns what Redis holds live at that time if and only if L1 does not serve the item past its expiry in Redis, or the value is None |
| CacheTtl.TtlRespectedWithoutPromotion | src/amberclaw/cache/resilience.py:186-193 | while no expiring item is promoted, `get` returns what Redis holds if and only if the L1 entry is not in the fraction of a second that Redis cut off its TTL, or its value is None |
| CacheTtl.ZeroTtlNeverExpires | src/amberclaw/cache/resilience.py:144-147 | in every state where Redis takes the write, an item stored with TTL zero is expired at once in L1 and served from Redis at any later time |
| CacheTtl.WriteRefusedExactly | src/amberclaw/cache/resilience.py:140-150 | in every state where Redis is asked: it keeps its older item, and a failure is counted, if and only if the TTL is not zero and below one second; with a negative TTL the older item is then what `get` reads |
| CacheTtl.TiersAgreeExactly | src/amberclaw/cache/resilience.py:45-49 | both tiers serve a newly set item for the same time if and only if its TTL is absent, negative or a positive number of whole seconds |
| CacheBreaker.RunPath | src/amberclaw/cache/resilience.py:84-202 | with Redis present, at every moment of every run the breaker follows from what Redis answered: the failures since the last success, all failures, the time of the last, how often it became degraded; normal while fewer than the threshold came in a row, so after every success, and otherwise degraded until a read reaches Redis later than the probe interval after the last failure |
| CacheBreaker.AlwaysDegradedAlone | src/amberclaw/cache/resilience.py:71 | without Redis the cache stays degraded and counts nothing |
| CacheBreaker.RunCounts | src/amberclaw/cache/resilience.py:152-267 | the counters of any run: a hit for the tier that answered or a miss per `get`, one invalidation per single call and per key that a tag or prefix removed from L1 |
| CacheBreaker.CountersAddUp | src/amberclaw/cache/resilience.py:152-202 | hits are L1 hits plus L2 hits; hits plus misses are the completed `get` calls |
| Ranking.ComputeNdcgAtK | src/amberclaw/memory/evaluation.py:42-83 | the loops compute the clamped ratio of DCG and ideal DCG, 0 in the degenerate cases |
| Ranking.DcgAtMostIdcg | src/amberclaw/memory/evaluation.py:67-83 | with distinct ids among the first k the unclamped DCG is at most the ideal DCG (rearrangement), so the clamp is inert |
| Ranking.PerfectExactly | src/amberclaw/memory/evaluation.py:67-83 | with distinct ids among the first k DCG equals ideal DCG if and only if the ranking is ideal |
| Ranking.IdealIsMaximum | src/amberclaw/memory/evaluation.py:67-79 | the ideal DCG is the largest DCG of any ranking of distinct ids, and some ranking attains it |
| Ranking.ReplacedGrade | src/amberclaw/memory/evaluation.py:67-73 | another grade at a rank changes the sum by the difference of the gains times the discount of that rank |
| Ranking.ExchangeRaisesExactly | src/amberclaw/memory/evaluation.py:67-73 | exchanging two results raises the DCG if and only if a relevant one with the higher grade moves forward, also from beyond the first k |
| Ranking.RepeatExceedsIdeal | src/amberclaw/memory/evaluation.py:67-83 | any list with a repeat among its first k ids exceeds the ideal DCG when just those ids are relevant |
| Ranking.ClampInertExactly | src/amberclaw/memory/evaluation.py:67-83 | DCG is at most ideal DCG for every relevance map if and only if no id is repeated among the first k |
| Ranking.SortedFacts | src/amberclaw/memory/evaluation.py:76 | the sorted grades are a descending permutation |
| Ranking.FromIdsFacts | src/amberclaw/memory/evaluation.py:61-65 | a plain list of ids grades exactly those ids 1 |
| Ranking.RecallExactly | src/amberclaw/memory/evaluation.py:104-121 | without relevant ids recall is 1; otherwise, for any list, it is never below the share of relevant ids retrieved, and equals it if and only if no relevant id is repeated in the first k or all were found |
| Ranking.RecallOfDistinct | src/amberclaw/memory/evaluation.py:104-121 | for distinct ids recall is that share, 1 exactly when all are found |
| Ranking.RepeatedIdInflatesRecall | src/amberclaw/memory/evaluation.py:119-121 | a repeated id hides a relevant id that was not retrieved |
| Ranking.ComputeMrrAtK | src/amberclaw/memory/evaluation.py:23-39 | the reciprocal rank of the first relevant id among the first k, 0 if there is none |
| ChatStream.Stream | sdk/typescript/src/client.ts:126-161 | the read, split and yield loop yields one chunk per terminated block with a data line, in order and numbered from 0, with the parsed content and finish reason of its payload, or the payload itself if it does not parse |
| ChatStream.YieldBlocks | sdk/typescript/src/client.ts:138-157 | the same for given blocks and a first index |
| ChatStream.EmittedCarry | sdk/typescript/src/client.ts:139-157 | content is empty when absent, an empty or absent finish reason is none, an unparsable payload is passed on as it is |
| ChatStream.IncrementalIsWhole | sdk/typescript/src/client.ts:130-160 | after any reads the chunks are those of the whole text and the buffer is its unfinished last piece |
| ChatStream.ChunkingIrrelevant | sdk/typescript/src/client.ts:130-160 | two cuts of one text, even inside a delimiter, yield the same chunks with indices 0, 1, 2, ... |
| ChatStream.SplitIsSplit | sdk/typescript/src/client.ts:135 | the split is the cutting of the text at its leftmost delimiters |
| ChatStream.SplitUnique | sdk/typescript/src/client.ts:135 | no other list of pieces is |
| ChatStream.SplitResumes | sdk/typescript/src/client.ts:134-136 | splitting after more text arrived resumes from the unfinished piece |
| ChatStream.FirstDataIsFirst | sdk/typescript/src/client.ts:139 | the line used is the first with the data prefix, and there is none exactly when no line has it |
| ChatStream.NothingDroppedExactly | sdk/typescript/src/client.ts:130-160 | everything is delivered if and only if the unterminated tail holds no data line |
| DelayBuffer.DelayState.EnqueueDelayedEntry | src/amberclaw/channels/mochat.py:855-869 | the whole new state: entry appended, old timer cancelled, new timer armed |
| DelayBuffer.DelayState.FlushDelayedEntries | src/amberclaw/channels/mochat.py:877-896 | the whole new state and the batch taken |
| DelayBuffer.EveryInterleaving | src/amberclaw/channels/mochat.py:855-902 | in every interleaving the batches taken followed by the buffer are the accepted entries in order, and each batch has its own task |
| DelayBuffer.BufferedMeansArmed | src/amberclaw/channels/mochat.py:855-875 | a non-empty buffer outside the lock has exactly one live timer |
| DelayBuffer.TakenNeverCancelled | src/amberclaw/channels/mochat.py:885-902 | a task that has taken a batch keeps it and is never cancelled |
| DelayBuffer.RestMeansDelivered | src/amberclaw/channels/mochat.py:855-902 | when all has come to rest, every message that arrived has been delivered once and in order |
| DelayBuffer.AcceptsWhatArrived | src/amberclaw/channels/mochat.py:855-896 | the accepted entries are the messages whose callers got the lock, in order |
| DelayBuffer.AlwaysComesToRest | src/amberclaw/channels/mochat.py:855-902 | without new messages no run of the tasks goes on for longer than a bound read off the state, and one that cannot go on has delivered every message that arrived, once and in order |
| DelayBuffer.TimerTakesAll | src/amberclaw/channels/mochat.py:871-896 | the armed timer, left to run, takes the whole buffer |
| DelayBuffer.FlushStatements | src/amberclaw/channels/mochat.py:886-896 | the statements of a flush amount to one step of the protocol |
| SeenIds.Deduplicator.RememberMessageId | src/amberclaw/channels/mochat.py:844-853 | duplicate exactly when the id is among the last 2000 recorded for its key; only a new id is recorded, only under its key |
| SeenIds.Deduplicator.Trimmed | src/amberclaw/channels/mochat.py:851-852 | the loop keeps the last 2000 ids and the set equal to them |
| SeenIds.AcceptancesAreSpaced | src/amberclaw/channels/mochat.py:844-853 | two acceptances of one id are more than 2000 acceptances apart |
| SeenIds.EveryIdAccepted | src/amberclaw/channels/mochat.py:844-853 | exactly the ids that arrive are accepted at some time |
| SeenIds.AcceptedExactly | src/amberclaw/channels/mochat.py:844-853 | an arriving id is accepted if and only if it is not among the last 2000 accepted |
| TokenBucket.ChannelRateLimiter.TryOnce | src/amberclaw/channels/resilience.py:52-75 | the verdict and the new bucket of one pass; other channels untouched, nothing stored unless granted |
| TokenBucket.ChannelRateLimiter.Acquire | src/amberclaw/channels/resilience.py:40-80 | tokens are taken at most once, at the first pass that can; an unsuccessful call leaves no trace |
| TokenBucket.ChannelRateLimiter.FirstDecides | src/amberclaw/channels/resilience.py:52-80 | the first pass that finds the tokens in time, or finds the time up or the back-off too long, decides the call |
| TokenBucket.ChannelRateLimiter.ReportRateLimit | src/amberclaw/channels/resilience.py:82-91 | the back-off end, five seconds without a positive delay |
| TokenBucket.RateBound | src/amberclaw/channels/resilience.py:63-75 | the cost granted between any two grants is at most capacity plus rate times the time between them |
| TokenBucket.RunIsTightest | src/amberclaw/channels/resilience.py:63-75 | after every run the bucket is exactly the tightest slack of what was granted |
| TokenBucket.GrantedExactly | src/amberclaw/channels/resilience.py:52-75 | an attempt is granted if and only if the channel is not blocked and the cost fits every interval since a past grant |
| TokenBucket.BurstExactly | src/amberclaw/channels/resilience.py:50-75 | before the first grant a channel that is not blocked grants exactly what is at most twice its rate, or at most five |
| TokenBucket.TokensBounded | src/amberclaw/channels/resilience.py:63-75 | stored tokens stay within 0 and the capacity |
| TokenBucket.NoGrantWhileBlocked | src/amberclaw/channels/resilience.py:55-61 | nothing is granted between a report and the end of its back-off while no later report follows |
| TokenBucket.CutShortByLaterReport | src/amberclaw/channels/resilience.py:82-91 | a grant before the end of a reported back-off means that the latest report before the grant came after it and had ended |
| TokenBucket.LatestRules | src/amberclaw/channels/resilience.py:82-91 | the back-off in force is that of the latest report: its delay if positive, else five seconds |
| TokenBucket.ShorterReportReplacesLonger | src/amberclaw/channels/resilience.py:91 | a concrete run, for every rate, in which a later report of one second ends a back-off of sixty |
| SlidingWindow.RateLimiter.Dispatch | src/amberclaw/api/middleware.py:189-221 | admitted exactly when the client's own full log allows it; exempt paths and other clients leave no trace |
| SlidingWindow.PruneAgrees | src/amberclaw/api/middleware.py:204-208 | pruning keeps the list equivalent to the full log from the cutoff on |
| SlidingWindow.IntervalBound | src/amberclaw/api/middleware.py:202-221 | every half-open interval of the window's length holds at most the limit |
| SlidingWindow.RefusedOnlyAtTheLimit | src/amberclaw/api/middleware.py:210-221 | a request is refused if and only if one more admission would exceed the limit in the last window |
| SlidingWindow.RateLimiter.Reset | src/amberclaw/api/middleware.py:175-177 | all logs are empty |
| AuditChain.VerifyChain | src/amberclaw/governance/audit.py:141-186 | accepts exactly the files whose records form a chain from the genesis hash |
| AuditChain.AuditLogger.LogAction | src/amberclaw/governance/audit.py:80-123 | one record with the given fields is appended and other files are unchanged; the file is accepted afterwards if and only if it was before and does not end in an object that the record model rejects |
| AuditChain.LastHashFixesTheFile | src/amberclaw/governance/audit.py:57-62 | two accepted files with unambiguous fields, the same last hash and no hash collision hold the same records |
| AuditChain.DataInjective | src/amberclaw/governance/audit.py:57-62 | the hashed text determines the record |
| AuditChain.DataReads | src/amberclaw/governance/audit.py:57-65 | the hashed text is index, timestamp, action, actor, target, details and previous hash, in this order, with bars between |
| AuditChain.DecimalReads | src/amberclaw/governance/audit.py:61 | the index is written in digits, without leading zeros, and reads back as itself |
| AuditChain.PrefixAccepted | src/amberclaw/governance/audit.py:141-186 | every prefix of an accepted file is accepted |
| AuditChain.LastOfRecords | src/amberclaw/governance/audit.py:67-79 | the record read back is the last of the file, or none if the record model rejects it |
| AuditChain.LastRecordReads | src/amberclaw/governance/audit.py:67-79 | the record read back is that of the last line that is not blank, none if that line is not a record |
| AuditChain.BarIsAmbiguous | src/amberclaw/governance/audit.py:61 | every record with a bar in timestamp, action, actor or target has a double: another record that hashes the same text to the same hash |
| AuditChain.NoneTargetIsAmbiguous | src/amberclaw/governance/audit.py:61 | so has every record without a target or with one called `None` |
| AuditChain.AmbiguousExactly | src/amberclaw/governance/audit.py:57-62 | a record has a double, with any JSON details, if and only if one of these fields holds a bar or the target reads `None` |
| AuditChain.LastHashExactly | src/amberclaw/governance/audit.py:141-186 | for a hash of fixed length and a file without collisions, an accepted file has an accepted rival with other records, of any details, the same last hash and no collision between the two, if and only if one of its records is ambiguous |
| AuditChain.NoJsonAfterBar | src/amberclaw/governance/audit.py:61 | what follows a bar in a JSON text is not a JSON text, so details can always be read off the hashed text |
| AuditChain.LastHashApplies | src/amberclaw/governance/audit.py:141-186 | a hash and a file of two unambiguous records that meet the hypotheses of `LastHashExactly` |
| CronService.CronService.Start | src/amberclaw/cron/service.py:191-217 | the next runs of the enabled jobs recomputed and the wake-up armed |
| CronService.CronService.Stop | src/amberclaw/cron/service.py:203-208 | nothing is armed any more |
| CronService.CronService.AddJob | src/amberclaw/cron/service.py:309-347 | an accepted job is appended, enabled, with the next run its schedule gives for the clock reading; a schedule with a time zone that is not known, or is not for a cron expression, is rejected and nothing changes |
| CronService.CronService.RemoveJob | src/amberclaw/cron/service.py:349-361 | the jobs with that id go; the answer says whether there was one |
| CronService.CronService.EnableJob | src/amberclaw/cron/service.py:363-379 | the first job of that id is switched and its next run recomputed or cleared; returned as it now is |
| CronService.CronService.RunJob | src/amberclaw/cron/service.py:381-392 | the job is executed exactly when it exists and is enabled or forced |
| CronService.CronService.OnTimer | src/amberclaw/cron/service.py:249-266 | executing the snapshot of due jobs one by one is the tick of the specification |
| CronService.CronService.ExecuteJob | src/amberclaw/cron/service.py:268-299 | the table after one execution: one-shot jobs deleted or disabled, others rescheduled |
| CronService.SnapshotIsTick | src/amberclaw/cron/service.py:255-263 | executing due jobs in turn by id equals updating the table at once |
| CronModel.NextWakeIsEarliest | src/amberclaw/cron/service.py:219-228 | the wake-up computed is the minimum next run over the enabled jobs |
| CronTiming.TableIsLives | src/amberclaw/cron/service.py:191-392 | after every run, while no id is used twice, the table holds exactly the jobs added and neither removed nor over, each as it was added, enabled as last set, with its last execution, and with the next run its schedule gives for the clock reading of its last planning |
| CronTiming.FiresExactly | src/amberclaw/cron/service.py:249-263 | a tick fires exactly the enabled jobs whose plan has come due |
| CronTiming.OneShotFiresExactly | src/amberclaw/cron/service.py:27-30 | a one-shot job fires if and only if it is enabled, the tick's clock has reached its time, and it was last planned before that time; a time of 0 counts as none |
| CronTiming.RecurringFiresExactly | src/amberclaw/cron/service.py:31-36 | a recurring job fires if and only if it is enabled, its interval is positive, and the tick's clock is at least the interval after its last planning; a due time of 0 counts as none |
| CronTiming.EveryWaitsItsInterval | src/amberclaw/cron/service.py:295-299 | after a tick fired a recurring job, and until it is enabled, removed, run by hand or the service started, the next tick to fire it is the first at least its interval after the clock reading that planned it anew |
| CronTiming.MissedWhileStopped | src/amberclaw/cron/service.py:210-217 | a concrete run after which a one-shot job is enabled and no tick at any time fires it |
| CronTiming.RunsExactly | src/amberclaw/cron/service.py:191-208 | the service runs exactly if the last start or stop was a start |
| CronModel.AlwaysArmedRight | src/amberclaw/cron/service.py:230-247 | after every sequence of operations the armed wake-up is that minimum while the service runs, and none otherwise |
| CronModel.TickLeavesNoneOverdue | src/amberclaw/cron/service.py:249-299 | after a tick no enabled job has a next run at or before the tick's clock |
| CronModel.TickLosesOnlyOneShots | src/amberclaw/cron/service.py:286-294 | a tick loses only due one-shot jobs marked for deletion and keeps the order of the rest |
| CronModel.TickSparesTheRest | src/amberclaw/cron/service.py:249-266 | a job that is not due comes through unchanged |
| CronModel.FiresOncePerEnable | src/amberclaw/cron/service.py:286-294 | while no id is used twice, between two ticks that fire the same one-shot job there is an explicit enable of it |
| CronModel.AlwaysUnique | src/amberclaw/cron/service.py:309-392 | while no id is used twice, ids are unique in the table and all of them come from jobs added in the run |
| CronInterleaving.UninterruptedIsTick | src/amberclaw/cron/service.py:249-266 | a tick that no operation interrupts, job by job, is the atomic tick |
| CronInterleaving.AlwaysArmedOrTicking | src/amberclaw/cron/service.py:230-266 | in every interleaving of operations with the jobs of a tick, the service is ticking or the armed wake-up is the earliest next run |
| CronInterleaving.StartsOncePerRelease | src/amberclaw/cron/service.py:262-294 | in every interleaving, between two starts of the same one-shot job there is an explicit enable of it or an operation that cut off its execution |
| CronInterleaving.AlwaysTodoDue | src/amberclaw/cron/service.py:255-263 | whatever a tick has still to do is in the table and has been due since it began |
| CronInterleaving.CancelledIsTakenUpAgain | src/amberclaw/cron/service.py:230-233 | what a cancelled tick had not finished, the job cut off included, is taken up by the next firing unless the operation was about that job or stopped or started the service |
| AgentGraph.Halts | src/amberclaw/agent/graph.py:70-117 | whatever the answers, every mode ends within twice `Most` steps, with at most `Most` iterations: 1, max, max+1, and max+2 or max+1 for plan-and-execute |
| AgentGraph.MostIsAttained | src/amberclaw/agent/graph.py:70-117 | no smaller bound holds: some run of every mode and maximum ends with exactly that many |
| AgentGraph.StepDecreases | src/amberclaw/agent/graph.py:70-117 | every step decreases the termination measure |
| AgentGraph.MessagesOnlyGrow | src/amberclaw/agent/graph.py:32 | the messages of a run are only ever appended to |
| AgentGraph.StepAppends | src/amberclaw/agent/graph.py:209-297 | each step appends what its node was answered and nothing else: one tool message per result, in order, or one assistant message, which is counted |
| AgentGraph.IterationsCountReplies | src/amberclaw/agent/graph.py:209-297 | the counter is the number of assistant messages the run appended |
| AgentGraph.SimpleCallsOnce | src/amberclaw/agent/graph.py:104-107 | simple mode is one call of the model |
| AgentGraph.StepMoves | src/amberclaw/agent/graph.py:277-311 | the route depends only on the counter and on whether the reply calls tools and the reflection reads as failed |
| AgentGraph.ReplansExactly | src/amberclaw/agent/graph.py:277-283 | a reflection starts over if and only if iterations are left and it failed or its critique, missing information or steps spell "fail" |
| AgentGraph.FallbackStartsOver | src/amberclaw/agent/learning_loop.py:147-158 | the reflector's fallback to success starts the run over while iterations are left |
| ReflectRouter.FailureIsRead | src/amberclaw/agent/graph.py:260-283 | the router reads failure from the formatted reflection exactly when the verdict failed or its critique, missing information or steps spell the word |
| ReflectRouter.ContentReads | src/amberclaw/agent/graph.py:263-273 | the text of the reflection message, line by line |
| ReflectRouter.FallbackReadsAsFailure | src/amberclaw/agent/learning_loop.py:152-158 | the fallback verdict is successful and read as a failure |
| PiiSplice.Scan | src/amberclaw/inference/pii_scanner.py:47-82 | the report of the matches and the text spliced from the last match to the first |
| PiiSplice.ScanIsForward | src/amberclaw/inference/pii_scanner.py:69-73 | for non-overlapping matches found in any order the result is the forward reading: unmatched segments in order, one mask per match |
| PiiSplice.DiscoveryOrderIrrelevant | src/amberclaw/inference/pii_scanner.py:55-73 | the sanitised text does not depend on the order of discovery |
| PiiSplice.RestoredIsOriginal | src/amberclaw/inference/pii_scanner.py:69-73 | putting the reported values back gives the original text |
| PiiSplice.OverlapIsNotForward | src/amberclaw/inference/pii_scanner.py:69-73 | a concrete nested pair that leaves characters of the outer match in the text |
| PiiSplice.LeftoverExactly | src/amberclaw/inference/pii_scanner.py:69-73 | for every overlapping pair, what follows the mask spliced last: the rest of the other mask and the text after its match, or the text from a shifted cut |
| PiiSplice.OverlapExactly | src/amberclaw/inference/pii_scanner.py:69-73 | for every overlapping pair, nested, crossing or with a common start and found in any order: nothing matched survives and nothing else is lost if and only if the cut falls at the end of the longer match, or past it at the end of the text, or inside the other mask when the match spliced last ends no later |
| PiiSplice.NestedExactly | src/amberclaw/inference/pii_scanner.py:69-73 | a pair nested with different starts is replaced by the outer mask alone if and only if the inner mask has the length of the inner match, or is shorter and nothing follows the outer one |
| CardSplitter.SplitByTableLimit | src/amberclaw/channels/feishu.py:473-501 | the loop computes the greedy grouping |
| CardSplitter.GroupsFacts | src/amberclaw/channels/feishu.py:473-501 | the groups concatenate to the input, none is empty, each is within the limit, and there are max(1, ceil(tables / limit)) of them |
| CardSplitter.FewestGroups | src/amberclaw/channels/feishu.py:473-501 | no contiguous partition within the limit has fewer groups |
| CardSplitter.GreedyUnique | src/amberclaw/channels/feishu.py:473-501 | these properties determine the groups |
| CardSplitter.EachTableOpens | src/amberclaw/channels/feishu.py:473-501 | with a limit below one every table is the first element of its group, and every group but the first has one |
| GraphMemory.TemporalGraphMemory.AddEntity | src/amberclaw/memory/graph_memory.py:87-138 | the whole new node table is that of the step whose runs `GraphStory.RunIsTold` describes: merged properties, a history entry only for real changes |
| GraphMemory.TrackChanges | src/amberclaw/memory/graph_memory.py:100-109 | the loop collects exactly the properties that differ, with old and new value |
| GraphMemory.TemporalGraphMemory.AddRelationship | src/amberclaw/memory/graph_memory.py:140-180 | the whole new graph: missing ends created as concepts, the first edge of source and relation refreshed or a new one added |
| GraphMemory.TemporalGraphMemory.GetTemporalHistory | src/amberclaw/memory/graph_memory.py:231-236 | the recorded history, none for an unknown name |
| GraphModel.HistoryIsReversible | src/amberclaw/memory/graph_memory.py:94-127 | between any two moments of any run, replaying the new values leads an entity's properties forward and undoing the old ones leads them back |
| GraphModel.HistoryExplainsAll | src/amberclaw/memory/graph_memory.py:94-127 | the whole history leads from the creation properties to the current ones and back |
| GraphStory.RunIsTold | src/amberclaw/memory/graph_memory.py:87-155 | after every run the graph holds exactly the entities some call named; each has the name, kind and time of its last description, or of the relation that made it; each property is there exactly if ever given, with the value given last; and the history has one entry for each description of a known entity that gave a value different from the one then read, with its time and both values |
| GraphModel.AlwaysGenuine | src/amberclaw/memory/graph_memory.py:100-112 | no entry is empty and every recorded change is a difference |
| GraphModel.AlwaysOnePerRelation | src/amberclaw/memory/graph_memory.py:159-178 | each source keeps at most one outgoing edge per relation |
| GraphModel.FirstTargetWins | src/amberclaw/memory/graph_memory.py:159-178 | the edge of a source and relation has the first target ever related, the first creation time, the last update and the properties of all calls |
| GraphModel.AddedExactly | src/amberclaw/memory/graph_memory.py:159-178 | the relationship is in the graph after the call if and only if the source had no edge of that relation to another target |
| GraphModel.SecondTargetIsLost | src/amberclaw/memory/graph_memory.py:159-178 | a concrete run that does not record a second target |
| GraphModel.AlwaysAnchored | src/amberclaw/memory/graph_memory.py:151-155 | both ends of every edge are entities |
| Supervisor.ClawSupervisor.CheckServices | src/amberclaw/core/kernel.py:190-255 | one sweep of the loop, ended by a failure event that cannot be published |
| Supervisor.ClawSupervisor.StartServiceLocked | src/amberclaw/core/kernel.py:146-168 | only the status of the one service is set |
| SupervisorModel.SweepIsPerService | src/amberclaw/core/kernel.py:195-251 | a service is checked on its own if the sweep reaches it and left alone otherwise |
| SupervisorModel.OthersLeaveItAlone | src/amberclaw/core/kernel.py:195-251 | crashes of other services never change the counter of one that is up |
| SupervisorModel.ChainIsLongest | src/amberclaw/core/kernel.py:228-240 | the chain is the longest run of quick restarts at the end of the log |
| SupervisorModel.AlwaysDigest | src/amberclaw/core/kernel.py:228-240 | the restart counter is the length of that run, never above five |
| SupervisorModel.AtMostFiveInARow | src/amberclaw/core/kernel.py:225-248 | restarts each within a minute of the one before are at most five, anywhere in any run |
| SupervisorModel.RefusedExactly | src/amberclaw/core/kernel.py:212-248 | a crash that a sweep reaches ends in a running service, with one restart more in the log, if and only if it was published and not both the last five restarts were quick and the last is within the minute; otherwise in a failed one |
| SupervisorModel.FailedStays | src/amberclaw/core/kernel.py:197-248 | a failed service is never restarted automatically |
| SupervisorModel.StartedIsNeverStopped | src/amberclaw/core/kernel.py:190-251 | a service that was started and is not handled by hand is running or failed, never stopped |
| SupervisorModel.StoppedStays | src/amberclaw/core/kernel.py:195-197 | a stopped service is left as it is until handled by hand |
| SupervisorModel.ManualSetsStatus | src/amberclaw/core/kernel.py:137-188 | a start, stop or restart by hand sets the status of its service, keeps its counter and changes no other |
| SupervisorModel.UnannouncedIsNotRestarted | src/amberclaw/core/kernel.py:212-226 | a failure that cannot be published leaves the service failed, its restarts unused and the later services unchecked |

## Left out

- The I/O around every core: HTTP, WebSocket, Socket.IO, Redis and file access, subprocesses, the command line and the documentation scripts.
- JSON, SHA-256, regular expressions, croniter, time zones, networkx and LangGraph: inputs or function parameters.
- Floating point: times, tokens, gains and discounts are reals.
- Cache: `get_or_compute`, `clear` and the asynchronous wrappers; thread interleavings between the two locked sections of one call; a Redis delete that fails is taken as not applied, and each call reads the clock once.
- CacheRefinement.HealthyRunIsPlainMap: covers runs without TTL and without Redis failures, because promotion drops the TTL and degraded mode skips writes; all runs are covered by `CacheFaults.RightExactly`.
- CacheTtl.StaleExactly: covers runs in which every call to Redis succeeds, so no TTL that Redis refuses; those runs are covered by `CacheFaults.RightExactly`.
- Ranking: precision, faithfulness, answer relevancy and the metrics tracker.
- ChatStream: errors of the connection and the decoding of bytes to text; a read is the decoded text.
- Delay buffer: `stop`, which discards buffers; fairness of the lock; the content of the dispatched message.
- TokenBucket.ChannelRateLimiter.Acquire: the passes of one call are not interleaved with other callers; `TryOnce` and the run theorems cover interleaved passes.
- Token bucket: a platform capability that changes while the limiter runs.
- Sliding window: how the client key is read from the request.
- Audit: lines that are JSON but not objects, duplicate keys, and index values that compare equal to an integer without being one; a file whose last line is not ended by a newline; the query interface. An object with missing or wrongly typed fields is modelled by the texts that enter its hash.
- Cron: the job file, reloading on external edits, listing; manual runs interleaved with a tick or with each other, which are one step each; a job that survives its cancellation. Jobs are values found by id, so aliasing of a returned job is not captured; delivery fields travel with the message and are not modelled.
- Agent graph: the prompt built from the messages, scratch pads, the parsed plan, a provider or tool that raises, and LangGraph's own recursion limit, which may end a run earlier.
- PiiSplice.ScanIsForward: covers matches that do not overlap; the patterns themselves are not modelled.
- PiiSplice.OverlapExactly: covers pairs, not larger groups of overlapping matches.
- Entity memory: loading and saving, path queries, and Python's equality between values of different types.
- Supervisor: the event listener, the health checks, the shutdown sequence, and the waiting inside a manual restart; a start, stop or restart by hand is the change of status it makes.
- Message bus, memory consolidation, sessions, workflows, tickets, profiles, credentials, configuration: not modelled.
