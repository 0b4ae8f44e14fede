# Gatekeeper core: a Dafny model

Gatekeeper screens prompts, model answers and tool calls for LLM applications. Below its HTTP, ML and UI layers sit
a number of small stateful algorithms, each with a plain specification it has to agree with: a backward reader of the
audit log, ROC statistics, token buckets, caches, a circuit breaker, a daily quota, query pushdown, detector fusion,
line framing and policy loading. This project models those algorithms and proves, for all inputs and all runs, how
they relate to their plain specifications. `dafny verify dfyconfig.toml` checks the whole project.

Code that updates state in place is modelled by classes and methods with loops, proved against specification
functions; the theorems are then lemmas about those functions over whole runs. Clocks, files, stored keys, parsed
JSON, detector scores, nearest-neighbour answers and arbiter verdicts are parameters. Numbers are `real`.

## What is proved, and where the code keeps less than it says

- **Tail reader.** Whatever the chunk size, the lines returned are the newest non-blank lines within the byte budget.
  A scan stopped by its *budget* resumes without loss. A scan stopped by its *quota* leaves the older lines of its last
  chunk in neither the output nor the carry; resuming is lossless exactly when there are none. The activity feed
  inherits this: it can miss matches, and a log of one chunk is never swept a second time, although nothing is
  reported as truncated.
- **ROC.** The rank-sum AUC is the pair-counting AUC for every list with ties. The trapezoid AUC differs from it by
  exactly half the imbalance of tied pairs. The threshold chosen under a false-positive budget keeps its promise at
  every budget if and only if no positive is followed, in input order, by a negative of the same score.
- **Rate limiting.** Admissions over any stretch of any run are bounded by capacity plus refill, `retry_after` is
  exact. The Lua bucket answers every call like the local one from the same buckets exactly when no call meets an
  expired bucket that would not be full again, which is certain while half of each TTL that passes on the server passes
  on the caller's clock; and the first call that does can be told from the answers. Calls without a stamp, as the
  gateway makes them, are answered like the local limiter's at the server's time, whatever expires.
- **Caches and ratchet.** A hit is the latest write within its TTL, eviction is least-recently-used and retention is
  as promised. The positional index always holds the right vectors but loses its alignment on a fuzzy hit unless all
  rows from the hit on are equal, after which the same query is answered from a neighbour's entry. An aligned index
  answers with the most similar entry. The one-way
  ratchet holds for atomic assessments; with lookup and save as separate steps it holds exactly when no request
  that was already past its lookup saves a lower verdict.
- **Breaker and quota.** The local breaker is open exactly when enough failures have come since the last close;
  half-open lets every caller through, not one probe. The shared breaker answers every poll like one local breaker
  while failures are less than a TTL apart and an open breaker is used in time, and callers can tell it apart at the
  first event that comes later. On the local tracker, the store and the fallback a quota is overshot by at most K calls
  of M tokens. A check refuses exactly when the tokens recorded have reached the quota, for a counter that is kept; one
  that rolls over to a new day keeps its old place in the eviction order, so it can be evicted just after it was
  charged. Tokens are never lost when Redis fails cleanly, but tokens whose *write* failed are not enforced while
  reads work.
- **Queries and rows.** Top-`limit` by id per table, merged and cut, is exact at a limit exactly when no row that its
  own table cut off is later than a row shown; so it is for chronological tables, and for one table some accepted limit
  is wrong exactly when one of its last 200 matching rows is stamped before a row written earlier. A column reads back
  what was written exactly for the values that fit its declared type: a number in a text column comes back as text. The
  comment about parity of the two readers fails for a missing tenant (null against "unset") and for a numeric one.
- **Stdio transport.** The bounded-read loop answers exactly like splitting the whole stream at newlines, up to a line
  whose parsing raises anything but a decoding error, which ends the loop against the docstring. Two methods are
  answered even without an id, against the docstring too.
- **Fusion and decision.** The per-class triple makes the threshold cascade land on the most severe class verdict of
  the richest fully scored tier. Without clear authority nothing at or above medium is ever served or cached as LOW.
  The fast path is described as an earlier exit only; it agrees with the deep path for every arbiter exactly when the
  deep path is past its own cutoff unhindered.
- **Policy.** The validator is silent exactly when loading is usable, keeps the default action and drops nothing.
  Decisions never depend on files loaded before the last, but the default action shown to callers can.
  Passed as a candidate, an unusable store blocks exactly when it holds some tenant: an empty store is false in
  `store or _store`, so the live store decides instead.

## Model

| member | source | states |
|---|---|---|
| `Lines.SplitIsInverseOfJoin` | core/activity.py:103 | Splitting at newlines neither invents nor loses a byte: joining gives the input back and no part holds a newline |
| `Lines.SplitWithCarry` | core/activity.py:102-111 | Prepending an older chunk only disturbs the first part, so carrying that part over is enough |
| `Lines.SplitAtSeparator` | core/mcp_server.py:181-199 | A newline cuts the reading of a stream in two independent ones |
| `TailScan.ReadStep` | core/activity.py:96-111 | One chunk joined with the carry yields the parts a single split of the whole scanned stretch would yield |
| `TailScan.AppendNewest` | core/activity.py:113-117 | Appends the non-blank parts newest first, cut at the quota |
| `TailScan.NewestMembers` | core/activity.py:113-115 | The lines returned are the parts holding some byte other than ASCII white space, and no others |
| `TailScan.ScanChunk` | core/activity.py:96-117 | One turn keeps the scan standing: lines, carry and position are those of the plain reading down to that position |
| `TailScan.ScanBack` | core/activity.py:94-120 | The loop ends with the plain answer for its budget and quota, and says truncated exactly when the budget stopped it |
| `TailScan.TailRawLines` | core/activity.py:54-123 | All exits: missing or empty file, nothing left, and the scan result with a resume state that is again a partial line |
| `TailScan.TailIsNewestFirst` | core/activity.py:62-66 | For every file, quota, budget and chunk size: a prefix of the reversed non-blank lines, exactly the first `needed` unless truncated |
| `TailScan.AllLinesOfFile` | core/activity.py:84-86 | The reference of a scan from the end is the plain reading of the file |
| `TailScan.ResumeConcatenates` | core/activity.py:85-92 | Scanning on from (pos, carry) and concatenating is scanning the whole stretch |
| `TailScan.BudgetsAdd` | core/activity.py:95-96 | A budget stop resumed with a second budget finds what one scan with both budgets finds |
| `TailScan.ResumeAccounting` | core/activity.py:113-122 | Every line is in the answer, in reach of a resumed scan, or beyond the quota in the chunk already read; lossless iff that last stretch is empty |
| `Activity.Collect` | core/activity.py:158-171 | The normalised, matching records in line order up to a limit; raises exactly when a line that is no object, or has an event type that cannot be looked up, comes before the limit is met |
| `Activity.MatchesIsWanted` | core/activity.py:158-171 | A record passes the filters iff it is wanted on the keys of its own line: request id, tenant with a missing one read as "unset", event type with a missing or false one read as "legacy"; it is shown with these defaults and "unset" for the capability, and otherwise unchanged |
| `Activity.RaisesOnIff` | core/activity.py:163-170 | A parsed line raises iff it is no object, or passes the tenant filter and has a true event type that cannot be looked up in the set asked for |
| `Activity.SelectedPicks` | core/activity.py:159-171 | The records kept are the wanted lines, each once, in order, with the defaults filled in: every kept one comes from such a line and every such line is kept |
| `Activity.ReadFirstPass` | core/activity.py:154-157 | Pass 1 stops at the byte budget or at the first chunk boundary that meets the limit, splitting the log in three |
| `Activity.FirstPassStopIsUnique` | core/activity.py:95-97 | Where pass 1 stops is determined by file, limit, byte budget and chunk size |
| `Activity.Sweep` | core/activity.py:178-203 | Pass 2 sees the newest of the unread lines, all of them unless truncated |
| `Activity.Clamp` | core/activity.py:136 | The limit is the allowed one nearest to the one asked for |
| `Activity.GetRecentActivity` | core/activity.py:126-205 | The feed is exactly the wanted lines of pass 1 and of the swept lines, newest first, cut at the clamped limit; exactly when it raises |
| `Activity.FeedAgainstLog` | core/activity.py:175-205 | Order-preserving and gap-described against the whole log; the newest `limit` matches iff pass 1 sufficed or passed over no match |
| `Activity.SmallLogIsNotSwept` | core/activity.py:178 | A log within one chunk is judged by its newest `limit` lines only |
| `Activity.FilteredFeedCanMissAMatch` | core/activity.py:175-178 | Witness: a match in the log, an empty feed, no truncation reported |
| `Activity.ReadTail` | core/activity.py:234 | With no line limit: all lines unless the file is larger than the budget, and truncation says exactly that |
| `Activity.FindByRequestId` | core/activity.py:208-252 | The trace is exactly the lines within the byte budget that have the request id and, under a tenant filter, that tenant, oldest first; complete when not truncated, otherwise the most recent part without a gap; it raises exactly when a line within the budget does |
| `RocAuc.RunEnd` | evaluation/metrics.py:47-49 | The inner loop finds the whole run of equal scores |
| `RocAuc.TieGroupRank` | evaluation/metrics.py:50 | All members of a maximal run i..j have rank (i+j)/2 + 1 by counting |
| `RocAuc.TieRanks` | evaluation/metrics.py:43-53 | The filled array holds every example's tie-averaged rank |
| `RocAuc.PositiveRanks` | evaluation/metrics.py:55-56 | The sum of the positives' ranks and their number |
| `RocAuc.PositivesAgainstThemselves` | evaluation/metrics.py:60 | Positives compared with each other contribute exactly n_pos squared half-credits |
| `RocAuc.RankSumIdentity` | evaluation/metrics.py:34-36 | The Mann-Whitney identity with ties |
| `RocAuc.RankSumAuc` | evaluation/metrics.py:32-60 | For every score and label list: the fraction of (positive, negative) pairs of positions ranked right, ties half; NaN without both labels |
| `RocAuc.PairsOfPositions` | evaluation/metrics.py:38 | The pair count and the label counts are those of the two lists position by position, up to the shorter one |
| `RocAuc.RightPairsPermuted` | evaluation/metrics.py:38 | Pair counts do not depend on the order of the examples |
| `RocCurve.AucIsProportion` | evaluation/metrics.py:60 | AUC lies in [0, 1] |
| `RocCurve.AucIsRankInvariant` | evaluation/metrics.py:38-60 | A strictly increasing change of scores leaves AUC alone |
| `RocCurve.CurvePoints` | scripts/calibrate_thresholds.py:184-192 | The points are the cumulative rates between two fixed ends |
| `RocCurve.StepArea` | scripts/calibrate_thresholds.py:196-197 | A step adds a column only for a negative, as high as the positives before it |
| `RocCurve.Area` | scripts/calibrate_thresholds.py:194-197 | The loop sums the trapezoids to the number of positive-before-negative pairs over all pairs |
| `RocCurve.RocCurve` | scripts/calibrate_thresholds.py:175-198 | The trapezoid area is the pair-counting AUC plus the imbalance of tied pairs over twice the pairs |
| `RocCurve.DescendingPairs` | scripts/calibrate_thresholds.py:177-192 | In descending order, positives before negatives are the right pairs plus the tie imbalance |
| `RocCurve.SortKeepsImbalance` | scripts/calibrate_thresholds.py:177-178 | The stable sort does not reorder tied examples |
| `RocCurve.TrapezoidAgreesIffBalanced` | scripts/calibrate_thresholds.py:194-197 | The two AUCs agree iff tied pairs balance, so always when no positive ties a negative |
| `RocCurve.TrapezoidInflatesATie` | scripts/calibrate_thresholds.py:194-197 | Witness: one tied pair, rank sum 1/2 and imbalance 1 |
| `RocThreshold.Confusion` | evaluation/metrics.py:98-110 | The four counts of a cutoff, adding up to positives and negatives |
| `RocThreshold.SweepPoints` | evaluation/metrics.py:70-77 | One operating point per prefix of the descending order |
| `RocThreshold.RocPoints` | evaluation/metrics.py:63-78 | No curve without both labels, else the points of the sorted examples |
| `RocThreshold.Best` | evaluation/metrics.py:86-95 | The greatest (tpr, threshold) pair within budget, if any |
| `RocThreshold.NothingWithinBudgetIff` | evaluation/metrics.py:81-95 | No threshold is found iff the budget is negative, and then the recall is zero; without a curve neither is known |
| `RocThreshold.PointCutsItself` | evaluation/metrics.py:77 | A point's threshold flags exactly its examples iff the next one does not tie |
| `RocThreshold.RecallIsOptimal` | evaluation/metrics.py:81-86 | No threshold within budget has a higher recall, ties or not |
| `RocThreshold.SortKeepsNegativesFirst` | evaluation/metrics.py:65 | The stable sort neither makes nor removes a positive followed by a tied negative |
| `RocThreshold.ThresholdKeepsItsPromise` | evaluation/metrics.py:89-95 | Measured FPR within budget and measured recall equal to the promised one |
| `RocThreshold.PromiseHoldsIff` | evaluation/metrics.py:89-110 | The promise holds at every budget iff no positive is followed in the input by a tied negative |
| `RocThreshold.PromiseAtBudgetIff` | evaluation/metrics.py:89-110 | At one budget it holds iff the example after the chosen point does not tie with the last one flagged |
| `RocThreshold.OnlyTheBudgetCanBreak` | evaluation/metrics.py:89-95 | With any ties recall is never overpromised, and within budget it is exact |
| `RocThreshold.TiesBreakThePromise` | evaluation/metrics.py:89-95 | Witness: a tied pair and a zero budget, and the threshold still flags the negative |
| `OrderedDicts.EvictTo` | core/rate_limit.py:163-166 | Dropping the oldest keys leaves at most the cap and changes no remaining value |
| `OrderedDicts.EvictsOldest` | core/rate_limit.py:163-166 | One key too many drops the first one and keeps the order of the others |
| `RateLimiter.BucketParameters` | core/rate_limit.py:351-362 | A minute gains the limit; the capacity is what the burst gains, but at least one token; the rate is positive iff the limit is |
| `RateLimiter.LocalRateLimiter.Check` | core/rate_limit.py:120-161 | The new registry and answer are those of one step: refill, spend, LRU order, eviction, unlimited case |
| `RateLimiter.LocalRateLimiter.TakeToken` | core/rate_limit.py:145-161 | One bucket: created full or refilled up to capacity, then one token spent or the wait returned |
| `RateLimiter.LocalRateLimiter.EvictIfNeeded` | core/rate_limit.py:163-170 | The loop drops the oldest buckets down to the cap |
| `RateLimiter.LocalRateLimiter.Reset` | core/rate_limit.py:172-175 | Forgets every bucket |
| `RateLimiter.UnlimitedIsAdmitted` | core/rate_limit.py:135-136 | No limit admits the caller and leaves no trace |
| `RateLimiter.FirstCheckIsOfAFullBucket` | core/rate_limit.py:145-161 | An identity not seen before is judged by a full bucket; a wait is promised iff the call is denied |
| `RateLimiter.RefillsAtTheRate` | core/rate_limit.py:151-154 | A bucket gains rate * elapsed until full, and is full from the fill time on |
| `RateLimiter.BurstAdmitsWholeTokens` | core/rate_limit.py:156-161 | Of calls at one instant exactly as many are admitted as there are whole tokens, the first ones |
| `RateLimiter.EvictionStep` | core/rate_limit.py:143-170 | A check drops an identity only for a new one in a full registry, and then the one checked longest ago |
| `RateLimiter.RegistryByLastUse` | core/rate_limit.py:143-170 | After any run the registry is within its cap and ordered by last check |
| `RateLimiter.LimiterProjectsToBucket` | core/rate_limit.py:143-161 | While tracked, an identity sees only its own bucket: other identities change neither state nor answers |
| `RateLimiter.TokensAreConserved` | core/rate_limit.py:151-158 | Tokens left plus calls admitted never exceed tokens before plus refill |
| `RateLimiter.AdmissionBound` | core/rate_limit.py:143-161 | Over any stretch of any run, admitted calls are at most capacity + rate * elapsed |
| `RateLimiter.AdmissionBoundWithEvictions` | core/rate_limit.py:143-170 | Over any run, evictions included, admitted calls plus tokens left are at most the tokens at the start, a capacity per fresh bucket, and the refill |
| `RateLimiter.ReachableWithinCapacity` | core/rate_limit.py:145-154 | In every reachable limiter a bucket holds between zero and capacity |
| `RateLimiter.CheckAgainstPromise` | core/rate_limit.py:156-161 | A drained bucket admits iff its promised time has come, and a denial repeats the same promise |
| `RateLimiter.RetryAfterIsExact` | core/rate_limit.py:87-91 | Denied checks never postpone admission: all before the promise denied, the first from then on admitted |
| `RateLimiter.RetryAfterInLimiter` | core/rate_limit.py:120-161 | The same inside the limiter, whatever else is checked in between, every denial repeating the promised time |
| `RateLimiter.AdmissibleIffWholeToken` | core/rate_limit.py:356-361 | A caller can ever be admitted iff the capacity is at least one token, which is why capacity is floored |
| `RedisLimiter.ScriptBodyIsCheck` | core/rate_limit.py:203-229 | The script body is the local bucket check |
| `RedisLimiter.TtlCoversRefill` | core/rate_limit.py:234-236 | The key's TTL is at least twice the full refill time, and at most two seconds above that or an hour |
| `RedisLimiter.ExpiredIsFull` | core/rate_limit.py:207-216 | A bucket refilled for half a TTL is full, so its expiry cannot be seen |
| `RedisLimiter.ExpiryIsUnseenIff` | core/rate_limit.py:203-216 | Reading no bucket in place of an expired one makes no difference iff that one would be full on the caller's clock |
| `RedisLimiter.StepMirrorsIff` | core/rate_limit.py:186-239 | One call on any two clocks: same answer and same buckets iff it does not meet an expired, unfilled bucket |
| `RedisLimiter.MirroredAfter` | core/rate_limit.py:186-239 | The store mirrors the limiter after every call of a run in which no call meets such a bucket |
| `RedisLimiter.SharedEqualsLocalIff` | core/rate_limit.py:186-239 | On any call sequence and any clocks: every call answered alike from the same buckets iff no call meets an expired, unfilled bucket |
| `RedisLimiter.FirstForgottenCanBeTold` | core/rate_limit.py:186-239 | The first call that meets such a bucket is answered differently, or further checks of its identity at that server time are |
| `RedisLimiter.FullBelowOne` | core/rate_limit.py:207-229 | The one exception: below a capacity of one token a full bucket gives the same answer at every stamp |
| `RedisLimiter.SharedEqualsLocal` | core/rate_limit.py:186-239 | With fixed parameters every call is answered alike, stamps going back included, if half of each TTL that passes on the server passes on the caller's clock |
| `RedisLimiter.UnstampedStep` | core/rate_limit.py:195-201 | A call without a stamp is the local bucket check at the server's time |
| `RedisLimiter.UnstampedEqualsLocal` | core/rate_limit.py:195-239 | With fixed parameters and server times that do not go back, every call without a stamp is answered like the local limiter's at the server's time; expiry is never seen |
| `ExactCache.LocalExactCache.Get` | core/cache_backend.py:99-108 | Hit moves to the end, expired entry is dropped, miss changes nothing |
| `ExactCache.LocalExactCache.Set` | core/cache_backend.py:110-119 | Re-insertion of a known key, eviction of the oldest for a new one in a full cache |
| `ExactCache.LocalExactCache.Delete` | core/cache_backend.py:122-124 | Removes the key if present |
| `ExactCache.LocalExactCache.Flush` | core/cache_backend.py:127-129 | Empties the cache |
| `ExactCache.ReachableIsFaithful` | core/cache_backend.py:99-129 | In every reachable cache entries are last writes, the order is that of last use, the size is bounded |
| `ExactCache.HitIsLatestWrite` | core/cache_backend.py:99-108 | A hit is the latest value written for the key, younger than its TTL; a key that is held and young enough is a hit |
| `ExactCache.EvictsLeastRecentlyUsed` | core/cache_backend.py:115-118 | Only a new key in a full cache drops another, and then the one used longest ago |
| `ExactCache.RetainedWhileRecent` | core/cache_backend.py:99-119 | A key survives with its entry while fewer than max_size distinct others were used since |
| `ExactCache.RetainedAfterUse` | core/cache_backend.py:107 | In particular right after its own use |
| `ExactCache.EvictedByOneMore` | core/cache_backend.py:117-118 | Witness that the bound is sharp |
| `VectorIndex.FaissCache.Rebuild` | core/cache.py:44-56 | Row i is the vector of the i-th entry |
| `VectorIndex.FaissCache.AddEntry` | core/cache.py:110-120 | Re-insert or evict, append, rebuild |
| `VectorIndex.AddStores` | core/cache.py:110-120 | An added key is last, with its item and time; every other key keeps its entry, except the oldest when a new key meets a full cache |
| `VectorIndex.FaissCache.LookupFuzzy` | core/cache.py:161-215 | Hit, expired entry, no candidate, lazy first build: the new state and the answer |
| `VectorIndex.LookupUses` | core/cache.py:199-213 | A hit answers the matched entry, moves it to the end and changes no entry; an expired match is dropped alone; no match changes nothing |
| `VectorIndex.FaissCache.Flush` | core/cache.py:217-220 | Empty entries and an empty index |
| `VectorIndex.EntriesAreLastAdds` | core/cache.py:110-220 | After any run each entry is the last one added for its key since the last flush, and there are at most max_size |
| `VectorIndex.EntriesByLastUse` | core/cache.py:110-220 | After any run the entries are ordered by their last add or hit, so the oldest is the least recently used |
| `VectorIndex.MovedRows` | core/cache.py:206-208 | Moving an entry to the end moves its row |
| `VectorIndex.RotationFixes` | core/cache.py:206-208 | That leaves the rows as they were iff all rows from it on are equal |
| `VectorIndex.IndexHoldsTheVectors` | core/cache.py:44-56 | After any run the index holds exactly the entries' vectors, one row per entry |
| `VectorIndex.Realigns` | core/cache.py:119-120 | Adding, flushing and meeting an expired entry re-align the index from any state |
| `VectorIndex.AlignmentAfterLookup` | core/cache.py:200-213 | An aligned index stays aligned after a lookup iff a hit passes no different vector |
| `VectorIndex.AlignedHitIsNearest` | core/cache.py:195-209 | From an aligned index a hit is the cached entry most similar to the query, and above the threshold |
| `VectorIndex.HitIsSimilarIff` | core/cache.py:199-209 | From any index a hit is above the threshold for every similarity measure iff the matched row is in its place |
| `VectorIndex.AlignedRunIff` | core/cache.py:44-56 | The index stays aligned through a whole run iff no hit in it moves an entry past one with a different vector |
| `VectorIndex.SecondLookupReturnsNeighbour` | core/cache.py:202-209 | Witness family: the same query twice, answered the second time by the next entry |
| `Ratchet.LockedStep` | core/risk.py:737-751 | One step keeps HIGH iff it is not a lower save of an earlier miss, and lookups answer HIGH |
| `Ratchet.RatchetHoldsIff` | core/risk.py:614-641 | With separate lookup and save, HIGH is kept through a run iff no request pending at the start saves lower |
| `Ratchet.LockedAnswersHigh` | core/risk.py:744-749 | Every lookup of a locked, kept prompt answers HIGH |
| `Ratchet.AtomicRatchet` | core/risk.py:737-850 | With atomic assessments HIGH is kept and answered until expiry, eviction or flush |
| `Ratchet.LateSaveUndoesEscalation` | core/risk.py:850 | Witness: a request that missed before the escalation saves LOW after it |
| `Ratchet.ConfirmationEscalates` | core/risk.py:614-641 | A background HIGH on something milder stores a locked HIGH, any other outcome leaves the cache alone; the task is done and nothing is answered |
| `Ratchet.AssessmentSteps` | core/risk.py:737-850 | A lookup answers the cached verdict, else the fuzzy one, else leaves the request pending; a save answers and stores its verdict and schedules the confirmation |
| `Ratchet.FlushForgets` | core/cache.py:217-226 | After a flush every lookup answers what the fuzzy tier says or waits; requests in flight and confirmations stay |
| `CircuitBreaker.LocalBreaker.CheckOpen` | core/circuit_breaker.py:167-175 | Closed, open, or half-open: state and answer |
| `CircuitBreaker.LocalBreaker.RecordSuccess` | core/circuit_breaker.py:188-190 | Closes and clears the count |
| `CircuitBreaker.LocalBreaker.RecordFailure` | core/circuit_breaker.py:220-223 | Counts, and opens at the threshold unless already open |
| `CircuitBreaker.LocalBreaker.ForceClosed` | core/circuit_breaker.py:238-240 | Closes and clears the count |
| `CircuitBreaker.OpenIffEnoughFailures` | core/circuit_breaker.py:151-228 | After any run: open iff failures since the last close reach the threshold, opened by the one that reached it |
| `CircuitBreaker.OpenHoldsForCooldown` | core/circuit_breaker.py:167-175 | Open answers true until the cooldown, then false once and closed, whatever failures arrive |
| `CircuitBreaker.ClosedUntilThresholdAgain` | core/circuit_breaker.py:192-200 | After half-open every caller passes until the threshold is reached again |
| `SharedBreaker.TtlCoversCooldown` | core/circuit_breaker.py:122-125 | The key's TTL never shortens a cooldown: a minute, or four times the whole seconds |
| `SharedBreaker.SharedStep` | core/circuit_breaker.py:77-105 | A script answers like the local breaker, and the keys read like it afterwards iff expiry was harmless |
| `SharedBreaker.RefinesIffHarmless` | core/circuit_breaker.py:77-105 | Over any interleaving of replicas: the keys read like the local state through the whole run iff expiry is harmless at each event |
| `SharedBreaker.RefinesUpTo` | core/circuit_breaker.py:77-105 | Up to the first harmful expiry the keys read like the local state and polls are answered alike |
| `SharedBreaker.TimelyRunsAgree` | core/circuit_breaker.py:77-125 | Over events and times: while failures are less than a TTL apart and an open breaker is used before its key expires, every poll is answered as by one local breaker |
| `SharedBreaker.FirstLateEventCanBeTold` | core/circuit_breaker.py:77-125 | At the first event that is not in time, some calls at the same instant are answered differently, so the condition is exact |
| `SharedBreaker.UnpolledBreakerDiverges` | core/circuit_breaker.py:77-105 | Witness: unpolled past its TTL, the shared breaker re-opens on one failure |
| `TokenQuota.LocalTracker.GetCurrent` | core/token_quota.py:104-116 | Day rollover, creation, eviction, LRU order, and the count returned |
| `TokenQuota.LocalTracker.CheckExceeded` | core/token_quota.py:118-130 | Exceeded iff today's count has reached a positive quota |
| `TokenQuota.LocalTracker.RecordUsage` | core/token_quota.py:136-143 | Adds to today's count, nothing for a non-positive amount |
| `TokenQuota.InFlightStep` | core/token_quota.py:118-143 | In flight are the calls let in that have neither finished nor been given up |
| `TokenQuota.BoundStep` | core/token_quota.py:118-143 | Each check, record or abandoned call keeps count below quota - 1 + M * (K - in flight) |
| `TokenQuota.OvershootBound` | api/main.py:869-883 | In any interleaving and across days no count exceeds quota - 1 + K * M |
| `TokenQuota.CounterIsRecorded` | core/token_quota.py:104-143 | As long as a tenant's counter is not evicted, today's count is exactly the tokens recorded today |
| `TokenQuota.CheckIsExact` | core/token_quota.py:118-130 | For a counter that is not evicted: refused iff the quota is positive and the tokens recorded today have reached it |
| `TokenQuota.RefusesOnlyWhenReached` | core/token_quota.py:118-130 | With evictions too: a refusal means that the quota is positive and reached by the tokens recorded today |
| `TokenQuota.RolledOverIsEvictedFirst` | core/token_quota.py:108-115 | Witness family: a counter rolled over to the new day keeps its old place, so one just charged can be the next one evicted |
| `TokenQuota.CounterIsAtMostRecorded` | core/token_quota.py:104-151 | With evictions, and on any days, a count never exceeds the tokens recorded |
| `TokenQuota.RoomyStays` | core/token_quota.py:145-151 | With room for all tenants no counter is evicted |
| `RedisQuota.TtlCoversTheDay` | core/token_quota.py:229-230 | A key written on a day outlives that day, by a day less at most a second |
| `RedisQuota.FirstChargeSetsExpiry` | core/token_quota.py:163-173 | Only the first charge of a day sets the expiry; the count grows by the charge, and no other key changes |
| `RedisQuota.StoreIsRecorded` | core/token_quota.py:163-173 | The stored count of a day is what the store took that day |
| `RedisQuota.FallbackIsLocalRun` | core/token_quota.py:237-242 | The fallback runs like a local tracker on the calls it takes |
| `RedisQuota.NothingIsLost` | core/token_quota.py:224-242 | Whatever operations fail cleanly, store count plus fallback count is the tokens recorded today, while the fallback does not evict the tenant |
| `RedisQuota.NothingIsInvented` | core/token_quota.py:224-242 | With evictions the store count is still exact and the fallback count at most what fell to it |
| `RedisQuota.CheckIsExact` | core/token_quota.py:196-210 | Refused iff the quota is positive and reached by the tokens recorded today with the backend that can be read, while the fallback does not evict the tenant |
| `RedisQuota.FailedWritesAreNeverEnforced` | core/token_quota.py:196-210 | While reads work and writes fail, a tenant with room is never stopped |
| `RedisQuota.FailedReadsAreNeverEnforced` | core/token_quota.py:196-210 | While writes work and reads fail, a tenant with room on the fallback is never stopped |
| `RedisOvershoot.TallyStep` | core/token_quota.py:196-242 | The same for each backend |
| `RedisOvershoot.CrossedStep` | core/token_quota.py:224-242 | Crossed are the calls charged to the backend that did not let them in |
| `RedisOvershoot.StoreStep` | core/token_quota.py:196-235 | Each check, record or abandoned call keeps the stored count of the day below the bound, less what is in flight |
| `RedisOvershoot.FallbackStep` | core/token_quota.py:205-242 | The same for the calls that fall to the fallback |
| `RedisOvershoot.RedisOvershootBound` | api/main.py:869-883 | In any interleaving of replicas, store failures included, a backend's count never exceeds quota - 1 + M * (K + c), c being the calls charged there that the other had admitted |
| `AuditQuery.GatherRows` | core/audit_store.py:264-276 | The per-table selections in visiting order |
| `AuditQuery.RankIsTextOrder` | core/audit_store.py:280-281 | Ties in time are broken by the text order of the table names |
| `AuditQuery.Recent` | core/audit_store.py:248-282 | Newest first by time stamp, table name and id, with the clamped limit; the newest of all tables iff no row cut off by its table is later than one shown, so whenever tables are chronological |
| `AuditQuery.SelectedRows` | core/audit_store.py:269-276 | A table's selection is descending, and what was cut off is older than all of it |
| `AuditQuery.PushdownIsExact` | core/audit_store.py:265-282 | Chronological tables: top `limit` per table, merged and cut, is the newest `limit` of the union |
| `AuditQuery.VisitingOrderDoesNotShow` | core/audit_store.py:257-265 | The arbitrary order of the set of tables does not show in the answer |
| `AuditQuery.PushdownExactIff` | core/audit_store.py:265-282 | At each limit: exact iff no matching row that its own table cut off is later than a row shown |
| `AuditQuery.EnoughLaterIff` | core/audit_store.py:265-282 | The same on the gathered rows alone: exact iff every matching row cut off has at least `limit` gathered rows later than itself |
| `AuditQuery.OneTableExactIff` | core/audit_store.py:274 | One table at each limit n: exact iff its last n matching rows carry the largest time stamps |
| `AuditQuery.LateRowShowsIff` | core/audit_store.py:256-274 | Some limit from 1 to 200 is wrong iff one of the last 200 matching rows is stamped before a row written earlier |
| `AuditRow.CoerceRow` | core/audit_store.py:178-191 | The values to bind in column order, or a refusal exactly when one cannot be bound |
| `AuditRow.RowToRecord` | core/audit_store.py:225-245 | Every stored column decoded under its key, the table's event type, and no other key |
| `AuditRow.ColumnRoundTrip` | core/audit_store.py:63-95 | With the declared types' affinity: a value is read back as written iff it fits its column; what becomes of the others |
| `AuditRow.StoreAndLoad` | core/audit_store.py:178-245 | The write raises iff a text or real column gets an object or list; otherwise each field is read back as it was iff it fits |
| `AuditRow.WriteAndRead` | core/audit_store.py:136-157 | The same for each of the four event shapes; every entry the loggers write comes back as it was written |
| `AuditRow.ColumnsSuitTheLoggers` | core/logger.py:83-115 | Each table has a column, of a type that suits, for every key its logger writes, and no other |
| `AuditRow.ShapedRoundTrips` | core/logger.py:147-161 | An entry of the shape its logger writes is read back as it was |
| `AuditRow.FalseValues` | core/audit_store.py:186-188 | A flag is stored as 0 exactly for null, false, zero, an empty text and an empty object or list |
| `AuditRow.ShapesAreDistinct` | core/audit_store.py:136-151 | No shape has a column twice, also after usage_json is renamed |
| `AuditRow.ReadersAgreeOnTenant` | core/audit_store.py:241-244 | The two readers agree on the tenant iff the entry has one and it is null or a text |
| `StdioServer.RepliesAsTheProtocolAsks` | core/mcp_server.py:90-152 | At most one reply, with the request's id; when replies follow the has-id rule, exactly |
| `StdioServer.CodesSayWhy` | core/mcp_server.py:108-152 | Each message gets a result or the error code that says why not, both ways: no method, unknown method, wrong parameters, a failing handler, a line that does not parse or is no object |
| `StdioServer.StripMeans` | core/mcp_server.py:201 | Stripping removes white space at both ends and only that |
| `StdioServer.OneAnswerPerLine` | core/mcp_server.py:186-231 | A line gets at most one answer: the parse error over the limit, none for white space, else that of its message, whatever white space is around it |
| `StdioServer.ReadLineTakes` | core/mcp_server.py:182 | A bounded read takes the first line or a piece of a longer one |
| `StdioServer.ServeLine` | core/mcp_server.py:182-231 | One turn answers the first line of the stream and leaves the rest after its newline, or raises exactly when its parsing does outside the handlers |
| `StdioServer.SkipLine` | core/mcp_server.py:197-198 | Discarding stops exactly after the next newline, or at the end |
| `StdioServer.Serve` | core/mcp_server.py:181-231 | The answers of the plain split, in order, one null-id error per over-limit line, up to the end of the stream or the first line whose parsing raises outside the handlers |
| `StdioServer.EveryNewlineResynchronises` | core/mcp_server.py:186-199 | Unless a line before a newline ended the server, what follows is answered as if alone |
| `Fusion.ApplyPolicy` | core/fusion.py:188-210 | The loop computes the linear term over the shortest of the four lists |
| `Fusion.Width` | core/fusion.py:204-206 | The loop is as long as the shortest of the four lists |
| `Fusion.TermIsStandardised` | core/fusion.py:208-209 | A score so many deviations from its mean adds that many coefficients; a scale of zero adds nothing |
| `Fusion.AtTheMeans` | core/fusion.py:203-210 | With every score at its mean the linear term is the intercept |
| `Fusion.SelectPerClass` | core/fusion.py:241-259 | The first class that none beats by (severity, ratio); the cascade on its triple is the most severe verdict |
| `Fusion.BeatsIff` | core/fusion.py:246-258 | On scores and cutoffs, whatever their sign: a class beats another iff its band is more severe, or the same and its score the larger part of its HIGH cutoff, a cutoff of zero counting as no part |
| `Fusion.UnionRequired` | core/fusion.py:370-379 | Every detector some tier needs, each once |
| `Fusion.Chosen` | core/fusion.py:471-478 | The richest fully scored tier |
| `Fusion.LosingDetectorsMovesDown` | core/fusion.py:471-478 | Fewer detectors only move the choice to a later tier |
| `Fusion.FloorIsTheLastResort` | core/fusion.py:471-480 | Upgrades are tried in their order; the floor decides iff it is fully scored and no upgrade is, and nothing does iff none is |
| `Fusion.ScoreAll` | core/fusion.py:458-469 | Exactly the detectors that answered have a score, none is counted as zero |
| `Fusion.JudgedOnTierScores` | core/fusion.py:458-478 | A tier's probability depends on its own features only, not on what other tiers had scored |
| `Fusion.ScoreTier` | core/fusion.py:487-522 | The winning class's score with its own thresholds, most severe over all classes; or the tier's own probability |
| `Fusion.RichestScored` | core/fusion.py:474-480 | The loop finds the first tier whose features all have a score |
| `Fusion.FusedThreatScore` | core/fusion.py:425-522 | Unavailable iff there is no policy or no tier is fully scored; otherwise that answer of the richest fully scored tier |
| `RiskDecision.FuseIsTheCascade` | core/risk.py:461-494 | Both branches are one cascade; the judge is required exactly in the band outside vetoes and safe harbour |
| `RiskDecision.LowIff` | core/risk.py:785-838 | Served LOW iff a clean pass, or clearable and cleared by the arbiter that speaks |
| `RiskDecision.HighIff` | core/risk.py:461-679 | HIGH iff vetoed, or not off-topic and either at the high cutoff, or in the band, not educational, and the arbiter that speaks objects: Llama Guard unsafe, or the judge DANGEROUS or unrecognised |
| `RiskDecision.SourceOfStageThree` | core/risk.py:461-494 | The source recorded before arbitration says which branch decided |
| `RiskDecision.SourceOfArbitration` | core/risk.py:561-679 | The source recorded after it says who spoke, and whether the upper half of the band or only the missing clear authority capped it |
| `RiskDecision.TopicalityIsAdvice` | core/risk.py:357-370 | Unless enforced, topicality is reported but changes no verdict |
| `RiskDecision.LowIsReachableIff` | core/risk.py:561-581 | Some arbitration gives LOW iff clean or clearable; without clear authority none does at or above medium, served or settled |
| `RiskDecision.ConfirmationOnlyRaises` | core/risk.py:614-641 | The background confirmation never lowers, and raises iff Llama Guard says unsafe |
| `RiskDecision.SettledIff` | core/risk.py:787-850 | What stands in the end is as served, except that an arbitrated prompt Llama Guard finds unsafe, at once or afterwards, is HIGH |
| `RiskDecision.RiskIsMonotoneInScore` | core/risk.py:373-494 | A higher score never gives a milder verdict for the same arbiters, across the midpoint and degenerate bands |
| `RiskDecision.FastPathOnlyEscalates` | core/risk.py:224-242 | The fast path never lowers, its veto is the deep path's, and what passes is the deep path's alone |
| `RiskDecision.FastAnchorAgreesIff` | core/risk.py:225-232 | The anchor exit agrees with the deep path for every arbiter iff the deep path is past its HIGH cutoff unhindered |
| `RiskDecision.FastPathIsNotJustEarlier` | core/risk.py:225-232 | Witness: HIGH on the fast path, LOW on the deep path |
| `RiskDecision.SeverestDecides` | core/fusion.py:497-500 | The cascade on the triple is HIGH iff some class is, LOW iff all are |
| `RiskDecision.TierDecides` | core/fusion.py:487-522 | Likewise with or without per-class fusion, where the tier's own probability and cutoffs decide |
| `RiskDecision.AssessDeep` | core/risk.py:768-838 | HIGH iff vetoed, or the chosen tier puts the prompt in its HIGH band, or above LOW with an arbiter that objects; without clear authority LOW iff the tier finds nothing; with and without per-class fusion, and the anchors alone when no tier is fully scored |
| `PolicyStores.PolicyStore.LoadFile` | core/policy.py:162-216 | Every exit of the loader: cached, missing, unreadable, malformed, no default, usable |
| `PolicyStores.PolicyStore.Get` | core/policy.py:257-263 | Own policy, else the default tenant's, none for an unusable store |
| `PolicyStores.ParseTenantEntry` | core/policy.py:218-255 | One tenant: exactly its valid part, none when nothing is valid |
| `PolicyStores.ParseRiskMap` | core/policy.py:238-247 | Exactly the valid actions of one capability |
| `PolicyStores.LoadKeepsExactlyTheValid` | core/policy.py:199-255 | Whatever else is wrong, the store holds exactly the valid actions written in the file |
| `PolicyStores.LoadedIffSpokenFor` | core/policy.py:199-255 | A tenant, and a capability of it, is loaded iff the file gives it some valid action |
| `PolicyStores.DecisionAgainstFile` | core/policy.py:365-410 | The decision and its reason read off the file: own or default tenant, undefined capability, valid action, default action, BLOCK |
| `PolicyStores.CandidateDecides` | core/policy.py:390-391 | A candidate decides by itself unless it holds no tenant |
| `PolicyStores.NothingIsHollow` | core/policy.py:248-253 | A tenant or capability is kept only with some action |
| `PolicyStores.ValidEntryIsHonoured` | core/policy.py:390-410 | A valid action of a usable file is the decision, whatever its siblings |
| `PolicyStores.Validate` | core/policy.py:278-346 | Reports every problem of the file, each once, and nothing else |
| `PolicyStores.ValidateTenants` | core/policy.py:322-344 | Exactly the problems of all tenants, each once |
| `PolicyStores.ValidateTenant` | core/policy.py:322-344 | Exactly the problems of one tenant |
| `PolicyStores.ValidateCapability` | core/policy.py:333-344 | Exactly the problems of one capability |
| `PolicyStores.CleanIffLoadedAsWritten` | core/policy.py:283-289 | No problem iff loading is usable, keeps the default action and drops no tenant, capability or action |
| `PolicyStores.EveryLoadIsFresh` | core/policy.py:162-192 | Over any reloads every decision is a valid action and that of a fresh load of the last file |
| `PolicyStores.DefaultIsOfTheLastTable` | core/policy.py:186-192 | The default action itself is that of the last file with a `tenants` key, whatever was loaded since |
| `PolicyStores.StaleDefaultShowsIff` | core/policy.py:358-362 | The default action shown is that of a fresh load iff the last file has a `tenants` key or the one before was BLOCK |
| `PolicyStores.StaleDefaultShows` | core/policy.py:358-362 | Witness: ALLOW still shown while every decision is BLOCK |
| `PolicyStores.OthersUnaffected` | core/policy.py:218-220 | Changing a non-default tenant's entry changes no other tenant's decision |
| `PolicyStores.UnusableBlocksIff` | core/policy.py:390-394 | An unusable candidate blocks against every live store iff it holds some tenant |
| `PolicyStores.CandidatesAgreeIff` | core/policy.py:354-355 | As candidates, files differing at one tenant agree for all others iff both or neither come out empty |

## Left out

- HTTP routing, schemas, metrics, logging, the MCP HTTP transport, the UI, and the evaluation and dataset scripts: plumbing around the modelled logic.
- Transformer, embedding, spaCy and FAISS internals: scores and nearest-neighbour answers are function parameters.
- Floating-point rounding, and the decimal text in which the Lua scripts store numbers: arithmetic is over `real`.
- JSON, YAML and SQLite parsing, text conversion and upper-casing: function parameters or parsed datatypes. For the audit rows the JSON encoder is taken to be faithful on the entry's `usage` value.
- File persistence of the caches, and the write-through failures between the fuzzy and the exact tier.
- Caches of size zero: `popitem` raises on an empty dictionary there, so the cache models take a size of at least one.
- SHA-256 is taken to be injective: a prompt is its own key.
- `by_request_id`, the `legacy_event` table and the SQLite branch of the two activity readers: easy members beside the modelled queries.
- Fallback of the rate limiter and the breaker to local state while Redis raises: the shared models run with a reachable store. The quota's fallback is modelled, for one replica.
- RateLimiter.AdmissionBound: states the bound while the identity stays tracked; an eviction hands out a fresh bucket, which AdmissionBoundWithEvictions counts, on a clock that does not go back.
- RedisLimiter.SharedEqualsLocalIff: for calls with a time stamp (UnstampedEqualsLocal has those without), and room for all identities, as the local limiter evicts and the store does not.
- TokenQuota.CounterIsRecorded: needs a counter that is not evicted, as an evicted one starts again at zero; CounterIsAtMostRecorded covers the rest.
- RedisOvershoot.RedisOvershootBound: models one replica's fallback; calls charged on the backend that did not admit them are counted, and FailedWritesAreNeverEnforced and FailedReadsAreNeverEnforced show that the number of those has no bound.
- RedisQuota.NothingIsLost: the day of the key and the TTL are read from one clock value, where the code reads the clock twice.
- StdioServer.Serve: whitespace is the ASCII set, and the limit counts characters, as the code does.
- AuditRow.WriteAndRead: integers and floats are one kind of number, so the text a number turns into in a text column is a function of its value; integers beyond 64 bits, which the database refuses, are not singled out.
- Fusion.FusedThreatScore: parallel scoring, and the loading and validation of the policy artifact, which is a parameter.
- Topicality classification by embeddings, symbolic rules and the judges' HTTP calls: their outcomes are inputs of the decision model.
