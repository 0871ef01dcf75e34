# Verified models of the stateful core

Dafny models of the parts of the backend whose correctness is a property of whole runs: counters in
Redis that several processes share, caches on top of caches, background work that reschedules itself,
batches that must add up. Each component has the code's own loops as methods of a class, proved against
a specification, and theorems about every run of that specification.

Concurrency is modelled as a state machine: one action lets one client, process, chain or worker take
its next atomic step, or moves the clock, and a theorem about all schedules is a theorem about every
interleaving. The methods run the source's loops against arbitrary batches of foreign actions at every
`await` and are proved to be runs of that machine.

| component | files |
|---|---|
| the option type, facts about rearranged sequences, one caller's steps among others' | Options, Sequences, Interleaving |
| token buckets of the three limiters | TokenBucket, TokenBucketTheorems, RateLimiters |
| feature flags behind two caches | FeatureFlags, FeatureFlagTheorems |
| publish tasks and their retry chains | PublishTasks, PublishChains |
| trending keywords | SortedSets, Trending, TrendingRuns |
| signal ingestion | Ingestion, IngestionRuns, DedupExpiry |
| GPU slots, their queues, multipart upload | GpuSlots, GpuPool, GpuRouting, MultipartUpload |
| request metrics | RequestMetrics |
| score queries and their cache | ScoreQueries, ScoreCache, ScoreStaleness |
| resource analysis | ResourceAnalysis, ResourceAnalyzer |
| run rescheduling | Reschedule |
| scoring weights | Weights, FeedbackTargets |

Check everything with `dafny verify dfyconfig.toml`.

## Where a promise does not hold as stated

Each of these names the lemma that shows the failing input and the lemma with the exact condition.

- A limiter whose limit is below one still grants the first request of every window, because a missing
  key is never compared with the limit (`LowLimitIsExceeded`); no life of a key grants more than the limit,
  over all runs, if and only if the limit is at least one (`LimitHoldsIff`). The bounds are therefore in
  terms of a quota of max(1, limit): an interval as long as the window sees at most 2 * quota - 1 grants,
  which is reached if and only if the window is longer than one tick of the clock or the quota is one
  (`TwoWindowBoundIsTight`). Ticks are of any resolution; a window of a second is a thousand milliseconds.
- Feature flags answer with a value less than two TTLs old if and only if `FEATURE_FLAGS` does not name the
  flag or nothing is cached (`FreshnessCondition`): for a named flag, `set_flag` puts into the setter's
  memory a value the flag never has (`NamedFlagGoesAstray`). The setter reads its own write if and only if
  `FEATURE_FLAGS` does not fix the opposite (`SetterReadsItsOwnWrite`, which also gives the failing run).
- Two GPU bodies can share a slot (`OverrunOverlaps`); a bound on how long bodies run excludes it if and
  only if it is below the lock's timeout (`ExclusiveIff`).
- A task routed by a negative `gpu_index` does not lock that slot, because splitting the queue name at
  `-` loses the sign (`QueueParsesToMagnitude`); the index comes back if and only if it is not negative
  (`RoutedTaskLocksItsSlot`).
- A signal marked by a run that fails before its commit is stored by no later run while the set of seen keys
  lives (`FailedCommitLosesItsSignal`). Within that time every signal seen is stored if and only if each run
  committed, or failed before it fetched, or had nothing new to mark (`RunLosesNothingIff`,
  `RunsLoseNothingIff`).
- A signal that every run sees is still published again once the set of seen keys expires, because seeing a
  duplicate does not refresh the set (`SameIsRepeated`). Runs and process starts at given times never publish
  a key twice, whatever they bring, if and only if the set filled by the first run, refreshed by the starts
  alone, is alive at every later run (`NothingTwiceIff`); with runs alone, if and only if the last starts less
  than a TTL after the first (`RunsWithin`).
- The two SQL formulations of the error rate can differ (`TiesDiverge`); they agree if and only if no idea
  has two latest rows at or after the bound (`QueriesAgree`).
- The cached answers forget which bound they were computed for, so a reader can be told somebody else's
  count (`StaleCount`) or error rate (`StaleRate`). After any run, a live cached count is the reader's own
  if and only if no idea was last scored between the two bounds (`ActiveAnswerIsOwnIff`), and a live cached
  rate is the reader's own for all scores if and only if the same holds (`RateAnswerIsOwnIff`).
- The active-user read raises on PostgreSQL whenever no count is cached, because the statement is handed to
  the driver wrapped in a one-element tuple (backend/monitoring/src/monitoring/metrics_store.py:287-293).
  Where every reader uses PostgreSQL it never returns one
  (`PostgresNeverCounts`).
- The buffered request metrics count labels, not requests, against the batch size: one busy label is
  never flushed by traffic alone (`OneLabelWaits`); traffic alone exports something if and only if a
  hundred different labels were requested (`TrafficFlushesIff`).
- Fewer than twenty recent rows can hide a recommendation (`SmallerWindowsMiss`); twenty is exactly the
  window from which recent rows decide as the whole table does (`TwentyIsTheWindow`).
- A row without impressions can push the click-rate target above every per-row rate
  (`MissingImpressionsEscape`); the target is in the hull of the rates for all clicks if and only if all
  rows have impressions or none has (`ClickRateInHullIff`).
- The first update of a fresh installation raises (`FirstUpdateRaises`); an update raises if and only if
  there is no row yet and some argument names a column (`RaisesIff`).

## Model

| member | source | states |
|---|---|---|
| TokenBucket.RunKeepsInv | backend/api-gateway/src/api_gateway/rate_limiter.py:19-42 | every step of every client, and every expiry, keeps the bucket's books: grants of the current life plus stored tokens equal the limit, lives are a window apart, a queued command is still right if its EXEC will commit |
| TokenBucketTheorems.StepRefines | backend/api-gateway/src/api_gateway/rate_limiter.py:23-42 | one step of one client changes an atomic fixed-window counter by at most the answer it gives |
| TokenBucketTheorems.RunRefinesAtomicCounter | backend/api-gateway/src/api_gateway/rate_limiter.py:19-42 | every interleaving of any number of clients, with expiry anywhere, is a run of the atomic counter with the same answers in the same order |
| TokenBucketTheorems.LifeConservation | backend/marketplace-publisher/src/marketplace_publisher/rate_limiter.py:57-81 | per key lifetime grants plus stored tokens equal the limit, grants never exceed the quota, every refusal happened after the whole quota was granted |
| TokenBucketTheorems.StoredBucketInRange | backend/api-gateway/src/api_gateway/rate_limiter.py:23-42 | for every limit a stored bucket has an expiry within one window and fewer tokens than the limit; for a limit of at least one its tokens are never negative, so no DECR recreates an expired key |
| TokenBucketTheorems.LowLimitIsExceeded | backend/api-gateway/src/api_gateway/rate_limiter.py:28-32 | for every limit below one, one acquire of one client exceeds it |
| TokenBucketTheorems.LimitHoldsIff | backend/api-gateway/src/api_gateway/rate_limiter.py:19-42 | over all runs no life grants more than the limit, if and only if the limit is at least one |
| TokenBucketTheorems.TwoWindowBound | backend/signal-ingestion/src/signal_ingestion/rate_limit.py:39-57 | any half-open interval one window long sees at most 2 * quota - 1 grants |
| TokenBucketTheorems.TwoWindowBoundIsTight | backend/api-gateway/src/api_gateway/rate_limiter.py:27-40 | some run reaches that bound if and only if the window is longer than one clock tick or the quota is one |
| TokenBucketTheorems.RetryBound | backend/api-gateway/src/api_gateway/rate_limiter.py:41-42 | WatchError retries of n clients are at most (n-1) per grant plus n per expiry |
| TokenBucketTheorems.BlockedClientSeesFreshBucket | backend/signal-ingestion/src/signal_ingestion/rate_limit.py:50-53 | a client that slept its window is never refused by the same bucket again |
| RateLimiters.RedisBucket.Watch | backend/api-gateway/src/api_gateway/rate_limiter.py:25 | WATCH records the version of the key; it is the protocol's step |
| RateLimiters.RedisBucket.Get | backend/api-gateway/src/api_gateway/rate_limiter.py:26-27 | in a reachable state None means that every life of the key is over, and a number is what the current life has left of the limit |
| RateLimiters.RedisBucket.Multi | backend/api-gateway/src/api_gateway/rate_limiter.py:28-29 | queueing a command changes nothing but the connection |
| RateLimiters.RedisBucket.Exec | backend/api-gateway/src/api_gateway/rate_limiter.py:30-40 | EXEC commits if and only if the key did not change since WATCH; a commit adds exactly one grant |
| RateLimiters.Pipeline.MultiExec | backend/api-gateway/src/api_gateway/rate_limiter.py:28-42 | with no interference during the await the command commits |
| RateLimiters.Pipeline.Refuse | backend/api-gateway/src/api_gateway/rate_limiter.py:33-36 | giving up records one denial and no grant, whatever happens during UNWATCH |
| RateLimiters.Pipeline.Attempt | backend/api-gateway/src/api_gateway/rate_limiter.py:24-42 | one pass of the loop, against any interference: a grant, a denial or a conflict; with no interference left a bucket with a token is granted |
| RateLimiters.AcquireToken | backend/api-gateway/src/api_gateway/rate_limiter.py:19-42 | the call is a run of the protocol made of exactly the interference given, in order, and this client's own steps, in which it gets one grant if it answers True, one denial if False; it ends, idle; left alone, it is granted exactly if the key is missing or has tokens |
| RateLimiters.AcquireForMarketplace | backend/marketplace-publisher/src/marketplace_publisher/rate_limiter.py:40-81 | a marketplace without a limit is let through untouched; otherwise the call is a run of exactly the interference and own steps with one grant if it answers True, one denial if False, ending idle with the bucket's books kept; left alone, granted exactly if there is a token |
| RateLimiters.AcquireForAdapter | backend/signal-ingestion/src/signal_ingestion/rate_limit.py:29-59 | an adapter in the map is held to its own limit, any other one to the limit of "default", and one with neither is let through untouched; a limited call is a run of exactly the interference and own steps, with one grant, as many denials as naps, and at least a window gone by per nap; left alone, it naps exactly one window if the bucket is empty and not at all otherwise; it returns once interference ends |
| RateLimiters.KeyExpiresWithinWindow | backend/signal-ingestion/src/signal_ingestion/rate_limit.py:46-53 | in any reachable state the key is gone one window later |
| FeatureFlags.FlagClient.IsEnabled | backend/shared/feature_flags.py:69-122 | a valid memory entry is the answer, else a valid shared entry; past both, the value FEATURE_FLAGS gives, else the override, else the provider, else the default, else False; the caches are filled for a TTL (the shared one only for a positive TTL) and other flags are untouched |
| FeatureFlags.FlagClient.SetFlag | backend/shared/feature_flags.py:125-135 | writes the override and the caller's memory, and leaves the shared entry stale |
| FeatureFlags.TruthyIff | backend/shared/feature_flags.py:92-96 | an override counts as true exactly if it is 1, true or yes in any mixture of cases |
| FeatureFlags.AskKeepsInv | backend/shared/feature_flags.py:69-122 | a lookup keeps every shared entry younger than one TTL and every memory entry younger than two |
| FeatureFlags.SetKeepsInv | backend/shared/feature_flags.py:125-135 | so does set_flag, unless FEATURE_FLAGS names the flag |
| FeatureFlagTheorems.AnswersAreFresh | backend/shared/feature_flags.py:69-122 | over any run of any number of processes, each answer was the resolved value at the moment it was given or less than 2 * ttl before |
| FeatureFlagTheorems.NamedFlagGoesAstray | backend/shared/feature_flags.py:89-90 | for a flag named in FEATURE_FLAGS a run gives an answer the flag never had |
| FeatureFlagTheorems.FreshnessCondition | backend/shared/feature_flags.py:69-135 | the freshness bound holds for all runs if and only if FEATURE_FLAGS does not name the flag or the TTL is not positive |
| FeatureFlagTheorems.SettlesWithinTwoTtl | backend/shared/feature_flags.py:69-135 | 2 * ttl after the last set_flag every process answers the value set (or the one FEATURE_FLAGS fixes), whatever was cached |
| FeatureFlagTheorems.ProviderSettlesWithinTwoTtl | backend/shared/feature_flags.py:69-122 | for a flag that FEATURE_FLAGS does not name and nobody sets, every process answers the provider's last word 2 * ttl after it changed |
| FeatureFlagTheorems.ResolvedMeans | backend/shared/feature_flags.py:86-114 | after any run the uncached value is what FEATURE_FLAGS says, else what was last set, else what the provider last said |
| FeatureFlagTheorems.SetterReadsItsOwnWrite | backend/shared/feature_flags.py:125-135 | the setter answers its value at once and from then on, if and only if FEATURE_FLAGS does not fix the opposite |
| FeatureFlagTheorems.TwoTtlIsTight | backend/shared/feature_flags.py:78-82 | for any margin some process is still stale that close to 2 * ttl after the write |
| PublishTasks.PublishTask.UpdateStatus | backend/marketplace-publisher/src/marketplace_publisher/db.py:119-128 | sets the status and leaves the counter alone |
| PublishTasks.PublishTask.IncrementAttempts | backend/marketplace-publisher/src/marketplace_publisher/db.py:131-138 | adds one to the counter |
| PublishTasks.PublishTask.PublishWithRetry | backend/marketplace-publisher/src/marketplace_publisher/publisher.py:91-142 | one attempt: success, policy rejection or a caught exception decide status, counter and announcement |
| PublishTasks.PublishTask.BackgroundPublish | backend/marketplace-publisher/src/marketplace_publisher/main.py:188-215 | for every failure pattern the chain ends after at most max(1, max_attempts - start) attempts, all but the last raised, and a failure is announced exactly once, a success never |
| PublishTasks.EndsOnce | backend/marketplace-publisher/src/marketplace_publisher/main.py:201-215 | the outcomes of the attempts determine how many there are |
| PublishChains.RunKeepsInv | backend/marketplace-publisher/src/marketplace_publisher/main.py:188-215 | interleaved at every read and write of the row, the counter is its start plus the handled failures and leaves room for every chain that may still fail |
| PublishChains.AttemptsBound | backend/marketplace-publisher/src/marketplace_publisher/main.py:313-321 | with c launches in all the counter never exceeds max(max_attempts, start + 1) + c - 1 |
| PublishChains.AttemptsBoundIsTight | backend/marketplace-publisher/src/marketplace_publisher/main.py:201-215 | for every number of launches some interleaving reaches that bound |
| PublishChains.NoEarlySurrender | backend/marketplace-publisher/src/marketplace_publisher/main.py:209-215 | a chain gives up only when max_attempts failures are on record |
| PublishChains.ExhaustionIsAnnounced | backend/marketplace-publisher/src/marketplace_publisher/publisher.py:133-142 | when all chains have ended and failures brought the counter to max_attempts, a failure was announced |
| PublishChains.NeverStuckInProgress | backend/marketplace-publisher/src/marketplace_publisher/publisher.py:105-142 | under every interleaving, when all chains have ended the row is succeeded or failed, whatever order their status writes came in |
| PublishChains.LastWriteDecides | backend/marketplace-publisher/src/marketplace_publisher/publisher.py:105-142 | under every interleaving, when all chains have ended the row says success exactly if the round whose final status was written last had published, and failure otherwise |
| PublishChains.SilentIffPublished | backend/marketplace-publisher/src/marketplace_publisher/publisher.py:105-142 | when all chains have ended, nobody was notified exactly if the last attempt of every chain published |
| PublishChains.AllPublished | backend/marketplace-publisher/src/marketplace_publisher/publisher.py:126-128 | if every attempt publishes, the row ends as succeeded with the counter where it was and no announcement |
| PublishChains.SoloIsBackground | backend/marketplace-publisher/src/marketplace_publisher/main.py:188-215 | a single chain driven to its end makes exactly the attempts of BackgroundPublish for the same outcomes and leaves the count, status and announcements of its contract |
| PublishChains.ChainsTerminate | backend/marketplace-publisher/src/marketplace_publisher/main.py:201-215 | every interleaving makes boundedly many moves, 16 more for each retry posted meanwhile |
| PublishChains.AllLaunchesTerminate | backend/marketplace-publisher/src/marketplace_publisher/main.py:313-321 | c launches and r retries posted at any time make at most 8 * (max(max_attempts, start + 1) + c - 1 - start) + 12 * c + 16 * r moves |
| SortedSets.ZRangeLowest | backend/signal-ingestion/src/signal_ingestion/trending.py:118-120 | the n members that come first by (score, word), and how many there are |
| SortedSets.TopUnique | backend/signal-ingestion/src/signal_ingestion/trending.py:118-125 | the set of the highest ranking words of a given size is unique |
| Trending.StoreCounts | backend/signal-ingestion/src/signal_ingestion/trending.py:39-41 | storing adds to each word its number of occurrences and stamps exactly the words named |
| Trending.TrendingStore.StoreKeywords | backend/signal-ingestion/src/signal_ingestion/trending.py:34-44 | the pipeline's effect on both sets: every word named is stamped now and its score grows by its number of occurrences, and both sets expire one TTL from now |
| Trending.TrendingStore.ScanScores | backend/signal-ingestion/src/signal_ingestion/trending.py:109-112 | every word once, with its score |
| Trending.TrendingStore.ProcessChunk | backend/signal-ingestion/src/signal_ingestion/trending.py:88-107 | one batch gives its words, and no others, their decayed scores, and drops what has no time or is worth nothing from both sets |
| Trending.ChunksCompose | backend/signal-ingestion/src/signal_ingestion/trending.py:109-117 | rescoring a batch on top of earlier batches is rescoring them together |
| Trending.TrendingStore.DecayAll | backend/signal-ingestion/src/signal_ingestion/trending.py:85-117 | for every batch size each word is decayed once |
| Trending.TrendingStore.DropStale | backend/signal-ingestion/src/signal_ingestion/trending.py:78-84 | words last seen at or before the cutoff leave both sets |
| Trending.TrendingStore.LimitSize | backend/signal-ingestion/src/signal_ingestion/trending.py:118-125 | exactly the max_size highest ranking words stay, in both sets |
| Trending.TrendingStore.TrimKeywords | backend/signal-ingestion/src/signal_ingestion/trending.py:73-125 | the whole trim is the simple form: drop stale, decay once, keep the top, whatever the batch boundaries |
| Ingestion.SignalPipeline.PurgeOldSignals | backend/signal-ingestion/src/signal_ingestion/retention.py:13-17 | exactly the rows past their retention leave the table |
| IngestionRuns.PurgeLast | backend/signal-ingestion/src/signal_ingestion/retention.py:13-17 | a purge keeps every other row, in order and as often as it is there |
| TrendingRuns.TrimKeeps | backend/signal-ingestion/src/signal_ingestion/trending.py:73-125 | for sets in step the trim keeps the top of the recent words by score * decay^elapsed, each with that score |
| TrendingRuns.TrimMeans | backend/signal-ingestion/src/signal_ingestion/trending.py:73-125 | for any two sets a trim leaves the top of the words with a positive score and a time that is not stale, each score multiplied by decay to the seconds since the word was seen |
| TrendingRuns.EarlierWeighsLess | backend/signal-ingestion/src/signal_ingestion/trending.py:77-106 | of two kept words with equal scores the one seen n seconds earlier has decay^n of the other's, so one factor for one second and strictly less for a decay below one; a word seen now keeps its score |
| Trending.PowerAdds | backend/signal-ingestion/src/signal_ingestion/trending.py:77-101 | decay^0 is 1, decay^1 is decay, and exponents add up, negative ones included |
| Trending.PowerFalls | backend/signal-ingestion/src/signal_ingestion/trending.py:77-101 | for a decay below one more seconds mean a strictly smaller factor |
| TrendingRuns.StoreKeepsInStep | backend/signal-ingestion/src/signal_ingestion/trending.py:34-44 | a store leaves both sets with the same words and the same expiry |
| TrendingRuns.TrimKeepsInStep | backend/signal-ingestion/src/signal_ingestion/trending.py:73-125 | so does a trim |
| TrendingRuns.SetsStayInStep | backend/signal-ingestion/src/signal_ingestion/trending.py:34-125 | over any run of stores, trims and expiries the two sets hold exactly the same words and expire together |
| TrendingRuns.DecayKeepsRank | backend/signal-ingestion/src/signal_ingestion/trending.py:100-106 | words last seen together keep their relative rank |
| Ingestion.SignalPipeline.AddKey | backend/signal-ingestion/src/signal_ingestion/dedup.py:28-31 | marks one key and gives the whole set its TTL again |
| Ingestion.SignalPipeline.Initialize | backend/signal-ingestion/src/signal_ingestion/dedup.py:13-20 | a set that is alive keeps its keys and gets a whole TTL again; one that is gone stays empty |
| Ingestion.SignalPipeline.Collect | backend/signal-ingestion/src/signal_ingestion/tasks.py:92-103 | the first loop up to the row that raises, keys marked before their row is serialised; the set's deadline moves exactly if a key was new |
| Ingestion.SignalPipeline.EmbedChunk | backend/signal-ingestion/src/signal_ingestion/tasks.py:107-120 | each row of a chunk gets the embedding of its own text |
| Ingestion.SignalPipeline.EmbedAll | backend/signal-ingestion/src/signal_ingestion/tasks.py:105-120 | for every chunk size all items with their own embeddings, or nothing when an existing chunk fails |
| Ingestion.SignalPipeline.Publish | backend/signal-ingestion/src/signal_ingestion/tasks.py:125-128 | what is out when any one of the three calls per item fails |
| Ingestion.SignalPipeline.IngestFromAdapter | backend/signal-ingestion/src/signal_ingestion/tasks.py:85-128 | one run on what is left of the seen keys, purge first, with a failure at any stage purges, marks, commits and publishes exactly what the specification says, and raises exactly when some stage failed |
| IngestionRuns.SanitizeIsFresh | backend/signal-ingestion/src/signal_ingestion/tasks.py:97-103 | the items of a pass have new, distinct keys, all marked |
| IngestionRuns.ItemsAreFirstRows | backend/signal-ingestion/src/signal_ingestion/tasks.py:92-103 | the items of a pass are, in row order, exactly the rows reached before one raises that can be serialised and are the first with a key not seen before, each with its own key and its own text |
| IngestionRuns.UnseenIsNew | backend/signal-ingestion/src/signal_ingestion/dedup.py:23-25 | a key that is not a duplicate has, in any run so far, neither been stored nor published |
| IngestionRuns.MarkedIffReached | backend/signal-ingestion/src/signal_ingestion/tasks.py:93-100 | a pass raises exactly if some row does, and a key is a duplicate after it exactly if it was one before or belongs to a row no earlier row kept from being reached |
| IngestionRuns.IngestKeepsInv | backend/signal-ingestion/src/signal_ingestion/tasks.py:85-128 | one run, failing anywhere, keeps published keys within committed keys within marked keys, each once, each row with its own embedding, each published content that of a committed row, and only committed rows in the table |
| IngestionRuns.RunMeans | backend/signal-ingestion/src/signal_ingestion/tasks.py:85-128 | a failing purge changes nothing, otherwise the rows past retention leave the table whatever happens after; a run that fails before its commit commits and publishes nothing; any other run commits one row per item with its own text and embedding, and publishes key and text of each up to the call that fails |
| IngestionRuns.CommitsIff | backend/signal-ingestion/src/signal_ingestion/tasks.py:85-128 | a run fails before its commit exactly if the purge, the fetch, the commit, a row or a chunk that holds an item does, and it ends well exactly if none of the three publish calls per item fails either |
| IngestionRuns.NothingTwice | backend/signal-ingestion/src/signal_ingestion/tasks.py:92-128 | the same over any sequence of runs within the life of the set of seen keys |
| IngestionRuns.EverythingWasGiven | backend/signal-ingestion/src/signal_ingestion/tasks.py:92-128 | over any runs every committed row and every published key and text is that of a row some run was given |
| IngestionRuns.RowsLeaveByPurge | backend/signal-ingestion/src/signal_ingestion/retention.py:13-17 | over any runs a committed row is in the table unless its key was purged |
| IngestionRuns.MarkedButLostStaysLost | backend/signal-ingestion/src/signal_ingestion/tasks.py:98-100 | a key marked but not committed stays so through all later runs while the set lives |
| IngestionRuns.FailedCommitLosesItsSignal | backend/signal-ingestion/src/signal_ingestion/tasks.py:97-123 | a first run whose commit fails, and after it any runs while the set lives: its signal is never stored |
| IngestionRuns.RunLosesNothingIff | backend/signal-ingestion/src/signal_ingestion/tasks.py:85-123 | with every marked key committed so far, a run keeps it so if and only if it commits, fails before it fetched, or marks nothing new, rows that raise included |
| IngestionRuns.RunsLoseNothingIff | backend/signal-ingestion/src/signal_ingestion/tasks.py:85-123 | over any sequence of runs every signal seen is stored if and only if each single run kept what it marked |
| DedupExpiry.TimedIsUntimed | backend/signal-ingestion/src/signal_ingestion/dedup.py:23-31 | as long as the set of seen keys survives, timed runs commit, store and publish exactly what the runs without a clock do |
| DedupExpiry.SameIsRepeated | backend/signal-ingestion/src/signal_ingestion/dedup.py:23-31 | when the set dies in between, runs that all bring the same signal publish it twice |
| DedupExpiry.NothingTwiceIff | backend/signal-ingestion/src/signal_ingestion/dedup.py:13-31 | runs and process starts at given times publish nothing twice, whatever they bring and wherever they fail, if and only if the set filled by the first run and refreshed by the starts alone lives to see every later run |
| DedupExpiry.RunsWithin | backend/signal-ingestion/src/signal_ingestion/dedup.py:28-31 | with runs alone this means that the last one starts less than a TTL after the first |
| MultipartUpload.PartShapes | backend/mockup-generation/mockup_generation/tasks.py:126-129 | the parts are ⌈len/chunk⌉ in number, numbered consecutively, all but the last exactly one chunk, none empty |
| MultipartUpload.AnyOrderAssembles | backend/mockup-generation/mockup_generation/tasks.py:130-141 | parts arriving in any order and reported in any order assemble to the data |
| MultipartUpload.UploadRoundTrip | backend/mockup-generation/mockup_generation/tasks.py:97-148 | the upload yields exactly the data if and only if no part and not the completion fails; otherwise it is aborted |
| GpuSlots.RunKeepsInv | backend/mockup-generation/mockup_generation/tasks.py:299-335 | in every run a body in time owns the lease of its slot, and tokens are never reused |
| GpuSlots.OverlapNeedsOverrun | backend/mockup-generation/mockup_generation/tasks.py:316-335 | two bodies on one slot only when one has outrun the timeout |
| GpuSlots.OverrunOverlaps | backend/mockup-generation/mockup_generation/tasks.py:304-309 | for every timeout an explicit run in which an overrun lets a second body in |
| GpuSlots.ExclusiveIff | backend/mockup-generation/mockup_generation/tasks.py:299-335 | a bound on how long bodies run keeps every slot to one body if and only if it is below the lock timeout |
| GpuSlots.AtMostSlotsBodies | backend/mockup-generation/mockup_generation/tasks.py:299-313 | with all bodies in time at most n any-slot bodies run on n slots |
| GpuSlots.BodiesRunWhereAsked | backend/mockup-generation/mockup_generation/tasks.py:299-313 | in every run a body that asked for one slot runs in that slot, any other in a configured one |
| GpuSlots.ReleaseSparesOthers | backend/mockup-generation/mockup_generation/tasks.py:330-332 | a late release never takes a lease another worker still owns, running or about to release, and a body in time owns its lease |
| GpuSlots.GaugeCountsBodies | backend/mockup-generation/mockup_generation/tasks.py:326-331 | the in-use gauge is the number of bodies in flight on every path |
| GpuSlots.CountersCount | backend/mockup-generation/mockup_generation/tasks.py:316-332 | in every run the acquisition counter counts the bodies begun, and the releases that raise are those whose lease was no longer the worker's own |
| GpuPool.Pool.Lock | backend/mockup-generation/mockup_generation/tasks.py:304-309 | set-if-absent with a fresh token and the timeout |
| GpuPool.Pool.TryEnter | backend/mockup-generation/mockup_generation/tasks.py:309-312 | one attempt enters if and only if the slot is free, and counts itself |
| GpuPool.Pool.AcquireSlot | backend/mockup-generation/mockup_generation/tasks.py:299-313 | against exactly the interference given, the search takes one successful TryLock, on the very slot asked for or else on a configured one; it gives up only when nothing more will happen and that slot, or every configured one, is taken |
| GpuPool.Pool.GpuSlot | backend/mockup-generation/mockup_generation/tasks.py:316-335 | the whole block is a run made of exactly the interference and four own steps, each of which took effect: ask, lock the very slot asked for or else a configured one, finish, release |
| GpuPool.Pool.Leave | backend/mockup-generation/mockup_generation/tasks.py:330-331 | the gauge goes down before the lock is given back |
| GpuPool.Pool.Unlock | backend/mockup-generation/mockup_generation/tasks.py:332 | compare and delete; a lease that is gone or somebody else's is left alone and counted as lost |
| GpuRouting.DigitsRoundTrip | backend/mockup-generation/mockup_generation/tasks.py:294-296 | parsing a printed natural gives it back |
| GpuRouting.QueueParsesToMagnitude | backend/mockup-generation/mockup_generation/tasks.py:350-353 | whatever the prefix, the last piece of a queue name parses to the index without its sign |
| GpuRouting.RoutedTaskLocksItsSlot | backend/mockup-generation/mockup_generation/celery_app.py:88-91 | a task routed by its gpu_index locks that slot if and only if the index is not negative |
| GpuRouting.WordKeysDecideNothing | backend/mockup-generation/mockup_generation/tasks.py:349-358 | a task that came through a queue named by a word locks the slot of its own index, negative or not, else the worker's own if there is one, else any |
| GpuRouting.SignsAndBlanks | backend/mockup-generation/mockup_generation/tasks.py:351 | a decimal number parses with blanks around it and a sign before it |
| GpuRouting.QueuesAreDistinct | backend/mockup-generation/mockup_generation/tasks.py:294-296 | different slots have different queues |
| RequestMetrics.TallyThenAdd | backend/shared/metrics.py:61-70 | tallying a batch and adding the tallies is observing its values one by one |
| RequestMetrics.Metrics.BatchObserve | backend/shared/metrics.py:56-70 | the nested loops over values and bounds do what single observations would |
| RequestMetrics.Metrics.FlushLabel | backend/shared/metrics.py:72-74 | flushing one more label changes that label alone |
| RequestMetrics.Metrics.Flush | backend/shared/metrics.py:53-75 | everything buffered is exported and the buffer is empty |
| RequestMetrics.Metrics.RecordRequest | backend/shared/metrics.py:90-94 | one request is buffered, and everything flushed when a hundred labels wait |
| RequestMetrics.Metrics.Expose | backend/shared/metrics.py:96-102 | the page exported contains everything seen |
| RequestMetrics.ScrapeShows | backend/shared/metrics.py:53-102 | after any requests and scrapes a scrape shows exactly the labels requested, with the number of their requests, the sum of the durations, and in each bucket the durations its bound is the first to admit |
| RequestMetrics.BatchingIsExact | backend/shared/metrics.py:53-94 | after any schedule of requests and scrapes a flush exports exactly the counters, sums and buckets of observing each request at once |
| RequestMetrics.NothingLost | backend/shared/metrics.py:53-94 | per label counter = sum of the buckets = requests seen minus requests still buffered, at every moment |
| RequestMetrics.FewLabelsWait | backend/shared/metrics.py:92-93 | fewer than a hundred labels are ever left buffered |
| RequestMetrics.OneLabelWaits | backend/shared/metrics.py:92-93 | however many requests one label gets, none is exported before the next scrape |
| RequestMetrics.TrafficFlushesIff | backend/shared/metrics.py:90-94 | without a scrape something is exported if and only if a hundred different labels were requested |
| ScoreQueries.ActiveUsersMeans | backend/monitoring/src/monitoring/metrics_store.py:263-283 | the grouped query counts the distinct ideas with some row since the bound |
| ScoreQueries.JoinTotal | backend/monitoring/src/monitoring/metrics_store.py:314-325 | the join counts at least the active users, and exactly them if and only if there is no tie |
| ScoreQueries.DistinctTotal | backend/monitoring/src/monitoring/metrics_store.py:328-339 | DISTINCT ON counts exactly the active users however ties are ordered |
| ScoreQueries.QueriesAgree | backend/monitoring/src/monitoring/metrics_store.py:303-345 | the two formulations return the same (errors, total) if and only if no idea has two latest rows since the bound |
| ScoreQueries.QueriesAgreeOnKeyedTables | backend/monitoring/src/monitoring/metrics_store.py:303-345 | so on every table with one row per idea and timestamp, where the total is the active-user count |
| ScoreQueries.TiesDiverge | backend/monitoring/src/monitoring/metrics_store.py:314-339 | two latest rows of one idea: three different answers |
| ScoreCache.MetricsStore.InsertScore | backend/monitoring/src/monitoring/metrics_store.py:163-179 | appends the row and drops both cached answers |
| ScoreCache.MetricsStore.InsertLatency | backend/monitoring/src/monitoring/metrics_store.py:181-209 | a single latency drops both cached answers too |
| ScoreCache.MetricsStore.InsertLatencies | backend/monitoring/src/monitoring/metrics_store.py:211-243 | a non-empty batch drops both cached answers, an empty one nothing |
| ScoreCache.MetricsStore.GetActiveUsers | backend/monitoring/src/monitoring/metrics_store.py:263-301 | the live cached count whatever the bound; otherwise on SQLite the query, cached for 300 seconds, and on PostgreSQL an error |
| ScoreCache.MetricsStore.GetErrorRate | backend/monitoring/src/monitoring/metrics_store.py:303-345 | the same for the error rate, on either database |
| ScoreCache.RateMeans | backend/monitoring/src/monitoring/metrics_store.py:314-345 | the error rate is the share of rows below one half among each idea's latest rows since the bound, zero if there are none: for every table on SQLite, for tables with one row per idea and timestamp on PostgreSQL |
| ScoreCache.CountLives300 | backend/monitoring/src/monitoring/metrics_store.py:263-301 | a count read on SQLite stays the answer for 300 seconds whoever asks, then the query is made again, or PostgreSQL raises |
| ScoreCache.RateLives300 | backend/monitoring/src/monitoring/metrics_store.py:303-345 | the error rate of either database likewise |
| ScoreCache.CachedAnswersAreDirect | backend/monitoring/src/monitoring/metrics_store.py:163-345 | over any run of inserts, waits and reads of one bound, cached answers are those of the direct queries on the present table; an active-user read on PostgreSQL answers only from the cache |
| ScoreCache.PostgresNeverCounts | backend/monitoring/src/monitoring/metrics_store.py:284-295 | where every reader uses PostgreSQL no active-user read returns a count |
| ScoreStaleness.ActiveAnswerIsOwnIff | backend/monitoring/src/monitoring/metrics_store.py:263-301 | after any run with any bounds, an active-user read returns the count for its own bound if and only if a count is cached and no idea was last scored between its bound and the one the cache was filled for, or none is cached and it uses SQLite |
| ScoreStaleness.StaleCount | backend/monitoring/src/monitoring/metrics_store.py:265-273 | one idea scored at time 0: after a read with bound 0 the reader with bound 10 is told 1 and there is none |
| ScoreStaleness.RateAnswerIsOwnIff | backend/monitoring/src/monitoring/metrics_store.py:303-345 | after any run that leaves one row per idea and timestamp, an error-rate read returns the rate for its own bound for every assignment of scores if and only if no rate is cached or no idea was last scored between the two bounds |
| ScoreStaleness.StaleRate | backend/monitoring/src/monitoring/metrics_store.py:305-313 | a failing idea and later a good one: after a read from the earlier time on, the reader of the later time is told 0.5 instead of 0 |
| ResourceAnalysis.NewestIsOldestReversed | backend/optimization/storage.py:183-201 | with distinct timestamps the two orders are each other's reverse |
| ResourceAnalysis.RecentIsSuffix | backend/optimization/storage.py:183-201 | the newest n rows reversed are exactly the last n of the ascending table |
| ResourceAnalysis.SinceOfSuffix | backend/optimization/metrics.py:69-70 | the time filter of a suffix is a suffix of the filtered table, or all of it |
| ResourceAnalysis.WindowIsEnough | backend/optimization/metrics.py:145-173 | for every limit of at least 20, every table with distinct timestamps, missing disk readings and any time filter included, the recommendations are those of the whole table |
| ResourceAnalysis.SmallerWindowsMiss | backend/optimization/metrics.py:160-163 | for every smaller limit a table whose recommendations differ |
| ResourceAnalysis.TwentyIsTheWindow | backend/optimization/metrics.py:61-72 | a limit suffices for every table if and only if it is at least 20 |
| ResourceAnalysis.DiskMeanMeans | backend/optimization/metrics.py:110-115 | the average disk use is NaN exactly if there are readings but none in the window, 0 if there are none at all, and otherwise gives the total when multiplied by the number of readings |
| ResourceAnalysis.TotalAdds | backend/optimization/metrics.py:100-115 | a total is nothing for no readings, the reading for one, and adds up over stretches |
| ResourceAnalysis.PresentJoins | backend/optimization/metrics.py:110-115 | the readings averaged are those present, in order, stretch by stretch |
| ResourceAnalysis.SinceJoins | backend/optimization/metrics.py:69-70 | the time filter keeps a row exactly if it is not before the bound, and keeps the order |
| ResourceAnalysis.RecommendMeans | backend/optimization/metrics.py:145-173 | each recommendation appears once, in a fixed order, if and only if the last ten readings total more than the threshold times their number, or the last twenty rose by more than the threshold per minute |
| ResourceAnalyzer.MetricsStore.AddMetric | backend/optimization/storage.py:73-99 | appends one sample |
| ResourceAnalyzer.MetricsStore.AddMetrics | backend/optimization/storage.py:101-131 | appends the batch |
| ResourceAnalyzer.MetricsStore.GetMetrics | backend/optimization/storage.py:133-181 | fetching in batches yields every row in order for every positive batch size |
| ResourceAnalyzer.MetricsStore.GetRecentMetrics | backend/optimization/storage.py:183-201 | the newest rows, oldest first |
| ResourceAnalyzer.MetricsAnalyzer.constructor | backend/optimization/metrics.py:74-98 | the four columns hold the samples' readings position by position |
| ResourceAnalyzer.FromStore | backend/optimization/metrics.py:30-72 | the analyzer holds the rows of the iterator if one is given, else those selected by limit, filtered by time |
| ResourceAnalyzer.RecommendTwice | backend/optimization/metrics.py:61-72 | through the code, twenty recent rows and the whole table recommend the same |
| Reschedule.Requests | backend/orchestrator/orchestrator/sensors.py:62-72 | exactly one request for each failed run below the limit, in the order of the runs, with the next attempt number |
| Reschedule.RunKeepsInv | backend/orchestrator/orchestrator/sensors.py:58-72 | over any run the runs started plus the retries still possible are conserved: they equal one per original plus what its tag leaves |
| Reschedule.RunsBound | backend/orchestrator/orchestrator/sensors.py:58-72 | however many ticks, the runs are at most four times the originals, whatever non-negative retry_attempt these are launched with |
| Reschedule.RunsBoundIsTight | backend/orchestrator/orchestrator/sensors.py:58-72 | a run that keeps failing reaches the bound |
| Reschedule.RetriesFormOneChain | backend/orchestrator/orchestrator/sensors.py:64-72 | the retries of an original form one chain of at most three, retry_attempt one higher each time |
| Reschedule.SecondTickIsIdle | backend/orchestrator/orchestrator/sensors.py:67-72 | a second tick with nothing in between starts no run |
| Weights.WeightRepository.GetWeights | backend/scoring-engine/scoring_engine/weight_repository.py:69-78 | the stored row, created with defaults if missing |
| Weights.WeightRepository.UpdateWeights | backend/scoring-engine/scoring_engine/weight_repository.py:81-97 | every named column is blended, unknown names are skipped; on a missing row the first named column raises and nothing is stored |
| Weights.RaisesIff | backend/scoring-engine/scoring_engine/weight_repository.py:81-92 | a call raises if and only if there is no row yet and some argument names a column, and then no row is stored |
| Weights.FirstUpdateRaises | backend/scoring-engine/scoring_engine/weight_repository.py:84-91 | the first feedback of a fresh installation raises whatever its target |
| Weights.BlendInHull | backend/scoring-engine/scoring_engine/weight_repository.py:92 | a blend stays between its ends for all ends if and only if the smoothing is in [0, 1] |
| Weights.WeightsStayInHull | backend/scoring-engine/scoring_engine/weight_repository.py:88-92 | over any run each weight stays in every interval holding its start and its targets |
| Weights.GeometricApproach | backend/scoring-engine/scoring_engine/weight_repository.py:88-92 | k updates towards T leave T + (1 - smoothing)^k * (start - T) |
| Weights.FeedbackApproach | backend/scoring-engine/scoring_engine/weight_repository.py:17-18 | with the feedback smoothing the factor is 0.9^k |
| FeedbackTargets.RatioBetween | backend/feedback-loop/feedback_loop/weight_updater.py:26-41 | a ratio of sums over positive denominators lies between any bounds on the rows' own ratios |
| FeedbackTargets.ClickRateBetween | backend/feedback-loop/feedback_loop/weight_updater.py:26-33 | the click-rate target lies between the least and the greatest per-row rate when every row has impressions |
| FeedbackTargets.MissingImpressionsEscape | backend/feedback-loop/feedback_loop/weight_updater.py:27-33 | one row with clicks but no impressions beside an ordinary one pushes the target above both rates |
| FeedbackTargets.StrayClickEscapes | backend/feedback-loop/feedback_loop/weight_updater.py:27-33 | so does one click on any row without impressions beside any row that has some |
| FeedbackTargets.HullIff | backend/feedback-loop/feedback_loop/weight_updater.py:26-41 | for non-negative denominators a ratio of sums lies between the least and the greatest row ratio for all non-negative numerators if and only if all rows have a denominator or none has |
| FeedbackTargets.ClickRateInHullIff | backend/feedback-loop/feedback_loop/weight_updater.py:26-33 | the same for the click-rate target |
| FeedbackTargets.ClickRateMeans | backend/feedback-loop/feedback_loop/weight_updater.py:26-41 | the click rate is the share of clicks in impressions if any row reports both columns, else of favourites in views, else the total of the reported rates over the number of rows that report one, else 0 |
| FeedbackTargets.ConversionRateMeans | backend/feedback-loop/feedback_loop/weight_updater.py:43-61 | the conversion rate likewise, through its five sources in order |
| FeedbackTargets.SumAdds | backend/feedback-loop/feedback_loop/weight_updater.py:26-61 | a column's total adds up over rows, and a row without the column adds nothing |
| FeedbackTargets.ComputeWeights | backend/feedback-loop/feedback_loop/weight_updater.py:16-69 | the branches of the updater send a click rate as engagement target, a conversion rate as community-fit target, and 1 for the others |
| FeedbackTargets.TargetsIgnoreRowOrder | backend/feedback-loop/feedback_loop/weight_updater.py:16-69 | the targets do not depend on the order of the metric rows |
| FeedbackTargets.EngagementStaysInRange | backend/scoring-engine/scoring_engine/weight_repository.py:81-94 | over any number of feedback rounds the engagement weight stays in every interval holding its start and the click rates seen |

## Left out

- Weights.WeightRepository.UpdateWeights: keyword arguments that name other attributes of the row (id, source, centroid), which hasattr lets through, are treated as unknown; every caller sends the five weights.
- Redis outages and the error paths they take: every Redis command succeeds; so do the database calls of the publish handler. A caught SQLAlchemyError from the success update after publishing (backend/marketplace-publisher/src/marketplace_publisher/publisher.py:126-129) would send an accepted attempt down the failure path; the status updates of the task row, inside the handler or outside it, are taken to succeed.
- Feature flags without Redis: overrides then live in a dictionary that the next initialization rereads from the environment.
- Flag names that start with the cache prefix, which would collide with cache entries, and the context passed to a provider, which the caches ignore.
- Providers are a value that may change at any time; LaunchDarkly and Unleash themselves are not modelled.
- Webhook status overwrites, exception kinds the publish handler does not catch, and SQLAlchemy session caching: a read of the task row is fresh.
- What a marketplace does with an attempt: an attempt has one of three outcomes; a launch of a task that does not exist only logs and is left out.
- Overlapping ingestion runs: runs happen one after another, and each reads the clock once for the set of seen keys.
- ZSCAN during concurrent writes: the scan is a snapshot; keyword extraction is a parameter.
- Two trims in a row decay twice from the last-seen time; no claim is made that they compose.
- The global `_ACTIVE_LOCK` and the shutdown handler that uses it, and changes of the slot count while the pool runs.
- Retries of a worker that waits for a slot forever: the search is shown to end only when nothing else happens or a slot is free.
- ParseInt covers ASCII input; Python's int() also reads other Unicode digits and spaces.
- ETags and the store's own limits on part counts and sizes; the content store is a map from part numbers to bytes.
- For request metrics the clock, path normalisation and the rendering of the page are parameters.
- Score reads are atomic: a fill that started before an insert and finishes after it is not modelled; timestamps are integers.
- The table of publish latencies and the averages computed from it; only its effect on the cached answers is modelled.
- top_recommendations, cost_alerts and the monthly estimate, which read the whole table by design.
- Rounding, underflow and NaN readings of cpu and memory: arithmetic is exact, a missing disk reading is None.
- Malformed retry_attempt tags, which make the sensor raise: tags are integers.
- The JSON copy of the weights, the embedding cache and the centroid columns.
- HTTP clients, Kafka, OAuth, image generation, PII redaction and the web layer.
