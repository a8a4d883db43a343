# ContextOS, modelled and proved

ContextOS decides what goes into a prompt, which backend answers, and what may be cached and
replayed. This project models its core: the context assembler, the compressor, hybrid retrieval,
the two-tier cache, replay, the router with its circuit breakers and failover, memory versioning,
the job queue, and the request pipeline that joins them. It proves what they guarantee on all
inputs and over all runs. `dafny verify dfyconfig.toml` checks everything.

How the program is rendered:

- Each component has a function that says what one call does to the state. Code that works by
  loops or by updating fields is a method or a class whose contract equates the new state with
  that function; the theorems are about the functions, and so about the code.
- Floats are `real`. The embedder, the cosine, the logarithm, the difficulty estimate, the hashes and
  the texts of numbers are function values; the theorems assume of them only what they say (positivity
  of the logarithm above 1, no hash collisions). Character classes and per-character lowercasing are
  parameters tied together by `Text.Chars.Sane`.
- Clock readings, adapter outcomes, fresh ids and policy verdicts are inputs. A pipeline request carries
  what retrieval returned; `Grounding.ChatService` puts the memory engine in its place. Requests run one
  after another.
- Replay is proved for a pipeline and a debugger that share one embedder and one tokenizer
  (`Replay.Env`): `Pipeline.EveryTraceReplays` relies on that.
- Dictionaries whose order matters are sequences of pairs in which overwriting keeps the place
  (`Dict`). `sorted` is `Prelude.Sort`, proved to be a stable sorted permutation.

What the proofs show about the code beyond its own documentation:

- The soft budget is documented as holding the history too, but the history is never packed
  (`Assembler.HistoryOverflows` is an input). Whatever is retrieved later, a caller can rely on the
  accounted window exactly when the history counts nothing (`Assembler.HistoryMustBeFree`).
- The budget accounts for blocks, not for the heading, bullets and line breaks around them, so the
  messages sent can exceed the window (`Pipeline.SentOverflows` is an input, compressor or not): by 14
  tokens at most with the 12 candidates that the pipeline asks for, and no smaller allowance would do even
  for candidates of one scope under distinct ids (`Pipeline.SentWithinIff`).
- The canonical rendering under the prompt hash is not injective: every list of two or more messages
  collides with a single one (`Messages.CanonicalCollides`). Two lists share a hash exactly when
  cutting their contents at every boundary (a newline, a role value and `\x1f` in a row) gives the same
  list (`Messages.HashesSeparatePlainForms`).
- `cache/keys.py` says that a field holding `\x1f` cannot happen but does not prevent it. A partition
  shares its keys with another one exactly when one of its five fields holds it (`Cache.PartitionsCollide`).
  Across tenants that does no harm, since every tenant has its own dictionary; inside one, a lookup can be
  answered from another partition exactly when one of the other four fields holds it
  (`CacheByRequest.MisdirectedIff`, with the input in `CacheByRequest.TwinAnswers`). Over pipeline runs these
  are, without a router, the requests whose namespace holds it or whose model does before its last
  character; with one, those in which another registered model follows it
  (`PipelineHits.HitsMisdirectedIff`, for any contexts and for those of `SecurityContext.resolve`, which never
  has an empty namespace).
- The cache is asked for the requested model and filled for the one that answered. So an answer makes its
  request's repetition a hit exactly when the two agree (`PipelineRepeats.RepeatHitsIff`); with a router that
  sends it elsewhere it does not (`PipelineRepeats.RoutedRepeatMisses` is an input).
- The compressor's fallback for a failed guard after extraction is unreachable
  (`Compressor.CompressionNeverFabricates`, `CompressionMeaning.TierMeaning`).
- The safe default of the router serves nobody unless a cooldown runs out between routing and dispatch,
  which asks the breakers again (`Router.SafeDefaultIsRefused`; `Router.SafeDefaultServesNobody` is an input
  with one backend).
- A second rollback restores exactly the snapshot rows that do not stand among the first 4096 after the
  first one (`Rollback.RollbackTwiceIff`); `Versioning.SecondRollbackRestoresAgain` is an input on which
  there is one.
- Rollback is documented as append-only. It is exactly when the tenant has none of the missing ids any more
  (`Rollback.AppendsIff`). It leaves every row of the scope as it is exactly when no row that it counts as
  missing stands there with other content: beyond the first 4096 rows it overwrites
  (`Versioning.RollbackKeepsScopeIff`, `Versioning.RollbackOverwrites` is an input).
- Rollback takes rows away from other namespaces exactly when a missing id has moved to one of them
  (`Versioning.RollbackSparesOthersIff`); `Versioning.RollbackStealsOnARun` is a run on which it does.
- A scope's listing only ever grows at the end exactly when writes leave an id in its namespace
  (`Versioning.ScopesGrowIffNamespaceKept`).

## Model

| member | source | states |
|---|---|---|
| `Failover.OutageBound` | src/contextos/router/breaker.py:36-54 | over every sequential run through any chains and from any breaker states, a backend failing all its calls i..j-1 gets at most threshold + floor(D / cooldown) of them within D seconds |
| `Failover.OutageBoundIsTight` | src/contextos/router/breaker.py:51-54 | for every threshold, cooldown and D there is a run in which a dead backend gets exactly that many calls within D |
| `Failover.FailingStretch` | src/contextos/router/breaker.py:51-54 | while calls fail the count grows by one each, and past the threshold each call starts a full cooldown after the last one ended |
| `Failover.RunAdmits` | src/contextos/pipeline.py:286-298 | over a run, each call to a backend passed the check its own predecessors left behind, and the breaker ends where those calls take it |
| `Failover.WalkIsFirstSuccess` | src/contextos/pipeline.py:286-299 | the first allowed backend that answers is served; each allowed one before it takes one failure; the winner is reset; no other breaker moves; refusal exactly when nobody wins |
| `Failover.CalledAtMostOnce` | src/contextos/pipeline.py:286-299 | one dispatch calls each backend at most once and only backends of the chain |
| `Failover.IdleWalk` | src/contextos/pipeline.py:286-299 | a dispatch calls nobody exactly when no backend of the chain is allowed at its turn; it is then refused and moves no breaker |
| `Failover.CallsAreScripted` | src/contextos/pipeline.py:286-298 | each call of a dispatch has the times and the outcome of its place in the chain |
| `Failover.WalkKeepsModels` | src/contextos/pipeline.py:286-294 | whoever is served is a backend of the chain, under its registered model |
| `Failover.BackendRegistry.InvokeRouted` | src/contextos/pipeline.py:278-299 | the loop over the chain, mutating breaker objects, has exactly the effect of the walk |
| `Failover.BackendRegistry.Register` | src/contextos/router/engine.py:43-46 | registering replaces one name by a backend with the given breaker, or a fresh one; the backends keep breakers of their own exactly when the given one is nobody else's |
| `Breaker.StateIsTrailingRun` | src/contextos/router/breaker.py:36-54 | after any history the state depends only on the trailing failure run and the time of the last failure |
| `Breaker.CircuitBreaker.RecordFailure` | src/contextos/router/breaker.py:51-54 | the new fields are the recorded failure of the old value |
| `Breaker.CircuitBreaker.RecordSuccess` | src/contextos/router/breaker.py:47-49 | the new fields are the reset of the old value |
| `Breaker.CircuitBreaker.Allows` | src/contextos/router/breaker.py:43-45 | refused exactly while open and within the cooldown |
| `Router.RouteMeaning` | src/contextos/router/engine.py:100-130 | refused exactly when no backend passes the hard filters; otherwise chosen plus fallback are the ranked pool; safe default exactly when no eligible backend is healthy |
| `Router.RankingIsStrictAndFiltered` | src/contextos/router/engine.py:78-120 | the ranking is a permutation of the pool, strictly descending in (utility, name), all past every hard filter, also under the safe default |
| `Router.RouteIgnoresRegistrationOrder` | src/contextos/router/engine.py:104-130 | permuting the registry changes neither backend, chain, utility nor refusal |
| `Router.DispatchStaysWithinPolicy` | src/contextos/pipeline.py:223-241 | routing then dispatch calls each backend at most once and nobody outside the hard filters |
| `Router.SafeDefaultIsRefused` | src/contextos/router/engine.py:103-108 | with the breakers asked again at the same readings, a decision calls nobody exactly when it is the safe default, and is then refused |
| `Router.SafeDefaultServesNobody` | src/contextos/router/engine.py:113-117 | an input on which it does: one backend with an open breaker |
| `Router.EasyGoesCheapHardGoesGood` | src/contextos/router/engine.py:110-118 | at equal latency the cheaper backend has the higher utility for the easiest queries and the better one for the hardest |
| `RouterTradeoff.WorthMoreFirst` | src/contextos/router/engine.py:104-120 | of two backends of a pool, x comes first exactly when its extra quality, times the difficulty, exceeds 0.6 times the ease times its extra cost plus 0.05 times its extra latency, on the scale of the pool's largest; or neither does and it has the later name |
| `RouterTradeoff.FasterFirst` | src/contextos/router/engine.py:115-120 | at equal cost and quality the faster backend comes first, whatever the difficulty |
| `RouterTradeoff.HarderFavoursQuality` | src/contextos/router/engine.py:104-118 | a better and costlier backend that is worth more at one difficulty stays so at every higher one |
| `RouterTradeoff.ReportedUtility` | src/contextos/router/engine.py:115-124 | the reported utility in terms of the pool's largest cost and latency |
| `RouterTradeoff.ChainIsAdmissible` | src/contextos/router/engine.py:78-113 | a backend is tried exactly when policy, residency, cost and capabilities admit it and it is healthy, or nobody admitted is; refused exactly when nobody is admitted |
| `RouterTradeoff.RejectedForReason` | src/contextos/router/engine.py:78-97 | each rejection names the first filter failed, in the order policy, residency, cost, capabilities |
| `Router.ApplyFilters` | src/contextos/router/engine.py:76-98 | the loop keeps exactly the backends that pass, in order, and records the first failed filter of the others |
| `Router.Route` | src/contextos/router/engine.py:62-130 | the method computes the routing function |
| `Mmr.IncrementalMmr` | src/contextos/assembler/engine.py:132-147 | the running per-id maxima give the naive reranking that recomputes every similarity |
| `Mmr.MaxSimIsLargest` | src/contextos/assembler/engine.py:134-146 | the penalty is max(0, largest cosine to anything selected) |
| `Mmr.EachPickIsBest` | src/contextos/assembler/engine.py:135-141 | every pick's gain, from scratch, is at least that of everything picked later |
| `Mmr.SelectionTradesOff` | src/contextos/assembler/engine.py:134-149 | beside what was picked before, no later pick has more of lambda times its relevance less (1 - lambda) times its largest cosine to those |
| `Mmr.LessRedundantFirst` | src/contextos/assembler/engine.py:136-139 | for lambda below 1, of two equally relevant candidates the less redundant is picked first |
| `Mmr.MissingSignals` | src/contextos/assembler/engine.py:108-113 | a missing vector or lexical score counts as 0 |
| `Mmr.PinnedLead` | src/contextos/assembler/engine.py:61-63 | all else equal, a pinned memory leads an unpinned one by its importance and half the source weight |
| `Mmr.FirstMax` | src/contextos/assembler/engine.py:136-139 | the index picked is the first that attains the maximum |
| `Mmr.RerankingPermutesTop` | src/contextos/assembler/engine.py:126-147 | the result is a permutation of the top 128 by blended score |
| `Mmr.TopIsTop` | src/contextos/assembler/engine.py:126-126 | nothing cut off scores higher than anything kept, and nothing else is lost |
| `Mmr.Rerank` | src/contextos/assembler/engine.py:123-147 | the method computes the reranking, empty input included |
| `Mmr.BlendIsBounded` | src/contextos/assembler/engine.py:104-121 | with signals in range and no negative weight the blend lies within the total weight, and the best lexical match gets the lexical weight in full |
| `Mmr.RelevanceAlone` | src/contextos/assembler/engine.py:135-147 | with lambda 1 the reranking is the ranking by blended score |
| `Mmr.PureWeightsRankBySignal` | src/contextos/assembler/engine.py:113-126 | with the whole weight on one signal and lambda 1 the selection is ranked by that signal, and nothing dropped is stronger |
| `EdgeLoad.EdgeLoad` | src/contextos/assembler/engine.py:180-187 | the deque walk computes the closed form |
| `EdgeLoad.EdgeLoadPlaces` | src/contextos/assembler/engine.py:182-187 | the i-th weakest of n stands at n/2 + i/2 for even i and n/2 - (i+1)/2 for odd i |
| `EdgeLoad.EdgeLoadValley` | src/contextos/assembler/engine.py:174-187 | strength falls strictly to one valley and rises again; no inner block is as strong as either end |
| `EdgeLoad.EdgeLoadPermutes` | src/contextos/assembler/engine.py:180-187 | nothing is lost or duplicated |
| `EdgeLoad.EdgeLoadIgnoresOrder` | src/contextos/assembler/engine.py:180-180 | the arrangement is the same for every order of the survivors |
| `Assembler.Knapsack` | src/contextos/assembler/engine.py:149-171 | the loops compute the greedy packing and the full decision list |
| `Assembler.PackIsMaximal` | src/contextos/assembler/engine.py:158-166 | survivors fit the budget and are exactly those decided kept, in order; nothing evicted fits the final leftover |
| `Assembler.EvictedDoesNotFit` | src/contextos/assembler/engine.py:161-166 | a candidate evicted for the budget would have exceeded the window beside what was kept |
| `Assembler.OneDecisionEach` | src/contextos/assembler/engine.py:159-171 | the decisions are, position by position, about a permutation of the candidates |
| `Assembler.PlacementIsTrue` | src/contextos/assembler/engine.py:90-93 | a kept decision carries the place of its own block; no other decision has one |
| `Assembler.WindowHolds` | src/contextos/assembler/engine.py:95-102 | accounted tokens plus the output reserve stay within the window exactly when the history fits the leftover; always without history |
| `Assembler.HistoryMustBeFree` | src/contextos/assembler/budget.py:29-32 | before anything is retrieved: the accounted window holds for all candidates if and only if the history counts nothing |
| `Assembler.HistoryMustBeFreeByHeuristic` | src/contextos/assembler/budget.py:29-32 | the same under the four-characters heuristic, for every budget |
| `Assembler.HistoryOverflows` | src/contextos/assembler/engine.py:96-101 | an input on which a history takes the accounted tokens over the window |
| `Assembler.EveryCandidatePlaced` | src/contextos/assembler/engine.py:159-164 | candidates that fit together, at most 128, are all placed |
| `Assembler.HardReservesHold` | src/contextos/assembler/budget.py:35-40 | refusal exactly on bad weights or when even the bare messages leave no room for the output; otherwise the fixed parts stand at the two ends |
| `Assembler.RefusalMeaning` | src/contextos/assembler/weights.py:25-28 | weights off 1 by more than a millionth are refused first, then reserves that exceed the window; nothing else is |
| `Assembler.InjectedCountsBlocks` | src/contextos/assembler/engine.py:190-200 | the kept decisions count the placed blocks, and are zero exactly when the messages are the bare ones |
| `Assembler.RenderingOverhead` | src/contextos/assembler/engine.py:194-196 | n >= 1 blocks render to at most ceil((17 + 3n) / 4) tokens more than they were packed at |
| `Assembler.SentBound` | src/contextos/assembler/engine.py:190-200 | the messages sent count at most the overhead of their blocks more than was accounted, and without blocks exactly that |
| `Assembler.SentWithinIff` | src/contextos/assembler/engine.py:190-200 | what is sent stays within a limit for all lists of up to n candidates if and only if the limit leaves ceil((17 + 3n) / 4) tokens beyond the window |
| `Assembler.BlockStandsInContext` | src/contextos/assembler/engine.py:194-196 | every placed block stands whole in the context message, as a bullet on its own line |
| `Assembler.ConservativePackingFits` | src/contextos/assembler/tokenizer.py:35-40 | packing against the conservative count never overfills by the plain heuristic |
| `Assembler.Run` | src/contextos/assembler/engine.py:70-102 | the method computes the assembly function, errors included |
| `Compressor.CompressionNeverFabricates` | src/contextos/compressor/engine.py:59-80 | on every path the facts of the result are among the original's; the lossless tiers keep them all and meet the target; the guard never fails |
| `Compressor.StructuralKeepsFacts` | src/contextos/compressor/engine.py:41-42 | white-space collapse keeps the token sequence and so the facts |
| `Compressor.StructuralIsTidy` | src/contextos/compressor/engine.py:41-42 | white-space collapse never lengthens, and leaves no tab, no two blanks, no three newlines in a row and no white space at the ends |
| `Compressor.SentencesKeepToks` | src/contextos/compressor/engine.py:45-46 | sentence splitting cuts no token and loses none |
| `Compressor.ExtractKeepsFacts` | src/contextos/compressor/engine.py:82-103 | extraction makes up no fact, whatever it keeps |
| `Compressor.ExtractiveBudget` | src/contextos/compressor/engine.py:93-103 | what is kept is one sentence, or several that total at most the target |
| `Compressor.ExtractiveOverhead` | src/contextos/compressor/engine.py:103-103 | m > 1 kept sentences joined count at most target + ceil((m - 1) / 4) |
| `Compressor.OverlapThenLead` | src/contextos/compressor/engine.py:86-91 | a sentence outscores another if and only if it shares more query words, or as many and comes earlier |
| `ExtractiveChoice.KeptExactly` | src/contextos/compressor/engine.py:93-102 | a sentence is kept if and only if none is ahead of it (more query words, or as many and earlier), or what is kept ahead of it does not reach the target and leaves room for it |
| `ExtractiveChoice.BestIsKept` | src/contextos/compressor/engine.py:95-99 | the sentence with most query words, the earliest of several, is always kept |
| `CompressionMeaning.TierMeaning` | src/contextos/compressor/engine.py:50-80 | which tier is taken: the tidied text when it fits; else a stripped summary that is called for, not empty, makes up no fact and is no longer than the extract; else the extract |
| `CompressionMeaning.FactsMeaning` | src/contextos/compressor/guard.py:14-22 | facts are the longest stretches of word characters and hyphens, in lower case, that hold a digit |
| `CompressionMeaning.WordsMeaning` | src/contextos/compressor/engine.py:86-90 | words are the longest stretches of a to z and digits, in lower case |
| `CompressionMeaning.BlanksBecomeOne` | src/contextos/compressor/engine.py:41-42 | a stretch of blanks and tabs becomes one space, wherever it stands |
| `CompressionMeaning.NewlinesBecomeTwo` | src/contextos/compressor/engine.py:41-42 | three newlines or more become two and fewer stay, wherever they stand |
| `CompressionMeaning.TidyTextStays` | src/contextos/compressor/engine.py:41-42 | a tidy text is left as it is |
| `CompressionMeaning.SentencesSpell` | src/contextos/compressor/engine.py:45-46 | splitting cuts behind each end of a sentence and nowhere else, and the pieces spell the text |
| `Compressor.Extractive` | src/contextos/compressor/engine.py:82-103 | the loop with its skip and stop rules computes the greedy choice, joined in original order |
| `Compressor.CollectFacts` | src/contextos/compressor/guard.py:17-22 | the loop collects exactly the tokens with a digit |
| `Compressor.Compress` | src/contextos/compressor/engine.py:50-80 | the method computes the tiered result |
| `Compressor.CompressAll` | src/contextos/pipeline.py:151-164 | no candidate grows or gains a fact, only contents change, and `saved` is the drop in total tokens |
| `Scoring.Bm25PositiveAndSaturating` | src/contextos/memory/scoring.py:97-111 | a score is positive exactly on an overlap, and then strictly below (k1 + 1) times the summed idf of the shared terms |
| `Scoring.DocFreqBounded` | src/contextos/memory/scoring.py:91-96 | document frequency never exceeds the number of documents and is positive exactly for occurring terms |
| `Scoring.RareTermsWeighMore` | src/contextos/memory/scoring.py:97-100 | under an increasing logarithm the rarer of two terms has the larger idf |
| `Bm25Meaning.IdfMeaning` | src/contextos/memory/scoring.py:97-100 | the idf is the logarithm of one more than the number of documents over half more than the number of those with the term |
| `Bm25Meaning.AverageDocument` | src/contextos/memory/scoring.py:101-111 | in a document of average length a term that occurs f times counts idf * f * (k1 + 1) / (f + k1) |
| `Bm25Meaning.RepetitionCounts` | src/contextos/memory/scoring.py:104-110 | at equal length, more occurrences count strictly more |
| `Bm25Meaning.BrevityCounts` | src/contextos/memory/scoring.py:109-110 | at equal occurrences, the shorter document counts strictly more, unless b is 0 |
| `Scoring.ScoreIgnoresEnumeration` | src/contextos/memory/scoring.py:104-110 | the order in which the set of query terms is enumerated does not matter |
| `Scoring.Bm25Scores` | src/contextos/memory/scoring.py:73-112 | the loops and counters compute the score of each document |
| `Scoring.RrfFuse` | src/contextos/memory/scoring.py:49-59 | fusion scores exactly the ids of either list, positively; in lists without repetition each has the sum of two shares, the reciprocal of k plus its place in a list or 0 |
| `Scoring.EarlierScoresMore` | src/contextos/memory/scoring.py:49-59 | an id that stands no later than another in both lists, and is listed, scores strictly more |
| `Scoring.MinMaxNormalize` | src/contextos/memory/scoring.py:62-70 | values are scaled between the extremes: into [0, 1], in the same order, the largest on 1, the smallest on 0 unless all are equal |
| `Retrieval.Retrieve` | src/contextos/memory/engine.py:89-147 | the candidates are the rows of either list with their scores, no two for the same row; what is kept is near-duplicate free, greedy by the fused score, and leaves out only near duplicates of it; the result is its beginning; at most 400 are considered |
| `RetrievalMeaning.PicksTradeOff` | src/contextos/memory/engine.py:148-182 | each pick has at least as much of 0.70 of its worth less 0.30 of its closeness to what was picked as anything still to be had that is no near duplicate; worth is 0.60 fused rank, 0.25 recency, 0.15 importance |
| `RetrievalMeaning.FirstIsUndominated` | src/contextos/memory/engine.py:89-147 | no candidate is at least as recent and important as the first result, no later than it in both lists and listed |
| `RetrievalMeaning.DenseListIsNearest` | src/contextos/memory/engine.py:101-105 | the dense list holds the 200 rows most similar to the query, most similar first, ties in row order |
| `RetrievalMeaning.CarriesItsScores` | src/contextos/memory/engine.py:124-143 | a candidate carries its similarity to the query and its lexical score exactly when the lists have it |
| `Retrieval.Dedup` | src/contextos/memory/engine.py:157-182 | selected and left over make up the candidates; no two selected are near; the left over are near something selected, worthless, or beyond the cap; every pick is greedy |
| `Retrieval.PickBest` | src/contextos/memory/engine.py:168-179 | the inner loop finds the first best candidate that is no duplicate, or none exactly when there is none |
| `Retrieval.SparseListIsOverlap` | src/contextos/memory/engine.py:106-107 | the sparse list is exactly the documents sharing a query term, by descending score and then in row order, cut at 200 |
| `Retrieval.OrderIsStrict` | src/contextos/memory/engine.py:105-106 | the rankings are strictly descending in score, ties in row order |
| `Prelude.SortIsStable` | src/contextos/memory/engine.py:105-106 | sorting keeps tied elements in their order, in reverse too |
| `Retrieval.Collect` | src/contextos/memory/engine.py:121-144 | exactly the rows of either list become candidates, each with its true 1-based places and with a raw score exactly for its lists |
| `Cache.ExactTierIsHistory` | src/contextos/cache/engine.py:69-74 | after any history a lookup is an exact hit exactly when the last write of its key is unexpired, and returns that response |
| `Cache.SemanticTierIsHistory` | src/contextos/cache/backend.py:54-65 | otherwise it returns a most similar live last-write of the partition, ties to the key written first, and misses exactly when there is none |
| `Cache.HistoryRows` | src/contextos/cache/backend.py:67-68 | a tenant's entries are one per key, holding its last write, in order of first write |
| `Cache.KeysSeparate` | src/contextos/cache/keys.py:27-43 | two requests share an exact key exactly when they share partition text and normalized query, and a prefilter exactly when they share partition text |
| `Cache.PartitionTextIsUnique` | src/contextos/cache/keys.py:27-32 | no other partition has the same text if and only if no field holds `\x1f` |
| `Cache.PartitionsCollide` | src/contextos/cache/keys.py:23-43 | a partition shares its keys with another one, of its own tenant or not, for every query, if and only if a field holds `\x1f` |
| `Cache.UniqueInTenant` | src/contextos/cache/keys.py:27-32 | inside a tenant no other partition has the same text if and only if namespace, model and versions hold no `\x1f` |
| `CacheByRequest.ExactTierByRequest` | src/contextos/cache/engine.py:66-74 | with such fields, a lookup is an exact hit exactly when the last write for the same partition and normalized query is unexpired, and returns its response |
| `CacheByRequest.SemanticTierByRequest` | src/contextos/cache/backend.py:54-65 | otherwise it returns a most similar unexpired last write of the same partition, ties to the query asked first, and misses exactly when there is none |
| `CacheByRequest.AnsweredInTime` | src/contextos/cache/backend.py:47-65 | whatever a lookup returns is the response of a write whose time to live, its own if not 0 or else the default, has not passed |
| `CacheByRequest.MisdirectedIff` | src/contextos/cache/engine.py:56-83 | some history makes a lookup answer a partition for which nothing was ever written, if and only if its namespace, model or a version holds `\x1f` |
| `Cache.SplitInvertsJoin` | src/contextos/cache/keys.py:23-24 | splitting undoes joining exactly when no part holds the separator |
| `Cache.JoinDeterminesParts` | src/contextos/cache/keys.py:23-24 | among lists of one length, two parts or more, the joined text determines its parts exactly when none holds the separator |
| `Cache.NormalizeKeepsWords` | src/contextos/cache/keys.py:18-20 | queries normalize alike exactly when their lowercased words agree |
| `Cache.CaseIgnored` | src/contextos/cache/keys.py:18-20 | queries with the same lowercased text normalize alike |
| `Cache.SpacingIgnored` | src/contextos/cache/keys.py:18-20 | how much white space stands between words does not matter |
| `Cache.InMemoryCacheBackend.SearchSemantic` | src/contextos/cache/backend.py:54-65 | the loop finds what the search function defines |
| `Cache.SemanticCache.LookupHit` | src/contextos/cache/engine.py:56-83 | the two-tier lookup, failing open |
| `Cache.SemanticCache.StoreResponse` | src/contextos/cache/engine.py:85-119 | stores exactly the effective writes |
| `Messages.DecodeInvertsCanonical` | src/contextos/replay/bundle.py:31-34 | cutting at boundaries recovers the messages exactly when no content holds a newline, a role value and `\x1f` in a row |
| `Messages.EqualHashesMeanEqualMessages` | src/contextos/replay/bundle.py:31-34 | for plain contents, equal hashes mean equal messages |
| `Messages.SeparatorFreeIsPlain` | src/contextos/replay/bundle.py:33-33 | contents without `\x1f` are plain |
| `Messages.HashesSeparatePlainForms` | src/contextos/replay/bundle.py:31-34 | for all lists: equal hashes exactly for equal plain forms, and a list is its own plain form exactly when it is plain |
| `Messages.UniqueRendering` | src/contextos/replay/bundle.py:33-33 | no other list renders alike exactly for the empty list and single plain messages |
| `Messages.CanonicalCollides` | src/contextos/replay/bundle.py:33-33 | without the condition every list of two or more messages collides with a single one |
| `Replay.ReplayHoldsOverRuns` | src/contextos/replay/engine.py:104-144 | over every interleaving across tenants, replaying a trace finds its own last capture, rebuilds the identical messages and reports equality; outputs never change the verdict |
| `Replay.StoreIsHistory` | src/contextos/replay/store.py:18-29 | the stored bundle is the last capture with the last output attached since |
| `Replay.CaptureReplays` | src/contextos/replay/engine.py:62-96 | freezing and thawing the inputs rebuilds the same assembly |
| `Replay.FailedReplayShowsDifference` | src/contextos/replay/engine.py:123-129 | a failed replay of a self-consistent bundle names a real difference, never an encoding drift |
| `Replay.VerdictIsTrue` | src/contextos/replay/engine.py:117-121 | the verdict is positive exactly when rebuilt and captured messages have the same plain form; for plain contents, exactly when they are equal |
| `Replay.DefaultPolicy` | src/contextos/replay/engine.py:116-119 | inputs frozen without weights are assembled under the default policy |
| `Replay.FirstDiff` | src/contextos/replay/engine.py:45-51 | the loop reports the count, the first differing message, or equality |
| `ContentAddress.ContentAddressed` | src/contextos/replay/bundle.py:37-57 | through its canonical JSON, two captures share an address exactly when they were assembled from the same inputs, whose reals are floats |
| `ContentAddress.CandidateKeysAscend` | src/contextos/replay/bundle.py:47-56 | the keys of a written candidate stand in ascending order |
| `ContentAddress.FixedPointIsOk` | src/contextos/replay/bundle.py:56-56 | what is assumed of floats and their texts can be met: by the multiples of any 1 / n in decimal, and so by all doubles |
| `Json.TextDeterminesValue` | src/contextos/replay/bundle.py:56-56 | canonical JSON, with its escaping to ASCII, can be read in one way only |
| `JsonReader.TextReadsBack` | src/contextos/replay/bundle.py:56-56 | a reader of JSON (RFC 8259, section 7 for strings) reads a canonical text back as its value |
| `Replay.ReplayDebugger.Replay` | src/contextos/replay/engine.py:104-144 | the method computes the replay of the stored bundle, or nothing |
| `Versioning.VersioningOverRuns` | src/contextos/versioning/engine.py:48-91 | in every loss-free run an earlier snapshot's ids are a prefix of a later one's, nothing is removed between them, exactly the rest is added, and rolling back restores 0 |
| `Rollback.AppendsIff` | src/contextos/versioning/engine.py:81-91 | from any store, rollback restores every missing row, and appends them and changes nothing else if and only if the tenant has none of their ids any more |
| `Versioning.RollbackAfterRunAndLoss` | src/contextos/versioning/engine.py:48-91 | over every loss-free run and any loss after it, every commit of the run meets those conditions |
| `Versioning.RestoreMeaning` | src/contextos/versioning/engine.py:85-91 | for every store: the missing rows are back under their ids and no other id changes |
| `Versioning.RollbackSparesOthersIff` | src/contextos/versioning/engine.py:85-91 | other namespaces keep their listings if and only if no missing id has moved to one of them |
| `Versioning.RollbackStealsOnARun` | src/contextos/versioning/engine.py:81-91 | a run of two writes and a commit after which rolling back takes the only row of another namespace |
| `Versioning.RollbackKeepsScopeIff` | src/contextos/versioning/engine.py:85-91 | every row already in scope stays as it is if and only if no row counted as missing stands there with other content |
| `Versioning.RollbackOverwrites` | src/contextos/versioning/engine.py:85-91 | an input on which a row beyond the first 4096 is overwritten |
| `Rollback.RollbackTwiceIff` | src/contextos/versioning/engine.py:81-91 | from any store: what the scope lists after a rollback, and that a second one restores exactly the snapshot rows not among its first 4096; none if and only if all are |
| `Versioning.SecondRollbackRestoresAgain` | src/contextos/versioning/engine.py:85-91 | an input on which a second rollback restores again |
| `Versioning.ScopesGrowIffNamespaceKept` | src/contextos/store/memory_store.py:24-46 | a write keeps every listing as a prefix exactly when it leaves its id in its namespace |
| `Versioning.DiffMeaning` | src/contextos/versioning/engine.py:69-79 | added, removed and changed, row by row of the two snapshots |
| `Versioning.InMemoryStore.AddMemory` | src/contextos/store/memory_store.py:24-32 | writes within the scope, refuses anything else unchanged |
| `Versioning.InMemoryStore.GetMemory` | src/contextos/store/memory_store.py:34-41 | finds exactly what the scope lists |
| `Versioning.MemoryVersioning.Commit` | src/contextos/versioning/engine.py:48-57 | adds one commit holding the first 4096 rows of the scope |
| `Versioning.MemoryVersioning.Rollback` | src/contextos/versioning/engine.py:81-91 | the loop restores missing rows until the first refusal |
| `Worker.BackgroundRunner.Drain` | src/contextos/workers/runner.py:39-55 | draining ends, runs exactly the trace, conserves jobs, and returns the growth in processed, one per job with a successful attempt |
| `Worker.DrainRunsAttempts` | src/contextos/workers/runner.py:42-52 | however jobs interleave, each one's runs are its own attempts in order |
| `Worker.AttemptsShape` | src/contextos/workers/runner.py:44-52 | a job runs at most max_retries + 1 times and stops at a success or when retries are used up |
| `Worker.FailsIffAllFail` | src/contextos/workers/runner.py:48-52 | a job fails exactly when every permitted attempt fails |
| `Worker.WorkDecreases` | src/contextos/workers/runner.py:42-52 | each run lowers the sum of attempts left |
| `Worker.BackgroundRunner.Enqueue` | src/contextos/workers/runner.py:24-25 | a job joins at the end with attempt 0 |
| `Pipeline.NoCachedAnswerIsGroundedInMemory` | src/contextos/pipeline.py:256-264 | on every run each cache entry holds a finished response generated from exactly the optional system message and the prompt, under that request's key |
| `Pipeline.ResultMeaning` | src/contextos/pipeline.py:90-276 | on every run, a request gets back the text of its own generation or, from the cache, of an earlier one for its tenant, under its own trace; each error says what stood in the way, and changes neither cache nor log |
| `Pipeline.HitsStayInTheirPartition` | src/contextos/pipeline.py:108-132 | whatever is served from the cache was generated for the same tenant from bare messages, and stored less than the default time to live before; with no `\x1f` in namespace, model and versions also in the same namespace, model and system-prompt version, and on the exact tier for the same normalized prompt |
| `PipelineHits.HitsMisdirectedIff` | src/contextos/pipeline.py:108-132 | some run makes a request be served from the cache though nothing was generated for its partition, if and only if a separator can move: unrouted, its namespace holds `\x1f` (after the first character, when no namespace is empty) or its model does before the last one; routed, another registered model follows a `\x1f` in the two |
| `PipelineRepeats.RepeatHits` | src/contextos/pipeline.py:108-132 | in every state, a request answered by the model asked for and repeated within the time to live is an exact hit with that answer |
| `PipelineRepeats.RepeatHitsIff` | src/contextos/pipeline.py:108-132 | after every run, the repeated request is served from the cache if and only if the model that answered is the one asked for or it would have been served before |
| `PipelineRepeats.FirstRepeatHitsIff` | src/contextos/pipeline.py:108-132 | the repetition of a run's first request is served if and only if the answer is in time and came from the model asked for |
| `PipelineRepeats.StaleAnswersMiss` | src/contextos/pipeline.py:108-132 | after every run, a request that comes when every generation of its tenant is older than the time to live is not served from the cache |
| `PipelineRepeats.RoutedRepeatMisses` | src/contextos/pipeline.py:256-264 | an input on which a routed request repeated at once misses |
| `Pipeline.EveryTraceReplays` | src/contextos/pipeline.py:174-204 | on every run any stored trace replays to its own messages with a positive verdict |
| `Pipeline.AnswerIsRecorded` | src/contextos/pipeline.py:174-264 | an answered request leaves its trace with the messages sent, and with the answer as output exactly when it finished; without replay no bundle changes |
| `Pipeline.AccountedFitsTheWindow` | src/contextos/pipeline.py:174-189 | what the pipeline accounts for leaves room for the completion it asks for |
| `Pipeline.BareIsAccounted` | src/contextos/pipeline.py:214-219 | without an assembler it accounts for exactly what it sends |
| `Pipeline.SentFitsTheWindow` | src/contextos/pipeline.py:174-189 | what it sends leaves that room up to the rendering of its n blocks, and exactly that room without any |
| `Pipeline.SentWithinIff` | src/contextos/pipeline.py:137-189 | whatever up to 12 candidates of its scope with distinct ids are retrieved, with or without a compressor, what is sent stays within a limit if and only if the limit lies 14 tokens beyond the window |
| `Pipeline.SentOverflows` | src/contextos/pipeline.py:174-189 | an input, compressor or not, on which two tokens are accounted in a window of two and seven are sent |
| `Pipeline.PromptTradesOff` | src/contextos/pipeline.py:174-189 | candidates are selected for the prompt with a lambda of 0.70 |
| `Pipeline.BreakersMoveByWalksOnly` | src/contextos/pipeline.py:221-244 | over a run the breakers move as the walks move them and in no other way |
| `Pipeline.PipelineOutageBound` | src/contextos/pipeline.py:286-298 | the outage bound over runs of pipeline requests |
| `Pipeline.CallsStayWithinPolicy` | src/contextos/pipeline.py:223-241 | in every state of a run a request calls each backend at most once, and only those whose model the policy allows to it |
| `Pipeline.AnswersStayWithinPolicy` | src/contextos/pipeline.py:223-264 | on every run every generated answer came from a registered model that the policy allows to the request it answered |
| `Pipeline.SafeDefaultIsUnavailable` | src/contextos/pipeline.py:278-299 | a safe-default decision whose breakers are asked again at the same readings ends as unavailable, without a call |
| `Pipeline.RequestPipeline.Run` | src/contextos/pipeline.py:90-276 | one request, through all stages and error exits, has exactly the effect of the step function on cache, bundles, breakers and log |
| `Grounding.PromptsStayInScope` | src/contextos/pipeline.py:134-204 | in every interleaving of writes, commits, rollbacks and requests of any tenants, what is sent for a request is, character by character, its system prompt, the bulleted texts (compressed when that saves tokens) of at most 12 different memories written in its own tenant and namespace, and its prompt |
| `Grounding.PromptsNeverFabricate` | src/contextos/pipeline.py:134-204 | and each number or ID in it stands in the system prompt, the prompt or one of those memories |
| `Grounding.NothingMadeUp` | src/contextos/assembler/engine.py:190-200 | compression and rendering add no number or ID to those of the system prompt, the user turn and the memories presented |
| `Grounding.PreparedPresents` | src/contextos/pipeline.py:134-204 | the messages prepared for a request are that text for memories that its scope lists |
| `Grounding.ChatService.Complete` | src/contextos/pipeline.py:90-276 | a request with retrieval from the store after the cache has missed: the pipeline's step on what the selection picks from the scope, at most 12 candidates under distinct ids, and none only when the scope is empty |
| `MemoryEngine.MemoryEngine.Retrieve` | src/contextos/memory/engine.py:89-147 | the beginning of the greedy, maximal, near-duplicate-free selection from the scope's listing, each candidate standing for a memory of its own, with its details at that reading of the clock; nothing exactly when nothing is listed |
| `Compressor.CompressionLeavesSolid` | src/contextos/compressor/engine.py:50-80 | a text without white space and sentence ends comes through unchanged, whatever the target |

## Left out

- Gateway, configuration, adapters, deployment, the Postgres store and the SDK wrappers: wiring and network clients.
- Security policies: the policy's verdict is an input.
- Difficulty estimate and recency factor: a function value, and an input in (0, 1].
- Cosine and the hashing embedder: function values; that they are computed from vectors is not used.
- How numbers are written in JSON: function values that tell floats and integers apart, on the reals that are floats.
- Pipeline.RequestPipeline.Run: takes the retrieval result as an input; `Grounding.ChatService.Complete` is the request with the memory engine in it.
- Breakers shared by two backends: the walks are about registries in which every backend has its own.
- Tracing, cost ledger, bundle differences, consolidation and branch heads are not modelled.
- Float rounding, including the rounding of the reported utility and difficulty.
- Lowercasing that changes the length of a text, or moves a character into or out of a token.
- Interleaving inside a request.
- Several clock readings within one cache lookup: a lookup uses one.
- The order of the id lists in a memory difference, which the code sorts: they are sets here.
- The prompt text sent to the summarizing backend: its answer is an input.
- Embedding failures inside retrieval and assembly: there the embedder is total; in the cache it may fail.
