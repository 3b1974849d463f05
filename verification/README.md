# Verified models of the agent runtime's kernels

The repository is a TypeScript agent runtime. This project models the parts of it in which a
subtle property carries the weight, and proves these properties for every input, every run and
every interleaving:

- the streaming reader of the Anthropic-compatible provider (`EventStreamText`, `EventFold`,
  `StreamReader`): a response depends neither on how the network cuts the text nor on how the
  events of different content blocks interleave;
- the gateway's token bucket (`TokenBucket`, `GatewayGuard`): a call is admitted exactly if the rate
  allows it, a refinement, and the exact condition under which both hold;
- the evaluation statistics (`Combinatorics`, `EvalStatistics`): what `passAtK`, `passPowerK` and
  the Wilson interval mean;
- the evaluation worker pool (`EvalWork`, `EvalPool`, `EvalReport`): exactly-once results and a
  bounded budget overshoot over all interleavings, crashes and resumes;
- the tool-call sanitizer (`MessageSanitizer`): a repair that reaches well-formedness and leaves
  exactly the well-formed conversations alone;
- memory governance (`MemoryRecords`, `CoreMemory`, `MemoryState`, `MemoryPlane`, `RankFusion`):
  greedy selection, the conflict graph, the full-text index and reciprocal rank fusion;
- prompt prefixes and their cost (`Conversation`, `PromptPrefix`, `AnthropicRequest`,
  `CacheAccounting`, `PromptCostProbe`): a reordering that the request does not notice and the cache
  does;
- approvals and clarify prompts (`Lifecycle`, `ApprovalService`, `ClarifyService`): the first
  request decides, exactly if it is in time.

Code that updates fields or variables step by step is a class or a method with a loop here, and
its `ensures` ties it to a function or relation on values; the theorems are about these. What
comes from outside is a parameter or a value chosen by the environment: parsed JSON, clock
readings, fresh ids, hashes, token estimates, the outcome and cost of a trial, the answer of the
context policy. `Prelude` holds the string and array helpers of JavaScript that several modules
use.

## What the proofs found

- **The rate limit needs a condition.** Buckets idle for more than an hour are forgotten and come
  back full. The guard keeps its rate, and equals a limiter that never forgets, if and only if the
  shortest idle time that its clock can show refills a whole burst. `Date.now()` counts whole
  milliseconds, so with it the condition is `refillPerSecond * 3600.001 >= burst`; with a clock that
  may stop anywhere it is `refillPerSecond * 3600 >= burst`. The configuration asks for neither
  (`TokenBucket.RateConditionIsExact`, `TokenBucket.RefinementConditionIsExact`).
- **A resolved conflict can come back without a review.** `resolveConflict` leaves the link from
  the archived record to the kept one in place. Reviewing the archived record back to verified
  revives it, but so does keeping it in a later resolution
  (`MemoryState.LoserCanReturnWithoutReview`, with a whole run from the empty repository in
  `MemoryState.RevivalWithoutReviewIsReachable`). The exact condition for conflict-free selections is
  `MemoryState.SelectionsConflictFreeIffNoLoserRevived`, and for one list and budget, where a third
  record can still keep the two apart, `MemoryState.SelectionConflictFreeIffLosersKeptApart`; staying
  clear of both ways back is enough (`MemoryState.WithoutRevivalSelectionsAreConflictFree`).
- **`passAtK` can be 1 without a success.** With more samples than trials the early return answers
  1 even if nothing succeeded (`EvalStatistics.WithoutSuccessZeroIffEnoughTrials`). Reports are not
  affected as long as the sample size is at most the number of repetitions, because harness errors
  are counted as failures up to that number (`EvalReport.ReportedMetrics`).
- **A Wilson interval for negative `z` is upside down**: it contains the proportion if and only if `z`
  is not negative (`EvalStatistics.WilsonSurroundsProportion`).
- **The sanitizer keeps some unanswered calls.** The size comparison of its second pass cannot see
  that a call list with a repeated id has no answer, so such a list is kept
  (`MessageSanitizer.UnansweredMeaning`); well-formedness is stated accordingly.
- **The time of a decision may lie past the deadline.** Resolving reads the clock once to compare
  the deadline and again to stamp the decision, so only the first reading is known to be in time
  (`Lifecycle.FirstSettlementWins`; `ApprovalService.DecisionCanBeStampedLate` is such a run).
- **Only a positive time to live makes a new request valid when it is returned.** The services do not
  check it; the configuration does (`ApprovalService.ApprovalService.EnsureApprovalRequest`).
- **61 hits are the limit of rank fusion.** With lists of 62 hits an item found twice can tie with
  one found once (`RankFusion.TwiceBeatsOnceIffAtMost61`).
- **The budget can be overrun by one trial per worker**, and no more: every worker may have a trial
  under way or on its way into the log when the limit is passed (`EvalPool.BudgetOvershootIsBounded`,
  `EvalPool.OvershootBoundIsTight`). The bound holds for everything in the log, however often the
  process was stopped and resumed (`EvalPool.ResumedSpendIsBounded`).

## Model

| member | source | states |
|---|---|---|
| `EventStreamText.SplitCutsAtSeparators` | src/providers/anthropic-compatible-provider.ts:452-456 | Pieces and separators put together again give the text, and no piece contains a separator |
| `EventStreamText.SplitIsTheLeftmostCut` | src/providers/anthropic-compatible-provider.ts:452-456 | The reference meaning of the two regular-expression splits: the pieces are those of cutting every separator out at its leftmost place, from left to right, and no other list of pieces is such a cut |
| `EventStreamText.SplitStep` | src/providers/anthropic-compatible-provider.ts:451-453 | One network read: splitting the rest of the buffer with the new text appended gives the pieces that splitting the whole text gives, wherever the network cut a blank line |
| `EventStreamText.PayloadContents` | src/providers/anthropic-compatible-provider.ts:456-460 | A payload is made of one part for each line of the block that starts with data:, in order and with line ends between them, each the rest of its line without the outer white space |
| `StreamReader.ChunkingDoesNotMatter` | src/providers/anthropic-compatible-provider.ts:446-470 | Chunk invariance: however the text is cut, the reader hands over exactly the payloads of one split of the whole text, the unterminated last block included |
| `StreamReader.EveryPieceOfTheSplitIsHandled` | src/providers/anthropic-compatible-provider.ts:463-470 | Skipping a blank last block loses nothing: the run equals the run over every piece of the split |
| `StreamReader.Reader.HandlePayload` | src/providers/anthropic-compatible-provider.ts:382-444 | Every branch of the event handler on the mutable fields is the fold step; a malformed payload changes nothing |
| `StreamReader.Reader.GenerateStreaming` | src/providers/anthropic-compatible-provider.ts:446-495 | The final fields and the response, or the error, are functions of the concatenation of the chunks only; which functions of the events they are is in OutcomeOfStream and ResponseContents |
| `StreamReader.OutcomeOfStream` | src/providers/anthropic-compatible-provider.ts:378-386 | A stream fails with a malformed payload exactly if some payload with a visible character does not parse, and otherwise gives what the fold of the parsed events assembles to |
| `EventFold.BlocksAreIndependent` | src/providers/anthropic-compatible-provider.ts:394-429 | The fold is a product of machines: text and tool state of a block index depend on the events of that index only |
| `EventFold.InterleavingDoesNotMatter` | src/providers/anthropic-compatible-provider.ts:382-495 | Two streams with the same events per block and the same message events give the same response or error and the same progress flags, in whatever order the blocks interleave |
| `EventFold.ToolBlockContents` | src/providers/anthropic-compatible-provider.ts:398-427 | A tool block exists exactly if one was started; its input is that of its last start followed by the fragments received after it, in order |
| `EventFold.TextBlockContents` | src/providers/anthropic-compatible-provider.ts:395-420 | A text block holds the text of its last start, or nothing if there was none, followed by the later deltas in order |
| `EventFold.ProgressIsPerBlock` | src/providers/anthropic-compatible-provider.ts:387-424 | The progress flags are exactly what some block reports, and whether any event was seen |
| `EventFold.CallsFollowBlockIndexes` | src/providers/anthropic-compatible-provider.ts:477-479 | If all calls parse, there is one call per tool block, and the block with p blocks of smaller index gives call number p, with its identity and parsed input |
| `EventFold.MessageContents` | src/providers/anthropic-compatible-provider.ts:472-476 | In every state that assembles, the message is a list of parts with line ends between them: one part for each block whose text has a visible character, the block with n such blocks of smaller index giving part n, which is its text without the outer white space |
| `EventFold.ResponseContents` | src/providers/anthropic-compatible-provider.ts:472-495 | A response in terms of the events: message parts as above, one call per tool block in index order, id, model, stop reason and token counts as last given by any event, and the number of indexes at which a text or a tool was started |
| `EventFold.AssemblyFailsAtFirstFault` | src/providers/anthropic-compatible-provider.ts:477-479 | Assembly fails exactly if a tool block has an incomplete identity or an input that is no JSON object, with the error of the faulty block of smallest index, numbered among the tool blocks |
| `EventFold.HeaderContents` | src/providers/anthropic-compatible-provider.ts:388-393 | Id, model, stop reason, input, output and cached tokens are those that an event gave last |
| `EventFold.ReportedWhileStreaming` | src/providers/anthropic-compatible-provider.ts:412-420 | The caller gets every text delta in order; text was emitted exactly if a delta was not empty, and progress was made exactly if that holds or a tool was started |
| `EventFold.TotalTokensAlwaysAddUp` | src/providers/anthropic-compatible-provider.ts:688-699 | After every sequence of events the total is input plus output and a cache count is never negative |
| `GatewayGuard.Guard.Consume` | src/gateway/gateway-guard.ts:99-117 | Pruning, loading, deciding and saving on the mutable cache and store reach the state and the decision of the step that the rows of TokenBucket are about; which calls that admits is in AdmittedIffEveryWindowHasRoom |
| `GatewayGuard.Guard.LoadBucket` | src/gateway/gateway-guard.ts:119-134 | A cache miss is filled from the store; nothing else changes |
| `GatewayGuard.Guard.PruneBuckets` | src/gateway/gateway-guard.ts:141-150 | The deletion loop removes exactly the idle buckets from the cache, and the store drops its rows before the cutoff |
| `TokenBucket.TokensStayInRange` | src/gateway/gateway-guard.ts:108-116 | Whatever the clock does, every run with restarts keeps the stored tokens between 0 and the burst |
| `TokenBucket.GuardRefinesIdeal` | src/gateway/gateway-guard.ts:119-150 | If the shortest idle time refills a burst: over every run with restarts the guard with pruning, cache and write-through store decides exactly like a limiter that never forgets a key |
| `TokenBucket.RestartIsInvisible` | src/gateway/gateway-guard.ts:119-139 | Stopped after any run and started with empty memory on the same store, the guard decides every later call as if it had never stopped, whatever the limits and the clock |
| `TokenBucket.RateBound` | src/gateway/gateway-guard.ts:99-150 | If the shortest idle time refills a burst: in every run and every window of T seconds one key is admitted at most burst + refillPerSecond * T times, counting pruned and recreated buckets |
| `TokenBucket.AdmittedIffEveryWindowHasRoom` | src/gateway/gateway-guard.ts:99-117 | In every run from an empty guard under the refill condition a call is admitted if and only if in no window that ends with it the calls admitted before and itself exceed burst + refillPerSecond * length: every refusal is forced |
| `TokenBucket.NoRefillBackwards` | src/gateway/gateway-guard.ts:107-116 | A clock that stands still or was set back refills nothing: the call is admitted, and takes a token, exactly if the bucket holds one |
| `TokenBucket.RateConditionIsExact` | src/gateway/gateway-guard.ts:99-150 | The rate bound holds in all runs if and only if the shortest idle time refills a burst: refillPerSecond * 3600.001 >= burst for a clock of whole milliseconds, 3600 for a real-valued one |
| `TokenBucket.RefinementConditionIsExact` | src/gateway/gateway-guard.ts:119-150 | The guard is indistinguishable from the ideal limiter under exactly the same condition, for both clocks |
| `EvalStatistics.PassAtK` | src/evaluation/statistics.ts:46-58 | The product loop computes 1 - C(n-s,k)/C(n,k), and 0 or 1 in the early returns |
| `EvalStatistics.PassAtKIsSampleFraction` | src/evaluation/statistics.ts:46-58 | passAtK is the fraction of the k-element subsets of the trials that contain a success |
| `EvalStatistics.PassAtKIsUnbiased` | src/evaluation/statistics.ts:46-58 | Its mean over n independent trials with success probability p is 1 - (1-p)^k: the estimator is unbiased |
| `EvalStatistics.ReliabilityChain` | src/evaluation/statistics.ts:46-65 | (s/n)^k <= s/n <= 1 - (1 - s/n)^k <= passAtK <= 1 for 1 <= k <= n |
| `EvalStatistics.PassPowerNeverExceedsPassAtK` | src/evaluation/statistics.ts:46-65 | passPowerK never exceeds passAtK, for every k |
| `EvalStatistics.WithoutSuccessZeroIffEnoughTrials` | src/evaluation/statistics.ts:50-52 | Without a single success passAtK is 0 exactly if k does not exceed the trials; beyond that the code returns 1 |
| `EvalStatistics.WilsonBoundsAreTheRoots` | src/evaluation/statistics.ts:28-40 | Low and high are the two roots of (s/n - x)^2 = z^2 x (1-x) / n and there are no others; both lie in [0,1], so the clamps never change a value |
| `EvalStatistics.WilsonSurroundsProportion` | src/evaluation/statistics.ts:32-39 | The interval contains s/n exactly if z is not negative |
| `EvalStatistics.WilsonMirrors` | src/evaluation/statistics.ts:28-40 | Swapping successes and failures mirrors the interval |
| `EvalWork.WorkKeyInjective` | src/evaluation/runner.ts:475-477 | Different work items have different log keys, whatever characters the task ids contain |
| `EvalWork.ExpandCount` | src/evaluation/runner.ts:400-424 | With distinct task ids every combination of task, arm and trial number is one work item and nothing else is |
| `EvalPool.LoadCompletedTrials` | src/evaluation/runner.ts:479-495 | The loop over the lines sets one entry after the other |
| `EvalPool.LoadingKeepsLastLines` | src/evaluation/runner.ts:479-495 | For every log the loaded entries are the last lines of their keys, each key once, in the order in which the keys first appear |
| `EvalPool.RunOk` | src/evaluation/runner.ts:89-118 | For every interleaving of the workers at their awaits and every sequence of stops and resumes, each item is in exactly one place: done, running, waiting or given up |
| `EvalPool.ClaimsAreExact` | src/evaluation/runner.ts:97-99 | The claimed indexes are exactly 0 to cursor - 1, each claimed once |
| `EvalPool.LoggedItemsNeverRunAgain` | src/evaluation/runner.ts:89-111 | After any number of crashes and resumes no logged item is running again and no item has two log lines |
| `EvalPool.FinishedRunHasOneTrialPerItem` | src/evaluation/runner.ts:89-118 | A run that finishes unexhausted has exactly one trial per work item, counting resumed ones; an exhausted one has at most one |
| `EvalPool.LogHoldsWhatCameBack` | src/evaluation/runner.ts:107-112 | Over every run, stops and resumes included, the log is the log at the start followed by one line for each append: the trial that the appending worker came back with, unchanged, under the key of its item |
| `EvalPool.RelaunchLoadsEverything` | src/evaluation/runner.ts:88-94 | A process launched after any such run loads every logged trial, and as its spend the cost of all of them |
| `EvalPool.ResultsAreWhatCameBack` | src/evaluation/runner.ts:92-109 | The results of a running process are the trials it loaded and those that came back since, unchanged and in order |
| `EvalPool.ResultsAreLoggedOrAppending` | src/evaluation/runner.ts:107-112 | Over every run of a resumable pool each trial is as often among the results as in the log and on its way there |
| `EvalPool.ResumedSpendIsBounded` | src/evaluation/runner.ts:88-117 | However often the process stops and resumes: from a log within the limit, all logged trials together never cost more than the limit and one trial of the largest cost per worker |
| `EvalPool.BudgetOvershootIsBounded` | src/evaluation/runner.ts:93-117 | From a loaded spend within the limit, the results of one process never cost more than maxCostUsd + W * c for W workers and trials of cost at most c, the flag says exactly whether the counted spend is over the limit, and at the end everything is counted; over resumes see ResumedSpendIsBounded |
| `EvalPool.OvershootBoundIsTight` | src/evaluation/runner.ts:96-116 | The bound is reached for every number of workers, every limit from 0 on and every trial cost, by a run of a resumed pool in which all workers claim before the first cost is counted; c is the largest cost of a trial of this run, while the one logged trial that the pool resumes from costs the whole limit |
| `EvalPool.UnfinishedPoolHasAStep` | src/evaluation/runner.ts:96-118 | In every reachable state with a worker that is not done, some step of the pool can be taken |
| `EvalPool.PoolStepsAreBounded` | src/evaluation/runner.ts:96-118 | From a launch the pool takes at most four steps per pending item and one per worker, so with the row above every run can be finished and none goes on forever |
| `EvalPool.NoTrialStartsOverBudget` | src/evaluation/runner.ts:94-106 | If the loaded spend is over the limit already, no trial ever starts |
| `EvalReport.Take` | src/evaluation/runner.ts:433-441 | The search loop removes and returns the first trial of the item |
| `EvalReport.AssembledOk` | src/evaluation/runner.ts:442-451 | After any number of items every group holds exactly the trials of its own items and the rest keeps the others |
| `EvalReport.GroupingMovesTrials` | src/evaluation/runner.ts:426-451 | The grouping moves the trials themselves: those of the groups together with the rest are exactly the trials it was given |
| `EvalReport.AssembleTaskResults` | src/evaluation/runner.ts:426-473 | The loops and the final map compute the summaries of the groups; what a summary counts is in MetricsCountOutcomes, and which trials a group holds in AssembledOk and GroupingMovesTrials |
| `EvalReport.MetricsCountOutcomes` | src/evaluation/runner.ts:452-461 | For every group, by the outcomes of its trials: the success rate is successes over trials without a harness error; with n the larger of these trials and the repetitions and s successes, passAtK is 1 - C(n-s,k)/C(n,k) (1 for k > n, 0 for k or n of 0) and passPowerK is (s/n)^k |
| `EvalReport.ReportedMetrics` | src/evaluation/runner.ts:452-461 | In every task result 0 <= passPowerK <= passAtK <= 1 and the success rate is a fraction; with samples no larger than the repetitions, trials none of which succeeded score 0 |
| `EvalReport.ReportIsComplete` | src/evaluation/runner.ts:89-120 | End to end: a run that finishes within budget, after any crashes and resumes, reports the trials 1 to repetitions of every task and arm, each once, in order and as the run holds them |
| `MessageSanitizer.Normalize` | src/providers/openai-message-sanitizer.ts:9-69 | Both passes with their mutable id sets compute the specified repair |
| `MessageSanitizer.DropMisplaced` | src/providers/openai-message-sanitizer.ts:12-40 | The first pass with its pending set keeps exactly the placed messages |
| `MessageSanitizer.RemainingIds` | src/providers/openai-message-sanitizer.ts:50-58 | The inner scan leaves the call ids that the following run of tool messages does not name |
| `MessageSanitizer.PlacedIffFirstAnswer` | src/providers/openai-message-sanitizer.ts:22-36 | A tool message is kept exactly if it lies in the run after a message with calls, answers one of them and is the first to do so |
| `MessageSanitizer.NormalizedIsWellFormed` | src/providers/openai-message-sanitizer.ts:9-69 | Every tool message of the result is a first answer to the call list directly before its run, and every call list with distinct ids has an answer |
| `MessageSanitizer.IdentityIffWellFormed` | src/providers/openai-message-sanitizer.ts:9-69 | A conversation is left alone exactly if it is well formed |
| `MessageSanitizer.NormalizeIsIdempotent` | src/providers/openai-message-sanitizer.ts:9-69 | Repairing twice is repairing once |
| `MessageSanitizer.NonToolMessagesSurvive` | src/providers/openai-message-sanitizer.ts:38-66 | Every message that is not a tool message survives in order, changed at most by losing its calls |
| `MessageSanitizer.ToolMessagesOfTheResult` | src/providers/openai-message-sanitizer.ts:22-36 | The surviving tool messages are exactly the first answers of the input, unchanged and in order |
| `MessageSanitizer.UnansweredMeaning` | src/providers/openai-message-sanitizer.ts:50-63 | The size test of the second pass holds exactly if the call ids are distinct and none is answered |
| `MessageSanitizer.NormalizedIsMessageByMessage` | src/providers/openai-message-sanitizer.ts:9-69 | The repair in terms of the input alone, message by message and in order: a tool message stays exactly if it is a first answer, an assistant message with distinct call ids and no answer loses its calls and nothing else, and every other message stays as it is |
| `CoreMemory.SelectCore` | src/memory/core-memory-service.ts:74-104 | The loop with its running set and token count computes the greedy selection over the sorted eligible records; what the order and eligibility are is in BetterRecordWins and SelectedAreEligible |
| `CoreMemory.SelectedAreEligible` | src/memory/core-memory-service.ts:80-85 | Every selected record is in the input, verified, core, public or internal, and not expired |
| `CoreMemory.BetterRecordWins` | src/memory/core-memory-service.ts:86-103 | If an eligible record that lists nothing is passed over while one that is at least as long is selected, the selected one has the higher confidence or, at equal confidence, the later verification, then the later update, then the smaller id |
| `CoreMemory.CostMeaning` | src/memory/core-memory-service.ts:97-97 | The cost of a record is the least number of tokens, at least one, of four characters each |
| `CoreMemory.GreedyFitsBudget` | src/memory/core-memory-service.ts:92-103 | The chosen costs add up to the returned tokens and fit the budget |
| `CoreMemory.GreedyIsMaximal` | src/memory/core-memory-service.ts:95-102 | No skipped record could be added at the end: it would overflow the budget or lists a chosen record |
| `CoreMemory.GreedyIsFeasible` | src/memory/core-memory-service.ts:95-102 | The greedy choice is itself one of the feasible choices |
| `CoreMemory.GreedyIsLexicographicallyFirst` | src/memory/core-memory-service.ts:95-102 | At the first record in sort order where any feasible choice differs from the greedy one, the greedy one has the record |
| `CoreMemory.SelectionIgnoresInputOrder` | src/memory/core-memory-service.ts:79-103 | With unique ids the selection is the same for every order of the input |
| `CoreMemory.SymmetricLinksSuffice` | src/memory/core-memory-service.ts:96-96 | If no eligible record lists a later eligible one that does not list it back, no chosen record lists another |
| `CoreMemory.ConflictFreeIffNoOneSidedLink` | src/memory/core-memory-service.ts:96-96 | Exactly then every selection from these records, for every budget, is free of conflicts |
| `CoreMemory.ConflictFreeIffLinksAreBroken` | src/memory/core-memory-service.ts:95-102 | For one list and one budget the selection is free of conflicts exactly if of each record and a later one that it lists one-sidedly, one does not fit or lists a record chosen before it, possibly a third one |
| `MemoryPlane.Service.WriteMemory` | src/memory/memory-plane.ts:400-428 | Working memory is refused, long-term memory needs the policy's consent, everything else is persisted |
| `MemoryPlane.Service.PersistMemory` | src/memory/memory-plane.ts:430-473 | The loop over the conflicting records links each of them back; record, links and index are those of the specified write |
| `MemoryPlane.Service.ReviewMemory` | src/memory/memory-plane.ts:183-208 | Status, confidence and verification time of the record and its index row change as specified, or the record is unknown and nothing does |
| `MemoryPlane.Service.ResolveConflict` | src/memory/memory-plane.ts:210-247 | The rival is archived, the kept record loses its link to it and becomes verified; an unknown id is reported, the kept one first, and changes nothing |
| `MemoryPlane.Service.AgeExpiredMemories` | src/memory/memory-plane.ts:475-488 | The loop makes exactly the expired listed records stale and removes their rows |
| `MemoryPlane.Service.UpsertSync` | src/memory/sqlite-fts-memory-search-provider.ts:49-63 | The row is replaced by the current text, or removed if the record is not indexable |
| `MemoryPlane.Service.RemoveSync` | src/memory/sqlite-fts-memory-search-provider.ts:65-70 | Exactly the rows of the id are removed |
| `MemoryState.WriteAddsRecord` | src/memory/memory-plane.ts:430-473 | A write adds one record that says what the draft says; it and exactly the candidate or verified records of the same scope and key that share at least half of the smaller keyword set and differ in content and summary list each other; nothing else changes |
| `MemoryState.ReviewJudges` | src/memory/memory-plane.ts:183-208 | A review sets status and times of one record, moves its confidence to 0.9 or more, 0.1 or less or 0.4 or less by its verdict and no further, and changes nothing else |
| `MemoryState.ResolutionJudges` | src/memory/memory-plane.ts:210-247 | A resolution verifies the kept record, which loses its link to the other, archives that one with its links, and changes nothing else |
| `MemoryState.AgingMakesStale` | src/memory/memory-plane.ts:475-488 | Aging makes stale exactly the candidate and verified records that have expired, and changes nothing else |
| `MemoryState.StatusIsTheLastVerdict` | src/memory/memory-plane.ts:183-247 | After every run each record exists exactly if a write was accepted, has the status of the last verdict among writes, reviews, resolutions and expiry, and says what its draft said |
| `MemoryState.SummaryContents` | src/memory/memory-plane.ts:569-572 | A summary is the visible characters in order, words apart by one space, without outer space, and cut with an ellipsis beyond the limit |
| `MemoryState.RowHoldsText` | src/memory/sqlite-fts-memory-search-provider.ts:200-202 | An index row holds the identity of its record and its title, summary, content and all keywords |
| `MemoryState.OneSidedLinksComeFromResolutions` | src/memory/memory-plane.ts:430-454 | Over all runs a conflict link is one-sided exactly if it goes from a record that a resolution archived to the record it kept |
| `MemoryState.SelectionsConflictFreeIffNoLoserRevived` | src/memory/memory-plane.ts:210-247 | After every run, selectCore never picks two conflicting memories, for any sublist and budget, exactly if no archived loser is eligible again ahead of its winner |
| `MemoryState.SelectionConflictFreeIffLosersKeptApart` | src/memory/core-memory-service.ts:38-61 | After every run, for any list of records, such as all of one scope, key and tier, and for one budget: the selection is free of conflicts exactly if of each loser in the list that is eligible again ahead of its winner, and this winner, one is passed over in its turn |
| `MemoryState.WithoutRevivalSelectionsAreConflictFree` | src/memory/memory-plane.ts:183-247 | As long as no loser is reviewed back to verified and no later resolution keeps one, selectCore never picks two conflicting memories, for any sublist of the records and any budget |
| `MemoryState.LoserCanReturnWithoutReview` | src/memory/memory-plane.ts:235-246 | Reviews are not the only way back: in every state with two conflicting records that can be selected, the winner of the first resolution at most 0.9 confident, and a third record, two resolutions without any review make selectCore pick both |
| `MemoryState.RevivalWithoutReviewIsReachable` | src/memory/memory-plane.ts:210-247 | A run from the empty repository of three writes and two resolutions after which selectCore picks two conflicting memories |
| `MemoryState.IndexAgreesAfterAging` | src/memory/memory-plane.ts:379-398 | After every run an aging call leaves exactly the rows of the records that are verified, public or internal, and unexpired, each once and with their current text |
| `MemoryState.IndexBetweenAgings` | src/memory/memory-plane.ts:475-488 | Between aging calls no verified, unrestricted, unexpired record is missing, and an extra row can only belong to a verified unrestricted record that has expired since the last aging |
| `RankFusion.Fuse` | src/memory/search-provider.ts:107-108 | The map after both loops has the ids in the order of first appearance, the sum of their weights, the latest record and the joined provider names |
| `RankFusion.Rrf` | src/memory/search-provider.ts:106-110 | The result is the top of the union in strictly decreasing rank, ties in the order of first appearance, cut at the limit as slice does |
| `RankFusion.LabelContents` | src/memory/search-provider.ts:107-108 | An entry carries the record of the last hit with its id and the provider names of all its hits, in order and with + between them |
| `RankFusion.FusedScoreOfRanks` | src/memory/search-provider.ts:108-108 | For duplicate-free lists a score is the sum of 1/(61 + rank) over the lists that hold the id |
| `RankFusion.BetterRanksScoreHigher` | src/memory/search-provider.ts:108-109 | An id ranked no worse in both lists and better in one scores strictly higher |
| `RankFusion.TwiceBeatsOnceIffAtMost61` | src/memory/search-provider.ts:106-110 | Every id found by both lists beats every id found by one, for all lists of up to n hits, exactly if n <= 61 |
| `PromptPrefix.StabilizeLeadingSystemPrefix` | src/core/prompt-prefix.ts:37-52 | The counting loop, the early return and the concatenation compute the reordering |
| `PromptPrefix.StabilizedIsTheStableSort` | src/core/prompt-prefix.ts:42-51 | The new leading run is the only one sorted by class that keeps the messages of every class in order; the rest stays and nothing is lost or added |
| `PromptPrefix.ClassesByMetadata` | src/core/prompt-prefix.ts:5-30 | The classes in terms of role, sourceType and retentionKind: memory recalls, prompts without or with the prompt source type and with working, profile or no retention, and the rest |
| `PromptPrefix.StabilizeIsIdempotent` | src/core/prompt-prefix.ts:37-52 | Reordering twice is reordering once |
| `AnthropicRequest.ToAnthropicSystemBlocks` | src/providers/anthropic-request.ts:93-117 | The pushes build the specified blocks: stable prompts, stable memories, both cached, then the variable texts |
| `AnthropicRequest.EncodeCalls` | src/providers/anthropic-request.ts:137-159 | The loop encodes the text, unless blank, and then every call in order |
| `AnthropicRequest.MessagesCarryTurns` | src/providers/anthropic-request.ts:119-166 | The request has one message for each message that is not a system message, in order: the answer of a tool with its call id, an assistant's visible text followed by all its calls with id, name and input, or the plain text with its role |
| `AnthropicRequest.SystemBlocksContents` | src/providers/anthropic-request.ts:93-117 | The system blocks are those of the prompts, the memories and the rest, as far as they have text, the first two cached and the last not; each is made of the trimmed texts of its messages in order, with blank lines between them |
| `AnthropicRequest.StabilizingKeepsTheRequest` | src/providers/anthropic-request.ts:93-166 | System blocks and messages of the request are the same for the reordered conversation as for the original |
| `PromptCostProbe.LongestCommonPrefixTokens` | src/diagnostics/prompt-cost-probe.ts:54-71 | The loop returns the length of the longest common prefix of the hashes and the sum of its estimates |
| `PromptCostProbe.Probe.Generate` | src/diagnostics/prompt-cost-probe.ts:91-115 | Every request adds the record that the session of all requests calls for |
| `PromptCostProbe.Probe.Report` | src/diagnostics/prompt-cost-probe.ts:117-134 | The report is that of the session and balances |
| `CacheAccounting.RecordsOfSession` | src/diagnostics/prompt-cost-probe.ts:91-112 | Record i compares request i with request i - 1: the length of the longest common prefix, the sum of the estimates as input, as many tokens of the prefix as fill whole blocks as credit, and the rest uncached |
| `CacheAccounting.SessionIsBalanced` | src/diagnostics/prompt-cost-probe.ts:101-111 | Cached and uncached tokens add up to the input in every record, and neither is negative |
| `CacheAccounting.ReportBalances` | src/diagnostics/prompt-cost-probe.ts:117-134 | Cached and uncached tokens add up in the totals, the uncached total is the sum over the records, and the hit rate is a fraction |
| `CacheAccounting.ReportAmounts` | src/diagnostics/prompt-cost-probe.ts:117-134 | The hit rate is the cached share of the input; a million times the cost is the uncached tokens at the price of a miss and the cached ones at the price of a hit, so each cached token saves the difference |
| `CacheAccounting.AggregateIsReportOnAllRequests` | src/diagnostics/prompt-cost-probe.ts:142-172 | Aggregating session reports at the same prices is reporting on all requests together, and it balances |
| `CacheAccounting.AggregateCostIsTheSum` | src/diagnostics/prompt-cost-probe.ts:158-168 | The aggregate costs what the sessions cost |
| `CacheAccounting.StableLeadingIsCredited` | src/core/prompt-prefix.ts:48-51 | Two consecutive reordered requests with equal stable leading messages are credited at least these messages, rounded down to a whole block |
| `CacheAccounting.StabilizingNeverLowersTheCredit` | src/core/prompt-prefix.ts:32-51 | With equal stable leading messages, reordering never lowers the credit of a request |
| `Lifecycle.AtMostOneTicketPerCall` | src/approvals/approval-service.ts:60-87 | Over every sequence of calls there is at most one ticket per task and tool call |
| `Lifecycle.SettledIsFinal` | src/approvals/approval-service.ts:125-127 | A ticket that has left pending never changes again |
| `Lifecycle.FirstSettlementWins` | src/approvals/approval-service.ts:114-137 | Every settled ticket was settled by one call, which read the clock to compare the deadline and then again to stamp the time; it is decided, not timed out, exactly if the first of these readings was before the deadline |
| `Lifecycle.StoredDecisionIsTheFirstAsked` | src/approvals/approval-service.ts:114-137 | Over every sequence of calls: a stored decision, with its reviewer, notes and error code and the request untouched, is the one asked for by the first call that asked about the ticket at all, stamped with the last clock reading of that call |
| `Lifecycle.FirstAskDecidesIffInTime` | src/approvals/approval-service.ts:114-137 | The first call that asks about a ticket settles it for good: as asked if the call reads the clock and its first reading is before the deadline, and as timed out otherwise, whatever later calls ask |
| `Lifecycle.NoPendingReadFromDeadline` | src/approvals/approval-service.ts:166-182 | Over every sequence of calls: once any clock reading has reached the deadline of a ticket, no later call returns it as pending |
| `ApprovalService.DecisionCanBeStampedLate` | src/approvals/approval-service.ts:114-137 | A run of two calls in which a decision, checked before the deadline, carries the deadline itself as its time |
| `ApprovalService.ApprovalService.EnsureApprovalRequest` | src/approvals/approval-service.ts:60-87 | A request is created exactly if the call has none; an existing one is returned, timed out if its deadline has passed; the new one is returned before its deadline exactly for a positive time to live |
| `ApprovalService.ApprovalService.FindById` | src/approvals/approval-service.ts:89-92 | The approval with this id, pending only after a reading before its deadline |
| `ApprovalService.ApprovalService.ListPending` | src/approvals/approval-service.ts:94-106 | Exactly the approvals that are pending afterwards, every one checked before its deadline |
| `ApprovalService.ApprovalService.ListByTaskId` | src/approvals/approval-service.ts:108-112 | Exactly the approvals of the task, pending ones checked before their deadline |
| `ApprovalService.ApprovalService.Resolve` | src/approvals/approval-service.ts:114-137 | Only a pending approval, after a reading before its deadline, is decided as asked; any other one is returned as it is or times out; invalid input and unknown ids change nothing |
| `ApprovalService.ApprovalService.ExpirePending` | src/approvals/approval-service.ts:139-149 | Afterwards every pending approval was checked before its deadline, and exactly the newly settled ones are returned, in order |
| `ApprovalService.ApprovalService.ExpireIfNeeded` | src/approvals/approval-service.ts:166-182 | A pending approval whose deadline a reading has reached times out; anything else is unchanged |
| `ClarifyService.ClarifyService.EnsurePrompt` | src/approvals/clarify-service.ts:80-117 | A prompt is created exactly if the call has none; an existing one is returned, timed out if its deadline has passed; the new one is returned before its deadline exactly for a positive time to live |
| `ClarifyService.ClarifyService.ListPending` | src/approvals/clarify-service.ts:124-129 | Exactly the prompts that are pending afterwards, every one checked before its deadline |
| `ClarifyService.ClarifyService.Answer` | src/approvals/clarify-service.ts:135-158 | Only a pending prompt, after a reading before its deadline, is answered; any other one is returned as it is or times out; input that the schema rejects changes nothing |
| `ClarifyService.ClarifyService.Cancel` | src/approvals/clarify-service.ts:160-179 | The same for cancelling |
| `ClarifyService.ClarifyService.ExpirePending` | src/approvals/clarify-service.ts:181-190 | Exactly the newly settled prompts are returned, in order |

## Left out

- Network, file system, SQLite, timers, aborts, JSON parsing and UTF-8 decoding: the reader starts from decoded text and an arbitrary parser, repositories and tables are maps and sequences.
- A payload that parses to `null`, on which the source throws after counting the event, has no model value: the parser yields an event or fails.
- The callback for text deltas is a list of the deltas in order; response metadata that only copies configuration is not modelled.
- Floating point: guard, statistics, costs and fusion use exact reals, so rounding and NaN do not occur; `Math.sqrt` is a parameter that is required to be the non-negative root.
- Hashing, UUIDs and `localeCompare`: an injective hash, ids that are fresh where the source draws a random one, and the order of the numbers that stand for ids.
- Gateway: allow list, deny list and authentication of `evaluate`, and the loading of the configuration.
- `percentile`, `standardError`, `bootstrapMeanInterval` and `wilsonIntervalsOverlap`: the first and last are easy, the bootstrap is random.
- `runTrial`, the scorers and the judges: a trial is one step with an outcome and a non-negative cost; a trial that throws, a log line torn by a crash and the gates and totals computed after the task results are not modelled.
- Without a resume directory the source counts a cost in the same step in which the trial comes back; the pool lets other workers run in between, which only adds runs, and every bound holds for them too.
- Validation of the options of `runCapabilityEval` and the selection of suites and tasks; a work item keeps task id, trial number and arm.
- `reasoningContent` of a message: no modelled function reads it and the probe's hash leaves it out too.
- `toAnthropicTools`, the remaining fields of the request body, and the token estimate of a message, which is an arbitrary function.
- Absent metadata of a message and `{}` are one model value; the probe's hash tells them apart.
- The probe's `cacheBlockTokens` is a positive whole number, as in its default; the inner provider's answer is passed through and not modelled.
- Memory: recall, snapshots, session compaction, traces, legacy scopes, the notes and reviewer names of a review, and search in the tables; the second, trigram table receives the same rows as the first and is not modelled.
- One operation of the memory plane uses one clock reading for all its records and a second one for the index; the source reads the clock anew for each update. The listing order of the repository is not modelled, since selection does not depend on it.
- Runs of the memory plane start from an empty repository and index and write drafts without links of their own; rows seeded by a migration are not covered.
- `FtsMemorySearchProvider` and the fallback provider around `rrf`.
- Ids of approvals and prompts are numbers, so the schema's rejection of an empty id in `resolve`, `answer` and `cancel` has no model value.
- Approvals and prompts: fingerprints, rule matching and the mapping of a status to an error code; the list of questions derived from a single question is not modelled. The repository's query and the loop over its rows are one loop.
- Tickets are kept in the order of creation, which is the order of `requested_at`; the source breaks ties between equal times by id.
