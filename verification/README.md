# Melis gateway: a verified model

Melis is an LLM gateway: it takes chat requests in the OpenAI format, compacts their context, picks a
provider, forwards the request, fails over when the provider is in trouble, and streams the answer back.
This project models the six stateful algorithms behind that and proves what they guarantee over whole
runs, for every interleaving with other requests.

- **Resilience.** One circuit breaker per provider (`CircuitBreaker`, `CircuitBreakerRuns`), a weighted
  round-robin balancer over a wrapping counter (`Balancer`), and the failover loop of the request handler
  that consults both (`Failover`, `FailoverRuns`, `FailoverLedger`).
- **SSE pipeline.** The buffering splitter (`SseSplitter`) and the line processor behind it (`SseStream`).
- **Rate limiting.** The token bucket, in memory and as the script that runs inside Redis (`TokenBucket`,
  `TokenBucketRuns`, `TokenBucketBounds`).
- **Context compaction.** The default compactor (`SimpleCompactor`, `SimpleCompactorLaws`), the semantic one
  (`SemanticCompactor`), and what both rest on (`Messages`, `StopWords`, `Text`).
- **Routes.** Validation, the hash index and hot reload (`RouteConfig`).
- **Tool calls.** Translation between the OpenAI and the Anthropic message format (`Transpiler`), and what
  compaction does to it (`ToolLinks`).

## How the model is built

An object that the gateway updates in place is a class, its maps and vectors are fields of type `map` and
`seq`, and each of its operations is a method proved equal to a specification function of the old state. The
theorems are lemmas about those functions. Each critical section under a lock, and each atomic counter
operation, is one step. A clock reading is a `real` passed into the step. In the failover loop the
shared counter and the shared breaker map are given afresh before each atomic step (`Moment`), so a theorem about
the loop holds whatever other requests do meanwhile.

Floating-point numbers are exact reals. JSON parsing and printing, UTF-8 decoding, Unicode case mapping, the
importance score and the marker test of the semantic compactor are parameters; a theorem that needs a law of
one of them states it (`RoundTrips`, `NewlinesSurvive`).

## Where code and documentation disagree

The model follows the code.

- Half-open is documented as letting one probe through (README.md:314, src/circuit_breaker.rs:137). The code lets
  every caller through until an outcome is recorded: `HalfOpenAdmitsEveryQuery`, `TwoProbesAtOnce`; when a second
  probe is refused, `SecondProbeRefusedIff`.
- The balancer documents at most 5% deviation over 1000 requests (src/balancer.rs:5). That depends on the weights:
  `FivePercentIff` gives the exact condition, `FivePercentFailsForLargeWeights` a case where it fails.
- Compaction is documented to preserve the last user message (README.md:398). The sliding window can drop it:
  `LastUserCanBeLost`, with the exact condition in `LastUserSurvivesIff`.
- The in-memory bucket is documented as the algorithm of the script (src/middleware/rate_limiter.rs:142). It never expires its
  buckets and reads the clock twice. Neither meets the textbook bound in general, and `TextbookBoundIff` and
  `ScriptBoundIff` say exactly when each does; `ExpiryInvisibleIff` says when they agree.
- The sliding window of the breaker drops outcomes that are still young while the clock is below one
  window length: `WindowExactness`, `YoungOutcomesErased`. That needs a platform on which no instant lies before the
  clock's origin, as on Windows. On Linux instants before boot are representable; there readings count from an
  origin so early that the clock is never below one window length.
- The reported number of pruned messages can be one too large, and the semantic compactor can return nothing:
  `FallbackIff` with `FallbackReached`, `EmptyIff` with `EmptiedByDefault`.
- Tool results lose their link to their call when a conversation is compacted: `LinkIsLost`, with the exact
  condition in `CompactionLinksIff`.

## Model

| member | source | states |
|---|---|---|
| CircuitBreaker.PruneWindow | src/circuit_breaker.rs:107-110 | keeps, in order, exactly the timestamps later than the cutoff; the cutoff is `now` itself when the clock is younger than the window |
| CircuitBreaker.LocalCircuitBreaker.constructor | src/circuit_breaker.rs:99-104 | starts with no provider state |
| CircuitBreaker.LocalCircuitBreaker.Entry | src/circuit_breaker.rs:119-121 | a missing provider is inserted closed, with empty windows and the initial backoff; an existing one and all others are left alone |
| CircuitBreaker.LocalCircuitBreaker.IsAvailable | src/circuit_breaker.rs:115-141 | false exactly when the provider is open with its deadline ahead; an expired deadline moves it to half-open; no other provider changes |
| CircuitBreaker.LocalCircuitBreaker.RecordResult | src/circuit_breaker.rs:143-221 | the whole new map after an outcome: both windows, the state, the deadline and the backoff of that provider, all others untouched |
| CircuitBreaker.LocalCircuitBreaker.PushOutcome | src/circuit_breaker.rs:154-165 | both windows after an outcome: every call counts, failures, timeouts and 429s count as failed, each window pruned |
| CircuitBreaker.LocalCircuitBreaker.Transition | src/circuit_breaker.rs:167-220 | how an outcome moves the three-state machine once the windows hold it |
| CircuitBreakerRuns.ProvidersAreIndependent | src/circuit_breaker.rs:92-95 | in every interleaving over the shared map each provider behaves as in the run of its own events alone |
| CircuitBreakerRuns.StepInvariant | src/circuit_breaker.rs:143-221 | every query and every outcome keeps: failures are a subsequence of requests, the backoff is between `openTtl` and `maxTtl`, open stores its backoff, closed means initial backoff and a window at or below the threshold |
| CircuitBreakerRuns.ReachableInvariant | src/circuit_breaker.rs:77-86 | that invariant holds after every run from a fresh provider under a validated configuration |
| CircuitBreakerRuns.WindowRefinement | src/circuit_breaker.rs:154-165 | on a clock that never goes back, the incrementally pruned windows equal one filter over the full history since the last recovery |
| CircuitBreakerRuns.WindowExactness | src/circuit_breaker.rs:107-110 | the windows hold exactly the outcomes younger than the window if and only if no such outcome was recorded before the clock passed one window length |
| CircuitBreakerRuns.YoungOutcomesErased | src/circuit_breaker.rs:107-110 | the condition can fail: outcomes at 10 s and 20 s, a window of 60 s, and both windows are empty |
| CircuitBreakerRuns.WindowsCount | src/circuit_breaker.rs:154-165 | after every run and one more outcome, the windows count the outcomes then in the window and, among them, the failures, timeouts and 429s |
| CircuitBreakerRuns.ClosedTripsIff | src/circuit_breaker.rs:168-195 | after every run, an outcome opens a closed provider if and only if it is a 429, or at least `minRequests` outcomes, and at least one, are then in the window and the percentage of failed ones among them exceeds the threshold; the lock-out is then `openTtl` |
| CircuitBreakerRuns.BackoffCountsFailedProbes | src/circuit_breaker.rs:196-215 | in every run the stored backoff depends only on the number of failed probes since the provider last left closed |
| CircuitBreakerRuns.BackoffMonotone | src/circuit_breaker.rs:203-214 | more failed probes never shorten the backoff, and it stays between `openTtl` and `maxTtl` |
| CircuitBreakerRuns.BackoffClosedForm | src/circuit_breaker.rs:205-208 | with an integer factor the backoff after k failed probes is `openTtl * factor^k`, capped at `maxTtl` |
| CircuitBreakerRuns.BackoffOfRun | src/circuit_breaker.rs:196-215 | after every run the stored backoff is that closed form of the number of failed probes |
| CircuitBreakerRuns.FailedProbeGrowsBackoff | src/circuit_breaker.rs:203-215 | for every factor, a failed probe sets the backoff to the grown one rounded down to whole seconds, up to the cap, and the deadline to that time from now |
| CircuitBreakerRuns.BackoffDoubles | src/circuit_breaker.rs:205-208 | with a factor of at least two the backoff is at least `openTtl * 2^k`, up to the cap |
| CircuitBreakerRuns.BackoffReachesCap | src/config.rs:560-574 | so the cap is reached as soon as doubling `openTtl` that often reaches it |
| CircuitBreakerRuns.LockOut | src/circuit_breaker.rs:125-140 | once open, every query before the deadline is refused whatever outcomes arrive meanwhile, and the first query at or after it is admitted and moves to half-open |
| CircuitBreakerRuns.HalfOpenAdmitsEveryQuery | src/circuit_breaker.rs:136-139 | until an outcome is recorded, half-open admits every query and does not change |
| CircuitBreakerRuns.TwoProbesAtOnce | README.md:314 | the documented single probe fails: two queries a second apart are both admitted |
| CircuitBreakerRuns.SecondProbeRefusedIff | src/circuit_breaker.rs:125-215 | after a first probe, whatever queries and outcomes follow within the shortest lock-out, a further query in that time is refused if and only if one of those outcomes tripped the provider in the state it found |
| CircuitBreakerRuns.FailedProbeRefuses | src/circuit_breaker.rs:196-215 | in particular whenever the first outcome is not a success, and not when it is a success and nothing follows it |
| CircuitBreakerRuns.StepDeadline | src/circuit_breaker.rs:167-220 | the edges of the state machine: exactly which events lead to open and to closed, the deadline set on opening, and that an open provider keeps it |
| CircuitBreakerRuns.ProbesSpaced | src/circuit_breaker.rs:125-134 | in every run successive moves from open to half-open are at least `openTtl` apart |
| CircuitBreakerRuns.ProbeRate | src/circuit_breaker.rs:125-134 | a run that spans T seconds has at most 1 + T / openTtl such moves |
| Balancer.SlotsOf | src/balancer.rs:64-67 | in the expanded table provider i owns exactly the slots between the running weights around it |
| Balancer.CyclicIsMod | src/balancer.rs:113 | counter modulo total weight reads the table repeated for ever |
| Balancer.WeightedRoundRobin.constructor | src/balancer.rs:72-79 | the counter starts at zero |
| Balancer.WeightedRoundRobin.SelectProvider | src/balancer.rs:88-126 | the walk over running weights returns what the expanded table holds at the counter; errors for no providers and for zero total weight; the counter wraps and advances only when the table is used; the fallback is unreachable |
| Balancer.AvailableMember | src/balancer.rs:160-164 | filtering leaves exactly the providers whose names are not excluded |
| Balancer.AvailableConcat | src/balancer.rs:160-164 | and keeps their order |
| Balancer.SelectionSucceedsIff | src/balancer.rs:92-112 | selection succeeds if and only if there is a single provider, whatever its weight, or some weight; it returns one of the list, and moves the counter exactly when the table is used |
| Balancer.SelectionsFollowPicks | src/balancer.rs:88-126 | consecutive calls on one list of at least two providers all succeed and return the picks that the fairness theorems count |
| Balancer.ExpandBlock | src/balancer.rs:64-67 | the table gives each provider as many slots as its weight, all adjacent |
| Balancer.CountRound | src/balancer.rs:112-113 | any W consecutive ticks, from any start, meet every slot of the table once |
| Balancer.PicksFollowTable | src/balancer.rs:111-122 | without wrap-around the picks of consecutive calls are a stretch of the cyclic table |
| Balancer.ErrorAtMostWorst | src/balancer.rs:103-122 | no start does worse than an arithmetic worst case of total weight, weight and remainder |
| Balancer.WorstErrorBound | src/balancer.rs:103-122 | that worst case is at most w * (W - w), and zero over whole rounds |
| Balancer.WorstReached | src/balancer.rs:103-122 | the worst case is attained, from one end of the provider's slots or the other |
| Balancer.Fairness | src/balancer.rs:3-5 | over any n consecutive selections, count * W and n * w differ by at most w * (W - w); over whole rounds the share is exact |
| Balancer.FivePercentIff | src/balancer.rs:5 | the documented 5% holds from every counter value if and only if the weights and the sample size meet an arithmetic condition |
| Balancer.FivePercentForSmallWeights | src/balancer.rs:5 | it holds whenever the total weight is at most a fifth of the sample, 200 for 1000 requests |
| Balancer.FivePercentFailsForLargeWeights | src/balancer.rs:5 | it fails for two providers of weight 1000 each over 1000 requests |
| Failover.Gateway.constructor | src/router.rs:363-367 | the loop works on the shared balancer and breaker |
| Failover.Gateway.OthersRun | src/state.rs:20-50 | other requests may leave any counter and any breaker state between two atomic steps |
| Failover.Gateway.Report | src/router.rs:554-781 | the breaker's map after the outcome is recorded, or no call at all when the reply has none |
| Failover.Gateway.TryProvider | src/router.rs:391-780 | a refused provider is skipped without a send; an admitted one is tried, its outcome recorded, and its verdict ends the request or goes on with its error |
| Failover.Gateway.OnePass | src/router.rs:370-781 | one attempt: filter, select, query, send, record |
| Failover.Gateway.Forward | src/router.rs:363-787 | at most three attempts; response, order of attempts and every effect on the breaker are those of the specified loop, under every interference |
| FailoverRuns.PassIsSafe | src/router.rs:370-781 | one attempt keeps the trace lawful and either justifies its response or leaves only retryable verdicts behind |
| FailoverRuns.LoopIsSafe | src/router.rs:370-787 | from any lawful point the rest of the loop ends lawfully with a justified response |
| FailoverRuns.ForwardIsSafe | src/router.rs:363-787 | for every provider list and every interference: no name is tried twice, a provider is sent to exactly when the breaker admitted it at that moment, and the response is the verdict of the last provider tried or an error after retryable ones only |
| FailoverRuns.ForwardReports | src/router.rs:363-787 | every attempt goes to the provider that the balancer selects from those not attempted before, and a request that no attempt ends reports the error of the last provider tried, or that the service is unavailable |
| FailoverLedger.LedgerTells | src/router.rs:391-780 | every attempt asks the breaker, touching its own entry only; a tried one reports exactly the replies the breaker is to hear of (not credentials, translation errors, 400, 401, 403, 404 or other 4xx), and leaves its entry open until the backoff is over after a 429, from half-open after any failure, and closed and cleared after an answer from half-open, with both windows updated |
| FailoverLedger.ForwardTells | src/router.rs:363-787 | the same for every attempt of every request |
| FailoverRuns.SelectionSucceeds | src/router.rs:385-388 | with positive weights the selection inside the loop never errs |
| FailoverRuns.SomeoneLeft | src/router.rs:372-383 | with distinct names, fewer attempts than providers leave somebody to select |
| FailoverRuns.LoopIsExhaustive | src/router.rs:370-787 | the loop never gives up early: its last attempt ended the request or every attempt was used |
| FailoverRuns.LoopSucceeds | src/router.rs:370-787 | the induction behind completeness: from any point of the loop, with fewer providers that may fail than attempts in all, the rest succeeds unless a provider it tries answers terminally |
| FailoverRuns.FailoverCompletes | src/router.rs:364-787 | if fewer providers may fail than attempts are made, the request succeeds, or its last attempt was admitted and answered terminally, however other requests move the counter and the breaker |
| FailoverRuns.OneGoodProviderSuffices | src/router.rs:364-787 | with at most three providers, one that is available and succeeds is enough unless a provider that is tried answers terminally |
| FailoverRuns.FailoverSucceeds | src/router.rs:364-787 | if moreover no provider ever answers terminally, the request succeeds |
| FailoverRuns.TickFor | src/balancer.rs:111-122 | some counter value makes the balancer select any provider that is left |
| FailoverRuns.Adversary | src/router.rs:365-403 | with at least as many failing providers as attempts, some schedule of the counter meets one at every attempt and the request fails |
| FailoverRuns.TerminalFirst | src/router.rs:666-685 | a provider that answers terminally can be met first, and the request fails |
| FailoverRuns.FailoverIff | src/router.rs:364-787 | with steady providers, success under every schedule holds if and only if nobody answers terminally and fewer than min(n, 3) of the n providers fail |
| SseSplitter.FindDoubleNewline | src/client.rs:296-298 | the position of the first double newline, or none if there is none |
| SseSplitter.PiecesPartition | src/client.rs:258-289 | the pieces concatenate back to the input |
| SseSplitter.CompletePiecesAreComplete | src/client.rs:259-263 | every piece but the final flush ends in its only double newline |
| SseSplitter.PiecesUnique | src/client.rs:259-263 | no other way of cutting has these properties |
| SseSplitter.SseChunkSplitter.constructor | src/client.rs:238-243 | starts with an empty buffer |
| SseSplitter.SseChunkSplitter.PollNext | src/client.rs:252-290 | one poll yields the next output and leaves the others, for chunks, errors, a network that is not ready and the end; it terminates and uses up unread input |
| SseSplitter.SplitterRefinesPieces | src/client.rs:258-289 | without network errors the splitter yields the leftmost-greedy split of the whole input, however it is cut into chunks |
| SseSplitter.SplitterBeforeFault | src/client.rs:272-276 | a network error comes after exactly the complete pieces received before it; the rest of the buffer is kept |
| SseStream.FramingIrrelevant | src/streaming.rs:67-93 | a payload leads to the same action with `data: `, with `data:`, and bare |
| SseStream.LineSendsExactly | src/streaming.rs:66-133 | every line is the provider's end marker, or a chunk that is sent parsed, translated and serialized, or nothing to the client, and exactly when each |
| SseStream.PayloadSent | src/streaming.rs:74-132 | a payload in any framing is sent translated if parsing, translating and serializing succeed in turn, and skipped otherwise |
| SseStream.SkippedLines | src/streaming.rs:69-93 | comments, empty lines and empty payloads are skipped |
| SseStream.ProcessLines | src/streaming.rs:66-133 | the line loop emits the specified events up to and including the provider's end marker |
| SseStream.TransformSseStream | src/streaming.rs:51-152 | polling, line processing and early returns together deliver the specified event list |
| SseStream.ExactlyOneDone | src/streaming.rs:85-148 | every finished run, with network errors and early end markers included, emits exactly one end marker, and it is last |
| SseStream.PieceThenRest | src/streaming.rs:60-66 | a piece that ends in a newline can be decoded and processed on its own |
| SseStream.DeliverPieces | src/streaming.rs:58-148 | piece-wise processing of complete pieces and a tail equals processing their concatenation at once |
| SseStream.ChunkIndependence | src/streaming.rs:58-148 | end to end: without network errors the client's events are those of the whole input processed at once, however the network cut it |
| SseStream.WholeSends | src/streaming.rs:58-148 | processed as a whole, the input is answered by the translations of exactly those lines before the end marker that have one, in order, and one end marker |
| SseStream.ClientIsSent | src/streaming.rs:58-148 | end to end, that is what the client is sent, however the network cut the bytes |
| SseStream.SameBytesSameEvents | src/client.rs:258-289 | two ways of cutting the same bytes deliver the same events |
| SseStream.FaultTruncates | src/streaming.rs:135-143 | after a network error the client has the events of the complete pieces received before it, then the end marker |
| SseStream.ByteWiseQualifies | src/streaming.rs:63 | the law asked of the decoder, that newline bytes survive, is satisfiable |
| TokenBucket.LocalTokenBucket.constructor | src/middleware/rate_limiter.rs:157-161 | starts with no bucket |
| TokenBucket.LocalTokenBucket.TryAcquire | src/middleware/rate_limiter.rs:172-205 | answer and whole new map of one call with its two clock readings, for every configuration; a refusal leaves the bucket as it was, other clients are untouched |
| TokenBucket.RedisTokenBucket.constructor | src/middleware/rate_limiter.rs:79-83 | starts with no key |
| TokenBucket.RedisTokenBucket.Eval | src/middleware/rate_limiter.rs:54-67 | answer and whole new key space of one run of the script, with its expiry, for every configuration; only a granted call writes; a negative wait becomes a huge one in the gateway |
| TokenBucketRuns.GrantedPays | src/middleware/rate_limiter.rs:187-197 | a granted call pays one token out of its balance, its refill and its clock gap, and reports the whole tokens left |
| TokenBucketRuns.TokensConserved | src/middleware/rate_limiter.rs:187-204 | over every run, grants plus final balance are covered by the opening balance and the refill |
| TokenBucketRuns.AdmissionBound | src/middleware/rate_limiter.rs:177-204 | in every stretch of calls the grants are at most capacity + rate * (time + clock gaps) |
| TokenBucketRuns.AdmissionBoundInAnyWindow | src/middleware/rate_limiter.rs:177-204 | the same for every stretch of every run of a client from its first call |
| TokenBucketRuns.AdmissionBoundSingleClock | src/middleware/rate_limiter.rs:177-204 | with one clock reading per call the bound is capacity + rate * time |
| TokenBucketRuns.SecondReadingBeatsTextbookBound | src/middleware/rate_limiter.rs:178-188 | with the second reading it is not: three grants in 1.1 s at capacity one and one token per second |
| TokenBucketBounds.ExploitExceeds | src/middleware/rate_limiter.rs:178-196 | the same for every capacity, every rate and every gap up to one refill period: draining the bucket and calling twice more exceeds the bound |
| TokenBucketBounds.TextbookBoundIff | src/middleware/rate_limiter.rs:177-204 | if the readings of a call lie at most some gap apart, the textbook bound holds on every stretch of every run if and only if that gap is zero |
| TokenBucketRuns.ClientsAreIndependent | src/middleware/rate_limiter.rs:144-146 | in every run over the shared map, from start-up on, bucket and grants of a client are those of its own calls alone, starting with a full bucket at its first call |
| TokenBucketRuns.SharedAdmissionBound | src/middleware/rate_limiter.rs:172-205 | in every stretch of every run of the shared limiter from start-up, a client is granted at most capacity + rate * (time + clock gaps), whatever other clients do |
| TokenBucketRuns.WaitIsLeast | src/middleware/rate_limiter.rs:198-204 | a refusal returns a wait of at least one second, the least whole number after which an undisturbed retry is granted |
| TokenBucketRuns.ScriptWaitIsLeast | src/middleware/rate_limiter.rs:63-66 | the same for the script, as long as the key does not expire before the retry |
| TokenBucketRuns.RefusalEnforcedIff | src/middleware/rate_limiter.rs:271-285 | an authenticated request gets a 429 if and only if the bucket refuses it and the refill rate is not negative, for every configuration |
| TokenBucketRuns.MiddlewareTells | src/middleware/rate_limiter.rs:257-286 | an authenticated client is told the whole tokens left after a granted call, and after a refusal the least whole number of seconds that suffices |
| TokenBucketRuns.NegativeRateReads | src/middleware/rate_limiter.rs:63-66 | the script's wait at a negative rate reads as zero, hence as a backend failure, exactly when less than one second's drain is missing, and as at least 2^63 seconds otherwise |
| TokenBucketRuns.SameAnswers | src/middleware/rate_limiter.rs:140-143 | if an empty bucket refills within the expiry, script and in-memory bucket give the same grants, refusals and waits on every single-clock run |
| TokenBucketRuns.DrainDistinguishes | src/middleware/rate_limiter.rs:61 | otherwise draining the bucket and coming back at the expiry tells them apart |
| TokenBucketRuns.ExpiryInvisibleIff | src/middleware/rate_limiter.rs:54-67 | the expiry is invisible on all runs if and only if 3600 * rate is at least the capacity |
| TokenBucketBounds.RefilledScriptMeetsBound | src/middleware/rate_limiter.rs:54-67 | if an empty bucket refills within the expiry, the script grants at most capacity + rate * time in every stretch of every run |
| TokenBucketBounds.TwoBurstsExceed | src/middleware/rate_limiter.rs:61 | otherwise two bursts, one hour apart, are granted twice the capacity and exceed it |
| TokenBucketBounds.ScriptBoundIff | src/middleware/rate_limiter.rs:54-67 | the script meets the bound on all runs if and only if 3600 * rate is at least the capacity |
| Text.TrimIsTrimmed | src/streaming.rs:67-76 | trimming leaves no whitespace at either end, and changes nothing exactly when there was none |
| Text.TrimDropsWhitespace | src/streaming.rs:67-76 | trimming drops whitespace and nothing else |
| Text.LinesSplit | src/streaming.rs:66 | a text cut after a newline has the lines of both parts |
| Text.LinesComplete | src/streaming.rs:66 | no line is lost, added or reordered: the text falls into pieces that hold one line each, with a newline and perhaps a carriage return that only the last may lack |
| Messages.PickCostsLess | src/compactor.rs:67-72 | a selection of messages never costs more tokens than all of them |
| Messages.TokensRoundUp | src/compactor.rs:56-72 | four bytes make a token, role and content each rounded up |
| Messages.BytesPerCharacter | src/compactor.rs:58 | bytes are counted, not characters: one each exactly for ASCII, at most four |
| Messages.RemainingNext | src/compactor.rs:268-274 | removing one message more takes exactly its tokens away |
| Messages.ToPruneIsLeast | src/compactor.rs:260-279 | what is pruned is the shortest prefix of the candidates that meets the target, or all of them if none does |
| Messages.LastUser | src/compactor.rs:201 | the position of the last user message, or none if there is none |
| StopWords.StopWordsNeverLengthen | src/compactor.rs:75-92 | removing stop words never lengthens a text in UTF-8 bytes, so it never costs tokens |
| StopWords.SplitJoin | src/compactor.rs:80-91 | splitting at whitespace undoes joining words with single spaces |
| StopWords.WordsSplit | src/compactor.rs:80 | a text cut at any whitespace has the words of both parts |
| StopWords.JoinConcat | src/compactor.rs:91 | words are joined by single spaces |
| StopWords.StopWordsAreGone | src/compactor.rs:80-91 | the words of the result are, in order, exactly the words of the text whose lower-cased letters and digits match no lower-cased stop word |
| SimpleCompactor.LastNonSystem | src/compactor.rs:150-155 | a non-system message is among the last N of its kind exactly when fewer than N of its kind follow it |
| SimpleCompactor.ApplyWindow | src/compactor.rs:119-165 | the window holds, in order, the system messages and the non-system ones with fewer than N non-system followers |
| SimpleCompactor.PruneOldest | src/compactor.rs:260-279 | the loop, which always removes at least one message, removes exactly the shortest sufficient prefix |
| SimpleCompactor.PruneWorking | src/compactor.rs:260-287 | positions removed and messages left after pruning |
| SimpleCompactor.Shrink | src/compactor.rs:199-305 | branch, tokens, removed positions and messages of everything after the window |
| SimpleCompactor.Compact | src/compactor.rs:102-322 | every field of the report in every branch; the reported tokens are the total of the returned messages |
| SimpleCompactorLaws.CompactionNeverGrows | src/router.rs:331-334 | in every branch the final tokens are at most the original ones, so the handler's unsigned subtraction is safe and the ratio is between zero and one |
| SimpleCompactorLaws.CompactionSelectsInOrder | src/compactor.rs:156-287 | the output is the input at strictly increasing positions, word for word or without stop words |
| SimpleCompactorLaws.StopWordsLeaveExactly | src/compactor.rs:199-225 | stop words are removed from every output message but system messages and the last user message when the window was not enough, and from none otherwise |
| SimpleCompactorLaws.WindowHolds | src/compactor.rs:119-165 | the window holds exactly the system messages and the last N others |
| SimpleCompactorLaws.CompressesIff | src/compactor.rs:106-305 | a change is reported if and only if the history is not small, its window is not empty, and the window is over the threshold or shorter than the history |
| SimpleCompactorLaws.StrippingMeetsGoal | src/compactor.rs:227-258 | if stop words are enough, three quarters of the original tokens are not exceeded |
| SimpleCompactorLaws.SystemMessagesSurvive | src/compactor.rs:204-209 | every system message survives word for word |
| SimpleCompactorLaws.LastUserSurvivesIff | src/compactor.rs:119-209 | the last user message survives word for word if and only if fewer than N non-system messages follow it or the window is empty |
| SimpleCompactorLaws.LastUserCanBeLost | README.md:398 | the documented promise to keep it fails: with a window of one, an answer pushes the question out |
| SimpleCompactorLaws.CompactionKeepsSomething | src/compactor.rs:289-305 | a non-empty history is never compacted to nothing |
| SimpleCompactorLaws.PrunedCountExact | src/compactor.rs:314-321 | the reported number of pruned messages is input minus output length, but one more in the keep-last fallback |
| SimpleCompactorLaws.FallbackIff | src/compactor.rs:289-293 | that fallback fires if and only if pruning is reached, the window holds neither a system nor a user message, and its last message alone exceeds the target |
| SimpleCompactorLaws.FallbackReached | src/compactor.rs:289-321 | it can fire, under every threshold: a short question and a long answer with a window of one leave one message and report two pruned |
| SimpleCompactorLaws.PruningMeetsGoal | src/compactor.rs:227-287 | pruning removes the shortest oldest-first prefix of the eligible messages after which four times the tokens are at most three times the original, or everything eligible |
| SemanticCompactor.RankingSorts | src/compactor.rs:578-581 | the ranking is a rearrangement of the removable messages by score, earlier first among equals |
| SemanticCompactor.RemoveLowest | src/compactor.rs:583-594 | the loop removes exactly the shortest sufficient prefix; its running token count never underflows and equals the rebuilt total |
| SemanticCompactor.Compact | src/compactor.rs:491-618 | every field of the report in every branch; tokens and count pruned agree with the returned messages |
| SemanticCompactor.CompactionSelectsInOrder | src/compactor.rs:556-601 | in every branch the output is the input at strictly increasing positions, word for word |
| SemanticCompactor.BudgetMet | src/compactor.rs:506-605 | the result fits the budget or costs at most what the protected messages cost, and never grows |
| SemanticCompactor.RemovesLowestRanked | src/compactor.rs:578-594 | when the protected messages fit the budget, none of them is removed and every removed one ranks below every unprotected one that stays |
| SemanticCompactor.RemovalIsMinimal | src/compactor.rs:588-594 | when the protected messages fit the budget, the removed prefix of the ranking meets it and no shorter prefix does |
| SemanticCompactor.MustStayStays | src/compactor.rs:531-560 | every system message, the last user message and every marked message survives at its own position in every branch |
| SemanticCompactor.OnlyMustStay | src/compactor.rs:549-575 | if these use up the budget, nothing else survives |
| SemanticCompactor.ProtectedMustStay | src/compactor.rs:531-537 | the protected messages are the system messages, the last user message and the marked ones, and no others |
| SemanticCompactor.BudgetMeans | src/compactor.rs:507-509 | the budget is the configured share of the original tokens rounded down, but no less than the configured minimum |
| SemanticCompactor.EmptyIff | src/compactor.rs:556-601 | a history is compacted to nothing if and only if nothing is protected and the budget is zero or the top-ranked message alone exceeds it |
| SemanticCompactor.EmptiedByDefault | src/compactor.rs:556-601 | that happens: under the default settings one long answer is compacted to nothing unless a marker protects it |
| RouteConfig.FirstWithKey | src/route_config.rs:255-268 | the first route with a key by linear scan, or none |
| RouteConfig.ValidateFields | src/route_config.rs:193-226 | the missing-field errors of one route, in order |
| RouteConfig.ValidateProviders | src/route_config.rs:228-253 | the unknown-provider errors of one route, in order |
| RouteConfig.DetectDuplicate | src/route_config.rs:255-268 | the hash map finds the same duplicate as a linear scan, and keeps agreeing with it |
| RouteConfig.Validate | src/route_config.rs:179-276 | the complete list of errors, in order |
| RouteConfig.ReportsExactly | src/route_config.rs:171-178 | an error is reported if and only if the file deserves it: blank fields, missing or unknown providers, duplicates with their first occurrence |
| RouteConfig.ReportInOrder | src/route_config.rs:192-269 | errors are reported route by route |
| RouteConfig.GatewayAcceptsIff | src/route_config.rs:24-36 | the gateway accepts a file if and only if every route has a path, a method and a provider that are not blank, names only the six built-in or registered providers, and no two routes agree in path and upper-cased method |
| RouteConfig.ReportEmptyIff | src/route_config.rs:171-178 | nothing is reported if and only if every route is well formed and all keys differ |
| RouteConfig.NewResolver | src/route_config.rs:294-301 | builds the index over all routes |
| RouteConfig.IndexHoldsLast | src/route_config.rs:296-299 | on any file the index holds exactly the keys that occur, each with its last route |
| RouteConfig.ResolveAgreesWithScan | src/route_config.rs:303-310 | on a validated file the lookup returns a route if and only if it matches path and upper-cased method, and no other route matches |
| RouteConfig.ResolveNoneIff | src/route_config.rs:303-310 | nothing is found if and only if no route matches |
| RouteConfig.RouteConfigManager.constructor | src/route_config.rs:394-395 | publishes the given resolver |
| RouteConfig.RouteConfigManager.Start | src/route_config.rs:375-395 | refuses to start exactly on a file that is unreadable or invalid under the gateway's own rules and provider names |
| RouteConfig.RouteConfigManager.TryReload | src/route_config.rs:503-533 | publishes an acceptable file and keeps the previous configuration otherwise |
| RouteConfig.PublishedIsLastGood | src/route_config.rs:499-533 | after every sequence of file contents the published resolver is that of the last acceptable one |
| RouteConfig.AcceptableIsWellFormed | src/route_config.rs:179-276 | a readable file is accepted if and only if it is well formed |
| RouteConfig.IndexAgreesUnderReload | src/route_config.rs:294-310 | through every sequence of reloads the lookup answers like a linear scan of the last good file: the match for every route that matches, and none exactly when nothing matches |
| Transpiler.ConvertCalls | src/transpiler/anthropic.rs:90-121 | the pushing loop yields a leading text block unless the text is empty, then one block for each call in order |
| Transpiler.CallSurvives | src/transpiler/anthropic.rs:99-117 | a call with string id and name and parseable arguments comes back the same, up to the spelling of its arguments |
| Transpiler.UsesExtracted | src/transpiler/anthropic.rs:206-227 | whatever blocks the content is made of, its `tool_use` blocks become the calls, one each, in order |
| Transpiler.CallsSayUses | src/transpiler/anthropic.rs:206-227 | each call is of type function and carries id, name and serialized input of its block |
| Transpiler.BlocksConcat | src/transpiler/anthropic.rs:356-384 | text and tool uses are gathered from all blocks, in order |
| Transpiler.ToolCallRoundTrip | src/transpiler/anthropic.rs:66-135 | an assistant message with such calls, sent through the native format and back, keeps its text and the number, order, ids, names and parsed arguments of its calls |
| Transpiler.NativeRoundTrip | src/transpiler/anthropic.rs:356-409 | any native answer, put into the conversation and translated again, keeps its whole text in one leading block and its tool uses in order |
| Transpiler.NativeContentKeptIff | src/transpiler/anthropic.rs:356-409 | it comes back as the same content if and only if it has at most one text block, in front and not empty, and otherwise tool uses, at least one |
| Transpiler.MessageConverted | src/transpiler/anthropic.rs:70-133 | the native form of every message, field by field: a tool result is one block with the id of its call and its content word for word; an assistant message with calls is its text and one block for each call with id, name and parsed arguments; any other message keeps its content; nothing is added |
| Transpiler.ConversationConverted | src/transpiler/anthropic.rs:66-135 | native messages correspond one to one, in order, to the non-system messages, and each is the native form of its message |
| Transpiler.NonSystemConcat | src/transpiler/anthropic.rs:69 | system messages are left out and the others keep their order |
| Transpiler.IdsPreserved | src/transpiler/anthropic.rs:73-118 | a message keeps the ids of the calls it makes and of the call it answers if and only if its forwarded content holds no native blocks of its own |
| Transpiler.LinksPreserved | src/transpiler/anthropic.rs:56-65 | every result in the native conversation refers to an earlier call if and only if it did in the original |
| ToolLinks.CompactRequest | src/router.rs:294-321 | extracts role and content, compacts with either compactor and replaces the messages of the request only if that compressed them |
| ToolLinks.ForwardedText | src/router.rs:315-321 | what is forwarded of a compressed conversation: role and text of the messages that survive, in order, the text whole or without stop words, and no other field |
| ToolLinks.CompactionLinksIff | src/router.rs:294-321 | for either compactor, a validated conversation reaches the provider with its results linked to calls if and only if it was linked and is not compressed, or is compressed and no tool message is at a position that survives |
| ToolLinks.LinkIsLost | src/router.rs:315-321 | a linked conversation of question, call and result loses its link with a window of two under every threshold that start-up accepts, although call and result survive |

Functions without a row are the specifications that the methods above are proved equal to, or helpers of the proofs.

## Left out

- Balancer.Fairness: assumes one fixed list, no other callers in between and no wrap of the 64-bit counter during the run; the counter is shared by all routes, and lists of one provider do not advance it.
- Balancer.FivePercentIff: assumes that total weight and sample size together stay below 2^64, so that every start exists.
- CircuitBreakerRuns.BackoffClosedForm: for an integer factor only; for any other the backoff is the iterate of the rounded step (`Backoff`), of which monotony, bounds and the doubling law are proved.
- CircuitBreakerRuns.WindowRefinement: about a provider since its first event.
- FailoverRuns.FailoverCompletes: assumes distinct names and positive weights, which the gateway does not validate; with zero weights the selection itself can err. A circuit-open skip uses up an attempt, so with more than three providers some are never reached.
- FailoverRuns.FailoverIff: about providers that behave the same at every attempt; `FailoverCompletes` is the part that needs no such assumption.
- Failover.Gateway.Forward: the provider's configuration, URLs, headers, tokens and payload are summed up in the reply of the provider; metrics and message texts are not modelled. For streaming, the reply is only whether the request could be sent off.
- SseStream.ChunkIndependence: asks of the decoder that newline bytes survive. UTF-8 replacement decoding does that because no multi-byte sequence contains the byte 10; the decoder itself is not modelled.
- SseSplitter.SseChunkSplitter.PollNext: the network stream is a finite list of deliveries, and stays ended once it has ended.
- TokenBucket.RedisTokenBucket.Eval: what Redis makes of the infinite wait at a zero rate is a parameter, and a wait beyond 64 bits is not cut off.
- TokenBucketRuns.SharedAdmissionBound: for one fixed positive configuration per client, on a clock that never goes back.
- TokenBucketRuns.SameAnswers: the key expires on the clock that the script is given; the clock of the Redis server is not a second one.
- TokenBucketRuns.WaitIsLeast: a wait beyond 2^64 seconds saturates in the gateway.
- Transpiler.ToolCallRoundTrip: about calls with string id and name and parseable arguments; for others the translation substitutes empty ids, names and arguments.
- Transpiler.NativeRoundTrip: about tool uses with the fields type, id, name and input, id and name being strings; other fields of a block are dropped.
- SemanticCompactor.RankingSorts: the library's stable sort is a function here, not its in-place algorithm.
- Floating-point rounding in rates, ratios and refills; overflow of machine integers, durations and instants, except for the balancer's counter.
- The provider's entry is a value inside the breaker's map rather than a mutable reference into it, as the map is never shared outside its lock.
- `execute_with_failover` in src/balancer.rs: the request handler does not call it; its own loop is modelled.
- How a route chooses its compactor and its token settings; both compactors and all settings are covered.
- `calculate_score`, `extract_query_terms` and the marker test: heuristic text scoring; every score and every marker test is covered.
- `RedisCircuitBreaker`, a placeholder; the Redis transport and its fail-open answers.
- Reading and parsing the routes file, the file watcher and its debouncing: a reload is given the file's contents, or none if it cannot be read.
- `to_native` and `from_native` beyond messages: tools, tool choice, stop sequences, the system message, usage and finish reasons; `translate_chunk`; the other transpilers.
- Authentication, embeddings, `routing.rs` (not on the request path), metrics and tracing.
