# Polygolem: a verified model of its money-moving and money-gating cores

Polygolem is a Go client for a prediction-market exchange. This project models, in
Dafny, the parts of it that move money or decide whether money may move, and proves
what those parts are for over every input, every run and every interleaving.

| file | models |
|---|---|
| `RateLimiter.dfy` | the token bucket with lazy refill |
| `CircuitBreaker.dfy`, `Transport.dfy` | the circuit breaker with concurrent requests, and the retry loop that feeds it |
| `RiskBreaker.dfy` | the trading breaker: five trip reasons, cooldown, daily rollover, positions |
| `Dedup.dfy`, `Stream.dfy` | the bounded deduplicator and the accounting of the market stream |
| `Reconnection.dfy` | the market stream's reconnects, over a client's whole life and step by step |
| `Ledger.dfy` | the paper-trading ledger |
| `Bytes.dfy`, `InitCode.dfy`, `Evm.dfy` | the deposit-wallet init code, and what running it does |
| `Decimals.dfy`, `OrderAmounts.dfy` | decimal strings, truncation, tick check and limit-order amounts |
| `MarketSweep.dfy`, `MarketOrder.dfy` | pricing a market order from the book, and its amounts |
| `LiveGate.dfy`, `OrderBatch.dfy` | the live-order cap, single and batch validation |
| `Results.dfy`, `Powers.dfy`, `Sums.dfy`, `Sorting.dfy` | shared vocabulary |

Objects that the program updates in place are classes. Each method is proved against a
step function on a value (`View()` before and after), and the run-level theorems are
about those step functions. A mutex-held method body is one atomic step.

Clocks, network answers, lookups, decoding outcomes and environment values are inputs.
`float64` and `big.Rat` are exact reals; the limiter counts nano-tokens and nanoseconds,
where a refill is exact. Of `big.Rat`'s parser only its reading of plain decimals is
known (`Decimals.Faithful`); every other notation is left to it.

## Where the code is not what its comments or names promise

The model follows the code, and each point is a lemma or the contract of a method.

- The trading breaker is meant not to resume while an account is over a limit
  (`internal/risk/breaker.go:196-198`). It does when a later trip overwrote the recorded
  reason: `RiskBreaker.HaltMasksLoss`, `RiskBreaker.MaskedPositionFailsOpen`.
  `RiskBreaker.SafeIffNeverFailsOpen` gives the exact condition.
- A request that the circuit breaker rejects in `doWithHeaders` is itself recorded as a
  failure. Polling an open breaker keeps it open, exactly while no gap exceeds the
  timeout: `CircuitBreaker.PollingKeepsItOpen`. One request too many, recorded before
  the half-open episode is over, reopens the breaker whatever the probes answer:
  `CircuitBreaker.RecordedOverLimitReopens`.
- A call reports success without sending anything if and only if the breaker admits it,
  the limiter lets it through, its body is encoded and the maximum of retries in force
  is negative: `Transport.Client.DoWithHeaders`.
- The decimal-places check counts characters, so it does not keep an order's amounts
  exact. An accepted price is safe if and only if it is a whole number of units in the
  tick's last decimal: `OrderAmounts.AcceptedPriceIsSafeIff`, with
  `OrderAmounts.ExponentEscapesScale` as an instance that is not.
- The live cap on a market sale counts shares. It bounds the dollars if and only if
  selling the whole cap, cut to the tick's precision and then to cents, brings in at most
  the cap: `MarketOrder.CapBoundsSalesIff`. For every cap that is so if and only if the
  price is at most one dollar (`MarketOrder.EveryCapBoundsSalesIff`), and nothing checks
  a caller's own price; `MarketOrder.DearShareEscapesCap` is an instance.
- Selling at market on a tick of five or more decimals can sign for more dollars than
  the share amount is worth at the limit. A sale can be filled against every book if and
  only if its shares, cut to the tick's precision, are whole base units:
  `MarketOrder.SalesAreFillableIff`, with `MarketOrder.FinerTicksBreakSells` as an
  instance that is not. Ticks of at most four decimals, and amounts of at most six,
  always are: `MarketOrder.WholeUnitsWhen`.
- `Available` is a refill, so it can be visible after `Stop`. It stays invisible if and
  only if the same number of the later requests can be served with and without the
  peeks: `RateLimiter.PeeksInvisibleIff`, with `RateLimiter.StopMakesPeeksVisible` as an
  instance where they differ.
- The reconnect counter is reset so that the client does not stop reconnecting for good
  (`internal/stream/client.go:416-419`). Only a successful attempt resets it, and a failed
  attempt is the last one until the caller connects again, which does not. So, while
  attempts do not overlap, the delay doubles no further within one session, but does
  across sessions, and once
  `ReconnectMax` attempts have failed in a row no later drop is ever answered, however
  often the caller connects: `Stream.MarketClient.Supervise`,
  `Reconnection.DropIsAnsweredIff`, `Reconnection.GivesUpForGoodIff`.
- The new reader starts before the counter is reset. The counter still keeps its bound
  (`Reconnection.CounterIsBounded`, exact by `Reconnection.BoundIsAttained`), but an
  attempt may sleep without doubling: `Reconnection.LateResetForgets`.

## Model

| member | source | states |
|---|---|---|
| RateLimiter.WindowBound | internal/transport/ratelimit.go:34-91 | In every window of every run, whatever came before and stopped or not, TryAcquire and Wait together grant at most capacity + rate × window length |
| RateLimiter.GrantedIffEveryWindowAllows | internal/transport/ratelimit.go:62-91 | Exactness: starting full and never stopped, a request is granted if and only if granting it keeps every window ending at it within its bound |
| RateLimiter.TokensStayInRange | internal/transport/ratelimit.go:79-91 | Tokens stay within 0 and capacity at every point of every run under a clock that does not run backwards |
| RateLimiter.StoppedGrantsWhatIsLeft | internal/transport/ratelimit.go:62-82 | After Stop exactly min(requests, whole tokens held) TryAcquires are granted, and Wait grants none |
| RateLimiter.PeeksChangeNothing | internal/transport/ratelimit.go:79-99 | Lazy refill is eager refill: any number of Available calls changes no verdict of a run that is never stopped |
| RateLimiter.PeeksInvisibleIff | internal/transport/ratelimit.go:62-99 | When a limiter is stopped after any run, Available calls change no verdict if and only if min(later TryAcquires, whole tokens at the stop) is the same with and without the earlier peeks |
| RateLimiter.StoppedVerdictsAgreeIff | internal/transport/ratelimit.go:62-99 | Two stopped limiters give the same verdicts, peeks left out of one run, if and only if both can serve the same number of the requests |
| RateLimiter.RefillsCompose | internal/transport/ratelimit.go:79-91 | Capped refills compose: refilling on the way changes no later bucket |
| RateLimiter.PeekIsWhatIsGranted | internal/transport/ratelimit.go:62-99 | Of any number of TryAcquires at one instant exactly as many are granted as Available reports then, whether it was asked or not |
| RateLimiter.StopMakesPeeksVisible | internal/transport/ratelimit.go:73-99 | An instance: a run of four calls with a stop whose verdicts a peek changes |
| RateLimiter.SleepIsTight | internal/transport/ratelimit.go:46-48 | Wait sleeps exactly long enough: no token exists at any instant before the sleep ends, and one always does a nanosecond after |
| RateLimiter.NewBucket | internal/transport/ratelimit.go:20-30 | A new limiter is full; its capacity and its rate are the requested number, or 10 if that is not positive |
| RateLimiter.Limiter.RefillTokens | internal/transport/ratelimit.go:79-91 | The in-place refill computes the specified bucket |
| RateLimiter.Limiter.TryAcquire | internal/transport/ratelimit.go:62-71 | The method takes one specified step and reports its outcome |
| RateLimiter.Limiter.Available | internal/transport/ratelimit.go:94-99 | The method refills and reports whole tokens |
| RateLimiter.Limiter.Stop | internal/transport/ratelimit.go:73-77 | The method freezes the bucket |
| RateLimiter.Limiter.Wait | internal/transport/ratelimit.go:34-60 | The loop is a run of turns all but the last refused; it ends granted, cancelled by Stop, or by the context, and says which |
| CircuitBreaker.EpisodesAreBounded | internal/transport/circuitbreaker.go:88-111 | However requests interleave, each half-open episode admits at most halfOpenMaxReqs probes |
| CircuitBreaker.TurnedAwayIff | internal/transport/circuitbreaker.go:88-111 | Over every interleaving a request is turned away if and only if the breaker is open and it comes within resetTimeout of the latest counted failure, or half-open and the episode has admitted all its probes; then it changes nothing, and every other request is let through, as an ordinary one or as a probe |
| CircuitBreaker.HealthyRunsAdmitAll | internal/transport/circuitbreaker.go:88-111 | In a run without maxFailures counted failures in a row since the latest Reset every request is let through as an ordinary one |
| CircuitBreaker.ModeChangesIff | internal/transport/circuitbreaker.go:88-148 | Open goes half-open exactly with a request later than the timeout and closes only on Reset; half-open opens exactly with a counted failure; closed never goes half-open |
| CircuitBreaker.NeverSticks | internal/transport/circuitbreaker.go:88-148 | Half-open with none of the episode's probes in flight, the next request is admitted whenever it comes |
| CircuitBreaker.InvHolds | internal/transport/circuitbreaker.go:88-148 | The inductive invariant over every interleaving, with successes + probes in flight ≥ probes admitted |
| CircuitBreaker.FailuresCountTheTrailingRun | internal/transport/circuitbreaker.go:113-148 | Closed, `failures` is the trailing run of counted failures since the breaker closed; otherwise it is maxFailures |
| CircuitBreaker.OpensExactlyAtMaxFailures | internal/transport/circuitbreaker.go:123-135 | A closed breaker opens if and only if this result is the maxFailures-th counted failure in a row |
| CircuitBreaker.ClosesExactlyAfterProbesSucceed | internal/transport/circuitbreaker.go:137-148 | A half-open breaker closes if and only if this success is the halfOpenMaxReqs-th with no counted failure since it went half-open (or on Reset) |
| CircuitBreaker.TimeoutCountsFromLatestFailure | internal/transport/circuitbreaker.go:123-124 | The timeout counts from the latest counted failure, in whatever state it was recorded |
| CircuitBreaker.FirstLateCallIsAdmitted | internal/transport/circuitbreaker.go:75-111 | Unrecorded rejections leave no trace: over any sequence of calls of an open breaker, the first one more than resetTimeout after the last failure is admitted, and none before it |
| CircuitBreaker.PollingKeepsItOpen | internal/transport/client.go:152-166 | Through doWithHeaders every call of a polled open breaker is rejected if and only if no gap exceeds resetTimeout |
| CircuitBreaker.RecordedOverLimitReopens | internal/transport/client.go:152-166 | However requests interleave, a doWithHeaders request beyond the probes of a half-open episode is rejected, and recorded before the episode is over it ends it open and re-arms the timeout |
| CircuitBreaker.Breaker.BeforeRequest | internal/transport/circuitbreaker.go:88-111 | The method takes the specified admission step, falling through from open to half-open; closed it always admits, and it answers "open" exactly within the timeout |
| CircuitBreaker.Breaker.AfterRequest | internal/transport/circuitbreaker.go:113-121 | Only a counted error is a failure; everything else is recorded as a success |
| CircuitBreaker.Breaker.RecordFailure | internal/transport/circuitbreaker.go:123-135 | The method takes the specified failure step in each state |
| CircuitBreaker.Breaker.RecordSuccess | internal/transport/circuitbreaker.go:137-148 | The method takes the specified success step in each state |
| CircuitBreaker.Breaker.CallWithPredicate | internal/transport/circuitbreaker.go:75-86 | A rejected call records nothing; an admitted one records exactly its own result |
| CircuitBreaker.Breaker.RecordResult | internal/transport/circuitbreaker.go:173-175 | Every error counts as a failure |
| CircuitBreaker.Breaker.Reset | internal/transport/circuitbreaker.go:162-170 | Back to closed, keeping only the time of the last failure |
| CircuitBreaker.WithDefaults | internal/transport/circuitbreaker.go:53-62 | Whatever the settings, the limits in force are positive, positive settings are kept, and the defaults are 5 failures, 60 seconds and 3 probes |
| Transport.Client.DoWithHeaders | internal/transport/client.go:152-263 | A rejected call sends nothing and answers the rejection; limiter and body failures send nothing and answer theirs; otherwise result and number of requests are what the replies tell (below); Ok with nothing sent if and only if a GET gets so far with a negative configured RetryMax; at most RetryMax+1 sends for GET and one otherwise, the exact backoff before each, and exactly one result recorded with the breaker per call, rejections included |
| Transport.Client.Attempts | internal/transport/client.go:189-262 | The loop answers and sends exactly what its course says: nothing when the limiter or the body fails, else the ending at the first attempt that is cancelled, final or the last one allowed |
| Transport.CourseIsDetermined | internal/transport/client.go:189-262 | The loop ends at one attempt only: result and number of requests are determined by the replies and the context |
| Transport.CourseTells | internal/transport/client.go:189-262 | In terms of replies alone: another attempt is made if and only if the last reply is a failed connection, 429 or 5xx, attempts remain and the context is not done; the answer is Ok if and only if the last reply is a 2xx whose body decodes if one is wanted, and otherwise the error of that reply, of the context or of the request that cannot be built |
| Transport.ToldIsTheCourse | internal/transport/client.go:189-262 | The replies tell everything: only the course of the loop has that answer and that number of requests |
| Transport.CancellationEndsTheCourse | internal/transport/client.go:195-201 | A context that ends in the sleep before attempt k answers its error with exactly k requests sent |
| Transport.UndisturbedCourse | internal/transport/client.go:189-262 | Undisturbed, the answer is the first final outcome or the last error, and every request up to it was sent, one that cannot be built excepted |
| Transport.AnswerIsFirstFinal | internal/transport/client.go:190-262 | The answer is the first non-retryable outcome, or else the error of the last attempt |
| Transport.BackoffClosedForm | internal/transport/client.go:195-200 | The total sleep before send k+1 is RetryDelay·(2^k − 1) |
| RiskBreaker.UnmaskedRunsAreSafe | internal/risk/breaker.go:93-233 | Over every run in which no trip is recorded over a different reason whose limit is still breached, all positive limits hold whenever the breaker is running |
| RiskBreaker.RunningAccountsAreWithinLimits | internal/risk/breaker.go:93-233 | Over such runs, whenever the breaker is running: every token's latest size lies between −limit and limit, the sizes without their signs sum to at most the total limit, the losses since the rollover stay below theirs and so do the errors in a row |
| RiskBreaker.PositionTripsIff | internal/risk/breaker.go:132-150 | RecordPosition trips per market if and only if size or −size exceeds a positive limit, and otherwise for the total if and only if the sizes without their signs exceed theirs |
| RiskBreaker.ShortCountsLikeLong | internal/risk/breaker.go:292-316 | A short position has the same effect as the long one of the same size, whatever else is held |
| RiskBreaker.ResumesIff | internal/risk/breaker.go:189-233 | A halted breaker resumes if and only if the cooldown since the latest trip has passed and the limit of that trip's reason, and of no other, is respected again |
| RiskBreaker.UnmaskedStep | internal/risk/breaker.go:132-150 | Each step keeps: while halted only the recorded reason's limit may be breached, except that a per-market trip returns before the total is checked |
| RiskBreaker.SafeIffNeverFailsOpen | internal/risk/breaker.go:189-233 | A run respects every positive limit while running if and only if no CanProceed in it resumes on one reason while another limit is breached |
| RiskBreaker.HaltMasksLoss | internal/risk/breaker.go:153-159 | A run of three calls that ends running at twice the daily loss limit |
| RiskBreaker.MaskedPositionFailsOpen | internal/risk/breaker.go:189-233 | Every breaker halted for another kind of reason over a breached position limit resumes at some later time |
| RiskBreaker.DailyLossIsSum | internal/risk/breaker.go:116-128 | The daily loss is exactly the sum of max(0, amount) since the latest rollover or Reset, and RecordLoss trips if and only if that reaches the limit |
| RiskBreaker.RolloversOnLaterDays | internal/risk/breaker.go:257-290 | Rollovers that no Reset separates happen on strictly increasing UTC days, at or after the reset hour |
| RiskBreaker.ClockReading | internal/risk/breaker.go:281-290 | Day and hour are those of the UTC day |
| RiskBreaker.OnlyTodayCounts | internal/risk/breaker.go:257-290 | At or after the reset hour, any checking call leaves only losses of the current UTC day |
| RiskBreaker.NoTradingBeforeCooldown | internal/risk/breaker.go:189-211 | After any trip CanProceed is false until strictly more than the cooldown since the latest trip, forever if the cooldown is not positive, unless Reset |
| RiskBreaker.ErrorsTripAtTheLimit | internal/risk/breaker.go:93-113 | The error counter is the number of errors since the latest success, Reset or resume, and trips exactly at the limit |
| RiskBreaker.PositionsAreLatest | internal/risk/breaker.go:132-150 | The position map holds exactly the size last recorded per token, and no other event touches it |
| RiskBreaker.Breaker.CheckDailyResetLocked | internal/risk/breaker.go:257-270 | The method takes the specified rollover step |
| RiskBreaker.Breaker.ComputeTotalAbsPosition | internal/risk/breaker.go:300-306 | The loop over the map, in any order, computes the sum of the sizes without their signs |
| RiskBreaker.Breaker.RecordError | internal/risk/breaker.go:93-105 | The method takes the specified step and returns its verdict |
| RiskBreaker.Breaker.RecordSuccess | internal/risk/breaker.go:108-112 | The method takes the specified step |
| RiskBreaker.Breaker.RecordLoss | internal/risk/breaker.go:116-128 | The method takes the specified step and returns its verdict |
| RiskBreaker.Breaker.RecordPosition | internal/risk/breaker.go:132-150 | The method takes the specified step, per-market check before total check, and trips per market whenever size or −size exceeds that limit |
| RiskBreaker.Breaker.Halt | internal/risk/breaker.go:153-159 | The method takes the specified step |
| RiskBreaker.Breaker.CanProceed | internal/risk/breaker.go:189-211 | The method takes the specified step and returns its verdict |
| RiskBreaker.Breaker.TripConditionStillActiveLocked | internal/risk/breaker.go:215-233 | The search over the map, in any order, decides whether the recorded reason's limit is breached |
| RiskBreaker.Breaker.Status | internal/risk/breaker.go:162-186 | The snapshot checks the rollover and reports every field of the state then, with the rest of the cooldown and the total absolute position |
| RiskBreaker.Breaker.Reset | internal/risk/breaker.go:243-253 | Back to a new breaker |
| Dedup.AgreesWithUnlimitedMemory | internal/stream/dedup.go:35-89 | While no more than `size` distinct keys were accepted within the last TTL, every verdict is that of unlimited memory, on every input sequence and for every choice eviction makes |
| Dedup.OverCapacityForgets | internal/stream/dedup.go:65-89 | The condition is exact: beyond it some key that unlimited memory calls a duplicate is accepted as new |
| Dedup.NeverOverCapacity | internal/stream/dedup.go:56-89 | At most `size` entries are held after each call of every run |
| Dedup.SurvivorCount | internal/stream/dedup.go:56-89 | Exactly how many entries survive a call: all while they fit, else as many of those younger than the TTL as fit |
| Dedup.ForgetsOldestFirst | internal/stream/dedup.go:65-89 | No call drops an entry newer than one it keeps, and what it keeps is unchanged |
| Dedup.Deduplicator.Process | internal/stream/dedup.go:35-63 | The method takes a permitted step; each message is counted in, and once more as duplicate or as passed on |
| Dedup.Deduplicator.EvictLocked | internal/stream/dedup.go:65-89 | Expiry, listing, sorting and deletion together are a permitted eviction |
| Dedup.Deduplicator.DropStale | internal/stream/dedup.go:66-70 | Deleting while iterating, in any order, leaves exactly the live entries |
| Dedup.Deduplicator.DropOldest | internal/stream/dedup.go:85-88 | Deleting from the sorted list down to the cap keeps `size` entries, none older than a dropped one |
| Dedup.Deduplicator.Reset | internal/stream/dedup.go:91-95 | The memory is empty |
| Sorting.Sort | internal/stream/dedup.go:85 | An ordered permutation of the input, for every input |
| Stream.MarketClient.ReadLoop | internal/stream/client.go:226-258 | Over any stream: processed = In, Dup = duplicates, Out = messages + invalid, and every counter, also per event type, is what the deduplicator's verdicts and the decoder dictate |
| Stream.MarketClient.ProcessMessage | internal/stream/client.go:260-270 | Each message keeps the books balanced and is counted in exactly one place |
| Stream.MarketClient.Dispatch | internal/stream/client.go:272-355 | Valid messages of the seven known types are events of their type, everything else is invalid |
| Stream.BumpedSum | internal/stream/stats.go:79-87 | Counting an event of a type adds one to the sum over all types |
| Stream.StreamStats.RecordEvent | internal/stream/stats.go:79-87 | One more message, one more of its type, nothing else changes |
| Stream.StreamStats.RecordDuplicate | internal/stream/stats.go:89-93 | One more duplicate |
| Stream.StreamStats.RecordInvalid | internal/stream/stats.go:95-99 | One more invalid message |
| Stream.StreamStats.RecordReconnect | internal/stream/stats.go:101-106 | One more reconnect |
| Stream.MarketClient.Backoff | internal/stream/client.go:396-402 | The reconnect delay is min(delay × 2^attempts, maximum) for non-negative settings |
| Stream.MarketClient.Reconnect | internal/stream/client.go:390-421 | One call: whether it attempts, the delay before the attempt, and the counter, reset on success; it is one `Reconnection.Answer` |
| Stream.MarketClient.Supervise | internal/stream/client.go:390-421 | From any counter, over any drops of one connected client: each is answered by one attempt until an attempt fails, which is the last; the first sleep is min(delay × 2^(counter+1), maximum), every later one min(2 × delay, maximum), and the final counter |
| Reconnection.CounterIsFailuresInARow | internal/stream/client.go:189-193 | Over a client's whole life of connects and drops the counter is the number of failed attempts since the latest successful one, whatever connects came between, and stays within ReconnectMax |
| Reconnection.DropIsAnsweredIff | internal/stream/client.go:390-421 | A drop is answered if and only if fewer than ReconnectMax attempts have failed in a row, after a sleep of min(delay × 2^(failures+1), maximum) |
| Reconnection.GivesUpForGoodIff | internal/stream/client.go:390-393 | No continuation of a life, connects included, ever attempts again if and only if ReconnectMax attempts have failed in a row (or reconnecting is off) |
| Reconnection.DelayClosedForm | internal/stream/client.go:396-402 | The doubling and capping loop is min(delay × 2^rounds, maximum) for non-negative settings |
| Reconnection.CounterIsBounded | internal/stream/client.go:208-224 | However the single steps of readers and reconnects interleave, the counter and the rounds of every delay are at most ReconnectMax + (most readers at a time) − 1 |
| Reconnection.BoundIsAttained | internal/stream/client.go:390-394 | For every ReconnectMax and number of readers some interleaving reaches that bound |
| Reconnection.OneConnectKeepsTheMaximum | internal/stream/client.go:189-224 | A client connected once keeps the counter within ReconnectMax under every interleaving |
| Reconnection.UninterruptedAttempt | internal/stream/client.go:390-421 | The steps of one reconnect, taken without interruption, have the outcome and the delay of the one-step answer |
| Reconnection.LateResetForgets | internal/stream/client.go:408-420 | With a single reader at a time, an attempt may sleep without any doubling and with the counter at zero, because its predecessor resets late |
| Ledger.NewLedgerConserves | internal/paper/state.go:34-86 | Cash + cost of what is held = initial cash + realized PnL up to epsilon × average cost per closed position, and cash stays non-negative |
| Ledger.LedgerConserves | internal/paper/state.go:38-86 | The same from any sound ledger, with the exact difference, over any trades |
| Ledger.BuyConserves | internal/paper/state.go:38-52 | A buy conserves exactly; rejected, it changes nothing |
| Ledger.SellConserves | internal/paper/state.go:60-86 | A sell conserves up to the dust of a closed position; rejected, it changes nothing |
| Ledger.PartialSellKeepsAverage | internal/paper/state.go:60-86 | A sell that leaves a position leaves its average cost unchanged |
| Ledger.AverageWithinBuyPrices | internal/paper/state.go:38-86 | However trades alternate, every average cost lies between the lowest and highest buy price |
| Ledger.LedgerFollowsOrders | internal/paper/state.go:38-86 | Over any run cash is exactly what the filled orders left of it, and of every token as many shares are held as were bought and not sold, up to epsilon per closed position |
| Ledger.FillsAsOrdered | internal/paper/state.go:38-86 | An order fills if and only if the cash pays for it (buy) or the holding covers it up to epsilon (sell); its fill repeats it; no other token is touched |
| Ledger.State.Buy | internal/paper/state.go:38-52 | The method applies the specified buy |
| Ledger.State.Sell | internal/paper/state.go:60-86 | The method applies the specified sell |
| Evm.InitCodeDeploysRuntime | internal/auth/signer.go:131-144 | Running either init code, for arguments that fit, stores the address under its ERC-1967 slot and deploys exactly the bytes from 0x23 to the end, within 11 instructions |
| Evm.CopiesRuntime | internal/auth/signer.go:131-144 | The prefix copies the runtime, whose length is the PUSH2 operand, into memory |
| Evm.StoresAndReturns | internal/auth/signer.go:131-144 | The rest loads the slot from the runtime itself, stores the address there and returns the runtime |
| InitCode.OperandCountsTheRuntime | internal/auth/signer.go:244-283 | Adding the length changes only the two PUSH2 operand bytes, and the operand is the number of bytes from offset 0x23 to the end |
| InitCode.OpcodeSurvivesIffOperandFits | internal/auth/signer.go:244-283 | The opcode byte survives if and only if base + length < 65536 |
| InitCode.BodyHoldsSlot | internal/auth/signer.go:131-144 | The constants hold the ERC-1967 slot at the offset the code pushes, and the body has the length the base declares |
| InitCode.DepositWalletBeaconInitCode | internal/auth/signer.go:244-261 | The buffer filled in place is the layout prefix + length, beacon, constants, arguments, and the builder panics exactly when the number needs more than ten bytes |
| InitCode.DepositWalletInitCode | internal/auth/signer.go:265-283 | The same for the UUPS variant |
| InitCode.FillBytes | internal/auth/signer.go:253 | The bytes written are the big-endian spelling of the number |
| Bytes.BigEndianSplits | internal/auth/signer.go:246-247 | High and low parts of a number are spelled separately |
| Bytes.WordOfBigEndian | internal/auth/signer.go:253 | Spelling a number and reading it back is the identity |
| OrderAmounts.LimitAmountsAreExact | internal/clob/orders.go:1406-1461 | A plain-decimal price (also “.5” and “5.”) that passes the tick check with d ≤ 6 decimals and a size with at most 6−d lose nothing: the amounts are exactly size·10^6 and size·price·10^6 |
| OrderAmounts.LegsAgree | internal/clob/orders.go:1406-1418 | −1 < U − price·N < price for the USD leg U and share leg N, and SELL is BUY with the legs swapped |
| OrderAmounts.SafePriceIff | internal/clob/orders.go:1406-1461 | With d ≤ 6: no size of at most 6−d decimals loses anything at a price if and only if the price is a whole number of 10^−d |
| OrderAmounts.AcceptedPriceIsSafeIff | internal/clob/orders.go:1406-1461 | The same for every price that passes the tick check, and every accepted plain decimal is safe |
| OrderAmounts.PriceCheckIff | internal/clob/orders.go:1445-1461 | Of plain decimals the tick check accepts exactly the prices at least a tick away from 0 and 1 that need no finer decimal place than the tick, in value; every other one gets its own error |
| OrderAmounts.ExponentEscapesScale | internal/clob/orders.go:1457-1469 | An instance: 15e-3 passes the check of a two-decimal tick, is not safe, and already loses half a base unit of a size of four decimals |
| OrderAmounts.TruncBounds | internal/clob/orders.go:1414-1418 | Truncation loses less than a unit of a non-negative number and nothing of an integer |
| Decimals.PlacesSuffice | internal/clob/orders.go:1463-1469 | A plain decimal is an integer number of units in its last counted place, trailing zeros not counted |
| Decimals.PlacesAreLeast | internal/clob/orders.go:1463-1469 | The counted places of a plain decimal are exactly those its value needs: n suffice if and only if at most n are counted |
| Decimals.TrimmedIs | internal/clob/orders.go:1471-1473 | Trimming leaves what stands between the spaces |
| Decimals.MorePlaces | internal/clob/orders.go:1414-1418 | More places keep an integer number of units an integer |
| MarketSweep.MarketOrderPrice | internal/clob/orders.go:1345-1404 | The failed lookup, the empty side or the first bad level's error, or the sweep's answer on the parsed levels of any book |
| MarketSweep.LevelsAreRead | internal/clob/orders.go:1370-1380 | Every level is read where it stands, price as price and size as size; the error is that of the first unreadable one |
| MarketSweep.Sweep | internal/clob/orders.go:1381-1403 | The price is exactly the best level price at which cumulative depth reaches the amount; fill-or-kill fails iff the total depth is short, fill-and-kill then takes the worst level |
| MarketSweep.FirstCrossingIsSweepPrice | internal/clob/orders.go:1387-1397 | In best-first order, the first level at which the running sum reaches the amount has the sweep price |
| MarketSweep.AnswersIgnoreOrder | internal/clob/orders.go:1359-1386 | The answer is the same for every permutation of the levels |
| MarketSweep.SweepPriceIsUnique | internal/clob/orders.go:1387-1397 | At most one price is the sweep price |
| MarketSweep.ShortBookHasNone | internal/clob/orders.go:1398-1400 | With too little depth no price is a sweep price |
| MarketOrder.SweptOrdersAreFillable | internal/clob/orders.go:1088-1126 | An order priced by the fill-or-kill sweep can be filled best first within its limit: a BUY pays at most makerAmount for takerAmount shares, a SELL of makerAmount shares yields at least takerAmount if its shares, cut to the tick's precision, are whole base units |
| MarketOrder.SweptPriceIsBestLimit | internal/clob/orders.go:1381-1400 | Taking everything within the swept price, best first, pays (or sells) at least the amount; within any better limit, quoted or not, less |
| MarketOrder.SalesAreFillableIff | internal/clob/orders.go:1112-1126 | For every amount and tick: the sale can be filled against every book if and only if its shares, cut to the tick's precision, are whole base units |
| MarketOrder.WholeUnitsWhen | internal/clob/orders.go:1112-1126 | They are on ticks of at most four decimals, and for amounts of at most six |
| MarketOrder.AllSalesAreFillableIff | internal/clob/orders.go:1112-1126 | Every sale can be filled against every book if and only if the tick has at most four decimals |
| MarketOrder.FinerTicksBreakSells | internal/clob/orders.go:1112-1126 | An instance, for every tick scale above 4: a concrete book and amount whose sale cannot be filled |
| MarketOrder.FillsWithinLimit | internal/clob/orders.go:1381-1400 | Taking shares offered within a limit, best first, costs at most (yields at least) the limit per share |
| MarketOrder.TruncationLosesLittle | internal/clob/orders.go:1414-1428 | Two-step truncation never rounds up, loses less than one unit, and is exact in base units up to six places |
| MarketOrder.MarketOrderDraft | internal/clob/orders.go:1072-1127 | Every error in its order, failed lookups of tick size and book included, and otherwise the amounts for the caller's price or the swept one, which are the best (below) |
| MarketOrder.AmountsAreBest | internal/clob/orders.go:1104-1126 | BUY: makerAmount is the greatest number of whole cents in the amount, takerAmount the greatest quantity of the tick's precision that they pay for. SELL: makerAmount is the greatest such quantity in the amount, takerAmount the greatest number of whole cents it brings in. On ticks of more than four decimals up to one more base unit. None exactly if the amount is below the precision |
| MarketOrder.AmountsAtPriceIff | internal/clob/orders.go:1104-1117 | There are amounts if and only if the price is positive and the amount reaches the precision |
| MarketOrder.MarketCapBoundsDollars | internal/cli/cmd_clob.go:699-705 | A market BUY that passes the cap pays at most cap·10^6 base units of dollars at every price, and a SELL signs for at most cap·max(1, price)·10^6 |
| MarketOrder.MarketCapIff | internal/cli/cmd_clob.go:699-705 | A market order passes if and only if its amount is a positive decimal of at most the configured cap |
| MarketOrder.CapBoundsSalesIff | internal/cli/cmd_clob.go:699-705 | For a given cap, price and tick: no sale of at most cap shares signs for more than cap dollars if and only if selling the whole cap, truncated as the code does, brings in at most the cap |
| MarketOrder.EveryCapBoundsSalesIff | internal/cli/cmd_clob.go:699-705 | That holds for every cap if and only if the price is at most one dollar |
| MarketOrder.DearShareEscapesCap | internal/cli/cmd_clob.go:699-705 | An instance: one share sold at two dollars passes a cap of one dollar and signs for two, while at a price of 1.005 that cap holds |
| LiveGate.EnforceBatchOrderCap | internal/cli/cmd_clob.go:679-697 | Passes if and only if everything is a positive decimal and neither an order nor the sum exceeds the cap |
| LiveGate.BatchSpendsAtMostCap | internal/cli/cmd_clob.go:679-697 | The integer USD legs of a passing batch sum to at most cap·10^6, for any number of orders and any mix of sides |
| LiveGate.LimitCapIsBatchOfOne | internal/cli/cmd_clob.go:664-674 | The single-order cap is the batch cap on one order |
| LiveGate.PositiveDecimal | internal/livegate/livegate.go:55-68 | Whatever is accepted is positive and what the parser reads in the trimmed text; empty text and fractions are refused, each with its own error |
| LiveGate.CapIsConfigured | internal/livegate/livegate.go:27-42 | The cap is the environment's value where one is set and 1 otherwise; without a readable cap nothing passes |
| OrderBatch.CreateBatchOrders | internal/clob/orders.go:488-586 | Accepts exactly when each order alone would be, with the same amounts position by position, reports the first failing index with that order's own error, and looks up no token twice |
| OrderBatch.AcceptedAsAsked | internal/clob/orders.go:518-570 | Whoever asks to buy gives price·size·10^6 and takes size·10^6, rounded down, whoever asks to sell the reverse; token, type, post-only flag and expiration are the caller's and the neg-risk flag is the looked-up one |
| OrderBatch.AcceptedIff | internal/clob/orders.go:518-570 | An order is accepted if and only if, in the caller's terms, side, token, type, positive price and size exist, flag and expiration go with the type, and the lookups succeed with a tick that the price keeps to |
| OrderBatch.SideIff | internal/clob/orders.go:1492-1501 | A text is a BUY if and only if it reads buy or b, a SELL if and only if sell or s, in any letter case and with any space around |
| OrderBatch.OtherSidesAreRejected | internal/clob/orders.go:1492-1501 | Any other text for the side is rejected, whatever else the order says |
| OrderBatch.OrderTypeIff | internal/clob/orders.go:1503-1517 | Likewise the order type; a blank one is GTC |
| OrderBatch.SpellingReads | internal/clob/orders.go:1483-1490 | Reading the decimal spelling of a number, signed or not, gives the number |
| OrderBatch.AcceptedBatchSignsWithinCap | internal/clob/orders.go:560-570 | A batch that passes both the cap and validation signs for at most cap·10^6 base units of dollars in all, counted on the side each caller asked for |
| OrderBatch.SignedIsUsdLegs | internal/clob/orders.go:560-570 | What a batch signs for is what the cap was computed on |
| OrderBatch.ExpirationIffGoodTillDate | internal/clob/orders.go:1544-1563 | An accepted order carries an expiration if and only if it is GTD, and then one at least a minute ahead |

## Left out

- HTTP, WebSocket, RPC and file access, command wiring and output: their results are inputs.
- Keccak, ECDSA, HMAC, typed-data hashing and CREATE2: library calls; only the byte layout built here is modelled.
- JSON decoding, key extraction and the stream's callbacks: a message is its key and the outcome of decoding it.
- Signing, API-key derivation, the builder code and the posting of a batch: the model of an order ends with the payload to be signed.
- Rounding of `float64`, monotonic against wall clock, and the saturation of `time.Duration`: reals and one integer clock.
- Token, side and order type of a market order: parsed as for limit orders, which `OrderBatch.dfy` models.
- Evm.InitCodeDeploysRuntime: does not model gas, code-size limits or what the deployed runtime then does.
- InitCode.BodyHoldsSlot: spells the constants as numbers instead of decoding the hexadecimal strings.
- Transport.Client.DoWithHeaders: does not model the 64-bit overflow of the shifted delay beyond 62 retries, telemetry, or other requests between admission and recording (those are in `CircuitBreaker.Next`).
- Stream.MarketClient.Supervise: takes each reconnect as one step; the interleavings of their steps are in `Reconnection.Racing`.
- Reconnection.CounterIsBounded: does not model what two readers of one connection read, or a ReconnectMax or counter beyond 32 bits.
- Stream.MarketClient.Backoff: does not model 64-bit overflow of the doubled delay; resubscribing and the error callbacks are not modelled.
- Dedup.AgreesWithUnlimitedMemory: assumes non-decreasing times, which concurrent callers that read the clock before taking the lock may break.
- Ledger.LedgerConserves: is about buys of positive size and non-negative prices; the code itself rejects only sells of non-positive size.
- MarketSweep.Sweep: characterises the price for books without negative numbers; for others it only states that the price is some level's.
