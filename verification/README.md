# Verified model of the key-rotating proxy

The proxy forwards client requests to paid upstream APIs, picking one of several API keys per provider,
rotating to another key when one is rejected, and disabling keys whose credits are gone. This project models

- the **key pool** (`Keys.KeyPool`, specified by the functions of `PoolSpec`): balances, disabled flags, cooldowns,
  in-flight slots, the cursor and the one-token wakeup channel, one method per critical section;
- the **rotation loop** over it (`SameKey`, `Rotation`, with the record of a request in `Trails`): same-key backoff,
  rotation, queueing for a slot, and the choice of the response. Upstream, client, clock and usage endpoint are arbitrary (`Environment.World`), and at every
  point where the code is outside a critical section, arbitrary operations of other requests and tickers may run.
  What holds always is stated unconditionally; what holds for a request alone on the pool is stated under `Quiet()`;
- the **slot and wakeup protocol** as a step-by-step interleaving of any number of requests (`SlotProtocol`);
- what a request amounts to: the first sweep as a sort (`Sweeps`), the work bound and the answer (`Answers`), what
  a daily budget allows over one request (`DailyBudget`) and over many (`Histories`), and when a key that was taken out
  comes back (`Resets`);
- the **reject policy** (`Policy`), **`Retry-After`** in delta-seconds form, section 10.2.3 of RFC 9110 (`RetryAfter`),
  the **calendar** of the reset instants (`Calendar`), **prefix routing** (`Routing`), the **refresh throttle**
  (`Refresh`), and the **`next`-link rewriter**, as a function on trees (`JsonTree`) and in place over mutable objects
  in any iteration order (`JsonHeap`).

Balances are `int64` with Go's range: arithmetic that could wrap would not verify. `2^63 - 1` is the code's own
"never measured" sentinel. Instants are integers in nanoseconds.

## Where the code differs from its documentation

The model follows the code. All but the last of these differences are stated as lemmas.

- The comment at `keys.go:153` says that no wakeup is lost. Two releases leave one token when no
  request is blocked in the select yet, so one of two requests on their way there may stay parked beside a free slot
  with nothing on its way to wake it. `SlotProtocol.WakeupsAreKeptExactlyUpToOneSlot`: this
  never happens if and only if the pool has at most one slot in all. What does hold for every pool is
  `SlotProtocol.IdlePoolWakes`.
- The documentation says that a 401 never disables a key. `Policy.BadKeyDisablesExactly`: it does, exactly for a
  firecrawl answer whose body also contains a credit phrase; `Policy.BadKeyCanBeDisabled` is one.
- The fallback reset is described as the next occurrence of the reset day. `Calendar.FallbackIsNextExactly`: for every
  reset day it is, if and only if the month aimed at has that day; `Calendar.ResetDay31RollsOver` shows a reset day of
  31 leading from 31 January to 3 March.
- An "absurd" `Retry-After` is meant to be capped at an hour. `RetryAfter.HonoursDeltaSeconds`: one beyond the range of
  `int` is ignored instead.
- A clean success is thrown away for a 503 when it drains the last usable key. `Answers.CleanSuccessIsRelayed`: it is
  relayed if and only if, in the pool it was picked from, another key was usable or the key that served keeps enough;
  `Answers.LastKeySuccessIsLost`: a request to one firecrawl key whose balance is at the stop threshold, alone on the pool
  and with an upstream that only answers 200, is always answered 503.
- One rewriting pass is final if and only if the proxy's own links are not upstream links: `JsonTree.SecondPassIsIdle`.
  `JsonTree.OwnHostNeverSettles` is a proxy that reports a change on every pass.
- A 502 is meant to say that upstream was never reached. `Answers.BadGatewayExactly`: it can also stand for a reply with
  status 000, which an HTTP client hands on; `Answers.StatusZeroCanRotate` is such a reply.
- Rejected keys are meant to be cooled, so that a request goes on to the next one. `Sweeps.RejectedKeyIsCooledExactly`:
  amid other requests the rejected key is cooled if and only if the cursor is still on it;
  `Sweeps.InterleavedSweepRepeats` shows two requests after which the first one's next pick is the key just rejected.
- The documentation speaks of an empty `FIRECRAWL_ROUTE_PREFIX`; the loader (`config.go:156-161`, `config.go:337`)
  replaces an empty value by the default, so the catch-all profile of `Routing.MatchProfile` cannot be configured that way.

## Model

| member | source | states |
|---|---|---|
| SlotProtocol.WakeupsAreKeptExactlyUpToOneSlot | keys.go:133-184 | over all runs in which some key stays usable, no request is ever left waiting beside a free slot without a wakeup on its way, if and only if keys times cap is at most one |
| SlotProtocol.IdlePoolWakes | keys.go:133-184 | in every interleaving in which some key stays usable: a request waits and no slot is held only if a token is buffered, about to be sent, or its taker has yet to try to acquire |
| SlotProtocol.IdleIsAwakeAlong | keys.go:133-184 | the invariant behind it is kept along every run from any state that has it |
| SlotProtocol.WakeStep | keys.go:133-184 | every action of any request or ticker keeps that invariant |
| SlotProtocol.SlotConservation | keys.go:117-149 | with a positive cap, in every interleaving a key's in-flight count is the number of requests holding its slot, never above the cap, and zero once nobody forwards |
| SlotProtocol.InvStep | proxy.go:63-71 | every action keeps the counts equal to the holders and every key index in range |
| SlotProtocol.SlotsFollowRequests | keys.go:120-149 | an action changes a key's count by exactly the slot its request took or gave |
| SlotProtocol.CanLoseWakeup | keys.go:144-175 | every pool of at least two slots has a run, with all keys usable throughout, that ends in a lost wakeup: two requests between check and select, two releases, one token |
| SlotProtocol.SingleSlotIsIdle | keys.go:155-184 | with at most one slot the idle-pool invariant rules a lost wakeup out |
| Keys.KeyPool.constructor | keys.go:64-99 | a new pool: every key enabled, unmeasured, rested and without requests in flight; a negative cap means none |
| Keys.KeyPool.Scan | keys.go:199-242 | the single scan with three accumulators selects the lexicographic maximum by tier, credits and smallest index |
| Keys.KeyPool.Current | keys.go:199-256 | returns that key and moves the cursor there, or returns -1 and leaves it |
| Keys.KeyPool.AnySlotFree | keys.go:108-115 | true exactly when some key, disabled or not, has a free slot |
| Keys.KeyPool.TryAcquire | keys.go:120-131 | succeeds without counting on an uncapped pool, takes a slot if the key is below its cap, and changes nothing otherwise |
| Keys.KeyPool.Release | keys.go:135-149 | gives one slot back unless there is none, and buffers the token; nothing on an uncapped pool |
| Keys.KeyPool.AdvanceAfter | keys.go:284-297 | cools the key under the cursor for the larger of 30 s and Retry-After, then selects |
| Keys.KeyPool.RecordSuccess | keys.go:323-334 | clears the cooldown of that key and of no other |
| Keys.KeyPool.Decrement | keys.go:356-374 | takes the cost, or 1 when it is not positive, off a measured balance down to 0; leaves an unmeasured one; never wraps |
| Keys.KeyPool.PredictedRemaining | keys.go:379-390 | the balance, or -1 when it was never measured or there is no such key |
| Keys.KeyPool.SetCredits | keys.go:396-406 | stores a fetched balance, a negative one as 0 |
| Keys.KeyPool.Disable | keys.go:410-421 | disables one key until an instant and zeroes its balance unless it is unmeasured |
| Keys.KeyPool.AnyUsable | keys.go:425-434 | true exactly when some key is enabled with at least the stop threshold |
| Keys.KeyPool.ReenableDue | keys.go:440-455 | enables exactly the disabled keys whose instant has come, as unmeasured, and returns how many |
| PoolLemmas.PickIsChoice | keys.go:190-248 | the selection beats every other usable key by tier, credits and index, and is -1 only when no key is usable |
| PoolLemmas.ChoiceIsUnique | keys.go:190-248 | at most one key beats all other usable ones, so the specification determines the selection |
| PoolLemmas.TieredIsPick | keys.go:201-248 | falling back from the richest rested key to the richest with a slot to the richest usable one is that selection |
| PoolLemmas.PickIsRichestRested | keys.go:190-248 | while some usable key is rested and has a slot, the key selected is one too, has the most credits of them, and among equals the smallest index |
| PoolLemmas.FreshPicksFirst | keys.go:64-99 | a new pool starts with its first key, whatever the stop threshold, and an empty one with none |
| PoolLemmas.UncappedPickIsLegacy | keys.go:196-198 | without a cap the selection is the two-tier one that predates slots, on every state |
| PoolLemmas.UncappedCountsNothing | keys.go:120-149 | without a cap every acquire succeeds, and acquiring and releasing change nothing |
| PoolLemmas.PickAgreesWithUsability | keys.go:423-434 | a key is selected exactly when one is usable, whatever the cooldowns and slots |
| PoolLemmas.BusyVersusExhausted | keys.go:193-196 | a selected key has no slot exactly when a usable key exists and every usable key is at its cap; none is selected exactly when none is usable |
| PoolLemmas.ExhaustionAgreement | keys.go:199-297 | after any sequence of pool operations balances are non-negative, and selection and health check agree |
| PoolLemmas.CooldownNeverExhausts | keys.go:280-283 | no Retry-After turns a pool with a usable key into an empty one |
| PoolLemmas.RetryAfterIsHonoured | keys.go:269-297 | a cooled key is passed over for the larger of 30 s and Retry-After while another usable key is rested and has a slot; no other key is cooled |
| PoolLemmas.Ledger | keys.go:356-374 | over any run without another balance write a measured key ends at max(0, start - total effective cost), and an unmeasured one stays unmeasured |
| PoolLemmas.LedgerIgnoresOrder | keys.go:356-374 | the same operations in any order end in the same balance |
| PoolLemmas.RefreshDecides | keys.go:356-406 | a fetched balance makes its key usable exactly when the key is enabled and the balance reaches the stop threshold, touches no other key, and is what the ledger goes on from |
| PoolLemmas.DisabledUntilDue | keys.go:408-455 | a disabled key is in no selection until a re-enable at or after its instant, through any other operations |
| PoolLemmas.DisableLifecycle | keys.go:408-455 | from the disable, which takes a measured balance away, through any history: out of every selection, back, usable and unmeasured, at a re-enable at or after the instant, and not back at one before it |
| PoolLemmas.DisabledForever | keys.go:445 | a key disabled with the zero time never comes back |
| PoolLemmas.ReenableIsIdempotent | keys.go:440-455 | exactly the due keys are flipped, enabled keys keep their balance, and a second call at the same instant flips none and changes nothing |
| RetryAfter.RetryAfterSeconds | keys.go:304-321 | a header is worth between 0 and 3600 seconds |
| RetryAfter.HonoursDeltaSeconds | keys.go:304-321 | the decimal form of n, signed or not and with blanks around it or not, is worth min(n, 3600), except that a negative number, or one beyond int, is worth 0 |
| RetryAfter.IgnoresDates | keys.go:299-303 | a value with a letter in it is worth 0, and so is no header |
| SameKey.TryKey | proxy.go:331-416 | called only while the key's slot is held, sends with that key a maximal run of requests each of which but the last asked for another, and reports the last reply; an unbuildable request sends none; unless the client goes away it stops only at a reply that asks for no retry, has waited the whole schedule in between, and gives up only after six requests, or, at a 403 with a smaller budget, after that budget and one |
| SameKey.TurnBound | proxy.go:397-410 | at most six requests on one key, and at most the 403 budget plus one when all of them meet a 403 |
| SameKey.Heed | proxy.go:371-413 | waits before a retry that the reply asks for, and otherwise, or if the client goes away, reports what the reply means |
| SameKey.CompleteTurn | proxy.go:391-413 | every request but the last met a failed connection or one of 403, 408, 500, 502, 503, 504, and the last one did exactly if the key was given up, which takes six requests or the 403 budget; an upstream that only says 403 gets exactly that budget and one |
| SameKey.BackoffDoubles | proxy.go:24-32 | the waits double from half a second, and all five together are 15.5 s |
| SameKey.FinalIsNotTransient | proxy.go:391-413 | an answer handed on as final has none of the six transient statuses |
| SameKey.TransientNeverDisables | proxy.go:246-254 | no reply with a transient status disables a key through the reject path |
| Policy.ExhaustedImpliesRotate | profile.go:236-394 | for every provider, status and body, an answer that disables the key also rotates |
| Policy.PolicyByStatus | profile.go:236-394 | status by status, for every provider and body, what rotates and what disables |
| Policy.FailureTextDecides | rotate.go:8-42 | a firecrawl failure rotates exactly when its text has one of six phrases in any case, and disables exactly when it has one of three |
| Policy.PlanRefusalStays | profile.go:268-286 | an FMP 402 rotates exactly when its body does not start with the plan's refusal |
| Policy.DailyNoteDisables | profile.go:338-350 | an Alpha Vantage 200 disables the key exactly when one of the two notes stands anywhere in it |
| Policy.StatedCostCounts | proxy.go:434-465 | the credits an answer states are its cost for every provider but exa, -1 if it states none; exa's is the stated money |
| Policy.MentionsExactly | rotate.go:13-17 | a body mentions a phrase exactly when some stretch of its text reads so in lower case |
| Policy.RateLimitDisablesOnlyFmp | profile.go:367-389 | a 429 rotates for all but Alpha Vantage and disables for FMP alone, whatever the body |
| Policy.BadKeyDisablesExactly | profile.go:384-394 | a 401 rotates always, and disables exactly when it is firecrawl's and its body has a credit phrase |
| Policy.BadKeyCanBeDisabled | profile.go:390-391 | a 401 that disables a firecrawl key, its phrase in capitals |
| Policy.TransientCouldRotate | profile.go:303-315 | the policy function taken alone rotates a transient status exactly for a firecrawl failure whose body has a reject phrase; the same-key retries keep such an answer from reaching it |
| Policy.EdgeBlockCouldRotate | profile.go:303-315 | a 403 that it would rotate |
| Policy.SuccessNeverRotates | rotate.go:26-42 | a firecrawl success is never taken for a rejection, whatever its content says |
| Sweeps.FirstSweepIsSorted | proxy.go:161-260 | alone on the pool, consecutive rejections pick distinct keys, from the richest ready key down, skipping none, as long as no cooldown, set before or by a rejection, ends before the last pick |
| Sweeps.FullSweepTriesAll | proxy.go:161-260 | after as many rejections as there are ready keys each was tried exactly once |
| Sweeps.FirstSweepInOrder | proxy.go:161-260 | a longer run of rejections starts with that sweep |
| Sweeps.PickIsRichestLeft | keys.go:199-248 | mid-sweep the selection is the richest ready key not yet tried |
| Sweeps.RejectionSettles | keys.go:284-297 | a rejected key was usable; it is disabled exactly as asked, and cooled for the larger of 30 s and Retry-After |
| Sweeps.RejectedKeyIsCooledExactly | keys.go:284-297 | whatever other requests do between pick and rejection, the rejected key is cooled exactly when the cursor is still on it |
| Sweeps.OtherRequestMovesCursor | keys.go:243-246 | a second request picks while the first holds the richer key, and moves the cursor |
| Sweeps.InterleavedSweepRepeats | keys.go:284-297 | the first request's rejection then cools the second key, and its next pick is the rejected key again |
| Answers.FirstSweepIsASort | proxy.go:161-260 | the same for the attempts of a whole request, from its contract, however long the request goes on after that sweep |
| Rotation.Rotator.ServeOnce | proxy.go:63-95 | the requests of one attempt, all sent with the key picked and while its slot is held, and its classification, no key given up early while the client stays; alone on the pool it uses the selected key, measures it first if that is due, and leaves all slots as they were, on every exit path |
| Rotation.Rotator.EnsureMeasured | refresh.go:168-176 | asks only firecrawl, tavily and apify; alone on the pool, asks nothing about a measured key, stores the balance exactly of a key never measured, and only if the fetch succeeds |
| Rotation.Rotator.WaitForSlot | keys.go:155-184 | terminates; says true only for an uncapped pool or a free slot, at once if the pool is quiet and has one; says false only at the timeout or to a client that has gone; blocks no longer than the timeout counted from its own clock reading; changes no key |
| Rotation.Rotator.Park | keys.go:173-182 | a wait ends with the token only if one was buffered, which it takes; otherwise at the deadline, and never beyond it, or when the client has gone |
| Rotation.Rotator.DisableUntilReset | creditusage.go:433-443 | asks only firecrawl and apify; stores the reported period end or the fallback, between now and a year from now |
| Rotation.Rotator.SettleSuccess | proxy.go:188-223 | alone on the pool: clears the cooldown, charges the cost unless the plan refused or exa names none, and disables a daily-capped key at its stop threshold |
| Rotation.Rotator.SettleRejection | proxy.go:228-260 | disables the key exactly when the answer means exhausted credits, until the instant that follows from the usage report, and cools the key under the cursor |
| Rotation.Rotator.Conclude | proxy.go:283-321 | an over-long answer is relayed as it is; otherwise 503 without a usable key, 502 without a response, or the last answer with its links rewritten |
| Rotation.Rotator.QueueDeadline | proxy.go:156-159 | the deadline is the clock reading that sets it plus the queue time |
| Rotation.Rotator.Queued | proxy.go:164-182 | a saturated round is answered 429 at once, or waits for a slot while the deadline has not passed; only a request that may queue waits, and until the deadline, but for the time between two clock readings; it is answered 503 only if queueing is off or the deadline has passed, and not at all if the client has gone |
| Rotation.Rotator.RotateKeys | proxy.go:161-268 | terminates within maxPasses attempts per key, all but the last rotated away from; says how the loop ended, that a turned-away request had waited out its queue, and that no wait began or lasted beyond it; alone on the pool accounts for every change to it and for its end |
| Rotation.Rotator.ServeHTTP | proxy.go:97-322 | the whole request amid any interference: attempts bounded, consecutive, given up only when rejected or failed, and not early while the client stays; which answer is written when; queueing ends at the request's first clock reading plus the queue time, and a queue-timeout 503 comes no earlier; alone on the pool the pool afterwards is exactly what the recorded rejections, and the service by the last attempt's key, make of it, and the request ends busy or exhausted only if all usable keys are at their cap or none is usable |
| Answers.WorkIsBounded | proxy.go:331-416 | upstream requests are at most six per attempt, and the 403 budget plus one if upstream only says 403 |
| Answers.WorkTotals | proxy.go:143-187 | a request makes at most maxPasses * keys * 6 upstream requests, or maxPasses * keys * (max403Retries + 1) of an upstream that only says 403 when 0 < max403Retries < 5 |
| Answers.AnswerIsReal | proxy.go:161-321 | every answer is one of 400, 404, 429, 502, 503, or has status and headers of one upstream reply to this request and its body up to link rewriting |
| Answers.FinalBodyIsExact | proxy.go:305-321 | position by position, the body that is relayed has its eligible links replaced and everything else as it was, is printed from that, and is untouched without such a link |
| Answers.BadGatewayExactly | proxy.go:296-303 | with a key left, 502 is answered exactly when the last attempt ended without a reply, or with one of status 0 that is taken for a rejection |
| Answers.UnwritableExactly | proxy.go:283-321 | exactly when a status below 100 is handed on to be written |
| Answers.StatusZeroCanRotate | profile.go:303-315 | a reply with status 0 that is taken for a rejection |
| Answers.CleanSuccessIsRelayed | proxy.go:188-223 | a clean last attempt is relayed exactly when another key was usable in the pool it was picked from, or what the charge leaves on its key is enough; it is answered 503 otherwise |
| Answers.LastKeySuccessIsLost | proxy.go:188-294 | every request to one firecrawl key at the stop threshold, alone on the pool and with an upstream that only answers 200, is answered 503 |
| Answers.CleanSuccessCanBeLost | proxy.go:188-294 | there is such a request |
| Answers.FirstUseMeasures | proxy.go:73-79 | alone on the pool, the key used is measured exactly if it never was, there is a refresher and the provider has a balance endpoint; no other balance changes |
| Answers.BusyOrExhausted | proxy.go:63-70 | an attempt alone on the pool is saturated exactly when usable keys exist and all are at their cap, and exhausted exactly when none is usable |
| Answers.AttemptIsReal | proxy.go:63-95 | an attempt that served, was cut off or was rejected reports an upstream reply to it, and a final status is not transient |
| Answers.ReplyDecidesKind | proxy.go:81-95 | the last reply of an attempt decides its kind: capped if over-long, given up if it has a transient status or there is none, rejected exactly if the policy says so, a success otherwise |
| Answers.BadKeysAreRotated | proxy.go:88-93 | every 401 is a rejection, and every 429 but Alpha Vantage's |
| Answers.RejectionIsRelayedLast | proxy.go:246-260 | an answer that the policy rejects is relayed only when all maxPasses attempts per key are used up |
| Answers.RejectedKeyIsSettled | proxy.go:234-260 | every recorded rejection disables its key exactly when the attempt's last reply says that its credits are gone, until the reset that follows from the usage report, leaves its balance otherwise, and cools it as that reply asks |
| Histories.RequestsStayInBudget | proxy.go:97-322 | over any number of requests, whatever rejections they meet, a daily-capped key seeded at B answers at most max(1, B - S) of them before a refresh or re-enable, FMP plan refusals apart, and none if it is disabled or below S |
| Histories.RequestIsNoBetter | proxy.go:161-268 | one whole request never raises a balance or brings a key back; the key that answers it ends disabled or above the stop threshold and poorer, FMP plan refusals apart |
| DailyBudget.BudgetBound | proxy.go:188-223 | the same bound over any sequence of answers and other pool operations that neither charge, refresh nor re-enable |
| DailyBudget.ServedAnswerIsCharged | proxy.go:188-223 | the whole effect of a served answer on every key: its own pays what the answer states or 1 (nothing for an FMP plan refusal, only the stated money for exa), is rested, and goes out of service for 30 s if a daily-capped one comes down to the stop threshold; no other key is touched |
| DailyBudget.UsableAfterService | proxy.go:188-223 | after a served answer some key is usable exactly when another one was, or the key that served keeps enough |
| DailyBudget.ChargedKeyIsSafe | proxy.go:213-223 | after each answer of a daily-capped key, FMP plan refusals apart, it is disabled or has more than the stop threshold left |
| DailyBudget.NothingComesBack | keys.go:356-421 | nothing but a refresh or a re-enable raises a balance or brings a key back |
| Calendar.FallbackResetBound | config.go:749-757 | for every instant and reset day 1-31, strictly after now and at most 31 days later |
| Calendar.FallbackIsNextExactly | config.go:746-757 | for days 1-31 the result is the earliest midnight after now on the reset day if and only if the month aimed at has that day |
| Calendar.FallbackResetIsEarliest | config.go:746-757 | for days 1-28 it always is |
| Calendar.TargetHitsResetDay | config.go:749-757 | the result falls on the reset day if and only if the month aimed at has that day |
| Calendar.ResetDay31RollsOver | config.go:749-757 | reset day 31 leads from 31 January to 3 March, which is not its next occurrence |
| Calendar.ResetInstantBound | creditusage.go:433-443 | whatever the provider reports, the instant lies between now and the same date next year |
| Calendar.ReportedEndIsTaken | creditusage.go:425-443 | the reported period end is taken exactly for firecrawl and apify, if the fetch succeeds and it lies within the year; in all other cases it is the fallback |
| Calendar.YearLength | creditusage.go:438 | any twelve months are 365 or 366 days, by the leap-year rule |
| Calendar.AddYearIsAYear | creditusage.go:438 | a year later is 365 days later, or 366 when a leap day lies between |
| Calendar.YearStart | config.go:749-757 | a year starts 365 days after the one before, and one more after a leap year |
| Calendar.DateIsGregorian | config.go:749-757 | the calendar in closed form: a date is 365 days a year, the leap days before it, the days before its month, and its day |
| Calendar.MonthIsUnique | config.go:750-751 | the month search finds the one month a day belongs to |
| Resets.KeyReturnsAtPeriodEnd | creditusage.go:433-443 | an exhausted firecrawl or apify key is out of every selection, through any history, until the first re-enable at or after the period end that was reported within the year, and back then |
| Resets.KeyReturnsOnResetDay | creditusage.go:422-443 | every other one is until the first re-enable at or after the fallback reset |
| Resets.SpentKeyReturns | proxy.go:213-223 | a daily-capped key taken out at its stop threshold is until the first re-enable 30 s later |
| JsonTree.RewriteIsExact | rewrite.go:32-62 | position by position, for every tree: an eligible next link is replaced and everything else is what it was |
| JsonTree.TouchesIffEligible | rewrite.go:32-62 | a change is reported exactly when some position holds an eligible link |
| JsonTree.UntouchedIsUnchanged | rewrite.go:20-22 | a tree without eligible links is returned as it is |
| JsonTree.RewriteOneReplacesOrigin | rewrite.go:64-79 | a link is accepted exactly when it is an http(s) URL on the upstream host and the proxy base has a host, and keeps everything but scheme and host |
| JsonTree.OnePassSettles | rewrite.go:32-79 | no eligible link is left after one pass when the proxy's links are not upstream links |
| JsonTree.SecondPassIsIdle | rewrite.go:32-79 | a second pass reports no change if and only if the proxy's links are not upstream links, and then changes nothing |
| JsonTree.PlainKeepsOrigin | rewrite.go:64-79 | for a codec of plain http(s) links a rewritten link parses back to the proxy, whatever proxy and upstream host |
| JsonTree.OwnHostNeverSettles | rewrite.go:69-78 | a proxy reached under the upstream's own host reports a change on every pass |
| JsonHeap.RewriteNextInValue | rewrite.go:32-62 | in place, over mutable objects and in any field order, the document becomes the rewritten tree and the flag says whether a link was eligible |
| JsonHeap.RewriteFields | rewrite.go:34-50 | one object's fields, in any order |
| JsonHeap.RewriteItems | rewrite.go:51-58 | the items of an array, one after another |
| Routing.MatchProfile | profile.go:407-437 | the first claim wins, then the last catch-all, then, if allowed, the last firecrawl profile; the path is stripped only for a claim |
| Routing.ClaimsWholeSegments | profile.go:396-399 | a prefix claims itself and what continues it with a slash, and nothing else |
| Routing.UnclaimedGoesToFirecrawl | profile.go:429-436 | what no prefix claims goes, unstripped, to the one firecrawl profile exactly if the legacy fallback is on, and nowhere otherwise |
| Routing.OwnPagesStayFree | config.go:483-491 | no valid prefix claims `/healthz` or `/status` |
| Routing.UnambiguousExactly | config.go:483-491 | with valid prefixes every path has at most one claimant if and only if no prefix lies over another |
| Routing.OrderDoesNotMatter | profile.go:407-437 | with such prefixes and one firecrawl profile, reordering the list changes neither profile nor path |
| Routing.StrippingKeepsThePath | profile.go:416-427 | prefix and stripped path make the path, the prefix itself stands for its root, a kept prefix is kept, and the forwarded path starts with a slash |
| Refresh.Refresher.MaybeRefreshLow | refresh.go:92-111 | a fetch starts exactly for a measured balance below the provider's mark whose last low fetch is an interval ago, and is then stamped |
| Refresh.Refresher.DailyRefresh | refresh.go:115-131 | starts exactly the fetches that are due, each once and in order, and stamps them |
| Refresh.Refresher.Refreshed | refresh.go:180-191 | a fetch that succeeded stamps the key's daily fetch and no other |
| Refresh.DailyRoundCovers | refresh.go:113-131 | after a daily round no key's stamp is a day old |
| Refresh.LowKeysAreFetched | refresh.go:72-111 | after a check no measured balance below the mark, one dollar or 100 credits, is left whose last low fetch is an interval ago, a fetch having started exactly if one was; no other balance starts one |
| Refresh.FetchesAreSpaced | refresh.go:21-28 | however the calls interleave, two fetches of a key started for the same cause are an interval, or a day, apart |
| Refresh.FetchRate | refresh.go:21-28 | n such fetches of a key take at least n - 1 intervals |

## Left out

- HTTP transport, header copying, logging, start-up, `/healthz` and `/status` encoding, statistics counters, key masking, `paginationGuard`, `tavilyRemaining`: plumbing or settled by reading. Of the health check only `AnyUsable` is modelled.
- JSON and URL parsing and printing: JSON is a tree, a URL is scheme, host and rest behind arbitrary parse and print functions. Precision of re-encoded numbers and case-insensitive field names of Go's decoder are not captured. The lemmas about a second pass assume of them that a rewritten link parses back to the proxy's scheme and host (`JsonTree.KeepsOrigin`).
- The regular expressions are sets of phrases, and case folding is ASCII only.
- Environment parsing and USD conversion: thresholds, budgets and prefixes are validated values, and exa's cost in micro-USD is given with the body.
- Usage fetches and their retry loop: an oracle that returns a balance and a period end, or fails. It is consulted only for the providers that have such an endpoint.
- Tickers and background refreshes appear as arbitrary pool operations between critical sections; the throttle that starts the fetches is modelled on its own in `Refresh`, and `OnSwitchReason` is left out.
- `SetCredits` with the sentinel value, and changes of cap or thresholds after start-up.
- Writing the response: Go's `WriteHeader` panics for a status below 100, so such an answer does not reach the client. `Answers.UnwritableExactly` says when one is handed on.
- The clock is taken to move on between two readings; Go's monotonic clock may return the same reading twice. The timer of a wait is set at a reading of its own, so a wait can run over the queue deadline by what passes between the two, as `Rotation.Rotator.QueuesUntil` says. Time passes only at readings, sleeps and waits.
- Routing and the request proper are separate: one `Rotator` stands for the matched profile, and whether a profile matched, the body could be read, and the upstream URL could be built are arguments of `ServeHTTP`.
- Rotation.Rotator.ServeHTTP: rewrites the final body through the tree function; the in-place version is proved equal to that function in `JsonHeap` and not called.
- SameKey.TryKey: leaves what follows one reply to a method of its own, `SameKey.Heed`, where the source has one loop body.
- Rotation.Rotator.RotateKeys: is split into methods for one round and its outcomes where the source has one loop body.
- Answers.FirstSweepIsASort: is stated for a request alone on the pool, with all keys measured. Amid other requests it does not hold, as `Sweeps.InterleavedSweepRepeats` shows.
- Answers.CleanSuccessIsRelayed: is stated for a request alone on the pool; amid others the answer depends on whether a key is usable at the end, as the contract of `ServeHTTP` says.
- Histories.RequestsStayInBudget: is stated for requests one after another, each alone on the pool.
- DailyBudget.BudgetBound: stops at the first refresh or re-enable, because a re-enabled key is unmeasured.
- SlotProtocol.IdlePoolWakes: says nothing about a pool with a held slot, where a waiter may stay parked until that slot comes back.
