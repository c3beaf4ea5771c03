# Admission, quota and text machinery of the AI passport backend, verified

The backend admits, meters and forwards chat requests to language models. This project models the parts of it
whose correctness rests on more than one function and proves what they promise:

| file | models |
|---|---|
| `InferenceQueue.dfy`, `QueueScripts.dfy`, `QueueSafety.dfy`, `QueueCapacity.dfy`, `QueueLag.dfy`, `QueueOrder.dfy`, `QueueBlocking.dfy` | the distributed inference queue: five atomic scripts over priority queues, lease sets and principal locks; what each of them changes, what every run keeps, how much of the capacity is used, what safety owes to exact deadlines, who is served next, and when nobody is |
| `QuotaWindows.dfy`, `QuotaPolicy.dfy` | the limits of a stored policy, calendar, rolling and lifetime windows, the Gregorian calendar under them, and the "blocked until" decision over a ledger |
| `QuotaReservations.dfy` | multi-window reserve and release over counters that expire |
| `QuotaLedger.dfy`, `QuotaSafety.dfy`, `QuotaLimits.dfy` | whole request lifecycles of a user and their API keys, from reading the usage to the completed ledger row; which limits the ledger keeps, and the runs in which it does not |
| `ResetCredits.dfy` | grants of quota resets that expire, and their redemption |
| `ModelRecovery.dfy`, `RecoverySteps.dfy` | the retry, fallback and shrink loop around an upstream model, driven by arbitrary answers; what each kind of answer makes it do |
| `TokenBucket.dfy` | tokens-per-minute admission |
| `ContextTrim.dfy`, `Utf8.dfy`, `Utf8Encoding.dfy` | fitting a chat into a context window, down to the characters a byte cut breaks |
| `StreamPeek.dfy`, `StreamEvents.dfy` | looking for a failure inside a successful response, without disturbing it |
| `PoolChoice.dfy`, `PoolScores.dfy` | scoring, daily pacing and the weighted pick from the free pool |
| `JsonText.dfy` | the JSON extractor and trailing-comma repairer |
| `Arithmetic.dfy`, `ArithmeticErrors.dfy`, `Text.dfy` | the calculator's recursive-descent parser |
| `GuestRate.dfy` | the guest rate limiter and its read-only peek |
| `Numbers.dfy`, `StringOrder.dfy`, `Wrappers.dfy` | what several of them share |

Each Lua script, pipeline or database transaction is one step. What the source updates in place is a class whose
methods are proved against a function on the abstract state; the theorems are about that function, over every run.
Loops of the source are loops here. `dafny verify dfyconfig.toml` checks everything.

## Assumptions

- Reading the clock and running the script, or the transaction, it is passed to are one step, on one clock. A request
  id is used once. Redis and the database answer; the fail-open paths are not taken.
- The quota lifecycles run on a clock of whole seconds, which is what a pending counter's key keeps of a window's start,
  and under policies that do not change. A row that fails or is cancelled counts for nothing, so it is one that is never
  completed. Clearing the user's counters and reservations, which follows a reset, is one step.
- Four rules make a run honest. A row starts in the windows its request reserved in. A bill is no more than the request
  still holds in each of them (so not past the hour a reservation lives, nor past a share that was capped), unless a
  reset has left the row behind. A reset does not fall on the second in which a user's row started. What others billed
  since a request's reading is still held when it reserves. Rules can be asked of everybody or of one principal alone.
- Keys expire at their deadline. The queue also has a parameter `lag` for a store that shows a key a while longer.
- Floating-point numbers are reals or uninterpreted (the calculator); integers are unbounded except where a 64-bit
  wrap-around can be reached (rolling windows, the pool counter).
- A model's catalogue entry and pool membership stay the same during one request's recovery loop; its request body is
  represented by its completion budget, and what a trim achieves is arbitrary.
- Text in `JsonText` and `Arithmetic` is valid UTF-8, read as characters. In `ContextTrim` and `StreamPeek` it is bytes.

## What the proofs turned up

- The queue's limits hold in every run if and only if no key is visible at or after its deadline; one millisecond of
  lag is enough for a renewal to put a second lease under a limit of one (`SafeIffDeadlinesAreExact`, `LagBreaksTheLimit`).
- While a principal's own requests are honest the ledger keeps each of its limits whose window stands still, by the hour,
  day, week or month or for a lifetime (`LedgerStaysWithinLimits`; two bullets down about the user's own). It does not
  keep a rolling or custom limit: the counter's key is the window's start, which moves every second, so requests a second
  apart do not see each other's reservations and bill twice the limit in one window.
- Every rule is needed, and just where: for each of the sixteen sets of rules, a principal's only limit holds if and only
  if it is zero, or has a span that wrapped to a negative one, or does not slide and the rules cover bills and readings,
  starts too unless it is a lifetime limit of a key's own policy, and resets too unless it is a key's own
  (`SoleLimitHoldsIff`). The runs that break a limit: a request that both bills and releases between another's reading
  and reserve (`StaleReadingOverruns`); a row that starts after the reset of the window reserved in, or after a quota
  reset (`LateStartOverruns`); a request that reports no usage and is billed its whole estimate, even where a window's
  headroom capped the reservation (`CappedBillOverruns`); a reset in the second of a start (`ResetAtStartOverruns`).
- A user's own limits count the requests of all the user's API keys, but a key with a policy of its own reserves on its
  own counter. So the user's limits that stand still hold in all honest runs if and only if every such key is shut, that
  is, has a limit of zero (`UserLimitsHoldIff`).
- A reserve may go by a figure of any age as long as what was billed since is still held: a reserve that asks for the
  whole headroom keeps a window's limit if and only if figure plus pending covers what is billed and reserved there
  (`ReserveKeepsLimitIff`, `StillHeldCovers`).
- The acquire script looks at 64 waiters only. With exact deadlines a workload can be led into a state with free capacity
  and an eligible waiter in which nobody is granted, if and only if two requests may run at once: a principal that is
  busy elsewhere fills the 64 places (`BlockedIff`, `WinnerIff`).
- A rolling limit filled at the very instant of evaluation is still full at the reset it reports; that is the only way
  coming back at the reported time can fail (`ReopensAtResetIff`, `RollingResetIsInclusive`). The policy check accepts
  any positive number of rolling seconds, but from 9223372037 on the span wraps around (`RollingSpanIsExactIff`).
- A trimmed chat can exceed its target, by no more than 43 tokens over the larger of the target and 352 for ASCII text and
  the standard roles, a bound that is reached (`TrimmingFits`, `TheBoundIsReached`). It does so if and only if the
  selection does and cutting the newest message does not bring it back; from a target of 352 up that takes a leading
  instruction squeezed in (`OvershootIff`).
- The output cap deletes `max_tokens` before looking at it, so it raises any smaller budget that is given only that way
  (`CapNeverRaisesIff`).
- The recovery loop ends within a bound on all answers if and only if it cannot move, is on the vision route, or can
  only be led into fallback chains that end: a daily-limit spill counts as an attempt, but only there is the count not
  compared with the maximum (`LoopEndsIff`).
- A half-open hour admits a guest as many times as a minimum gap leaves room for, but less than twice the hourly limit,
  since a counter window starts with an admission; every policy reaches that (`AnHourAdmitsAtMost`,
  `TheHourBoundIsReached`).
- An admission wait is enough if and only if the refused call's timestamp was not behind the bucket's (`WaitIsExactIff`).
- Free-pool priorities are stored but never reach the selection, so nothing is claimed about them.
- The repairer is not idempotent: `[1,,]` loses one comma at a time. A second repair changes nothing if and only if no
  comma outside a string literal is followed by a run of pads and commas, with a comma in it, up to a closing bracket
  (`RepairIsNotIdempotent`, `RepairIsIdempotentIff`).

## Model

| member | source | states |
|---|---|---|
| InferenceQueue.NewQueue | internal/inference/queue.go:47-67 | every configuration becomes one with a positive global limit, lease time and waiting time and a table of workload limits, the default one where there is none |
| InferenceQueue.Queue.Add | internal/inference/queue.go:76-97 | the enqueue pipeline refines the abstract enqueue step |
| InferenceQueue.Queue.Scan | internal/inference/queue.go:137-145 | the candidate scan finds the first eligible waiter and removes exactly the expired ones it passed |
| InferenceQueue.Queue.Poll | internal/inference/queue.go:125-153 | the acquire script refines the abstract step, granted or not |
| InferenceQueue.Queue.Extend | internal/inference/queue.go:169-175 | the renew script refines the abstract renewal |
| InferenceQueue.Queue.Free | internal/inference/queue.go:182-185 | the release script refines the abstract release |
| InferenceQueue.Queue.Drop | internal/inference/queue.go:186-192 | the cancel pipeline refines the abstract cancellation |
| InferenceQueue.RankedIsTheOrder | internal/inference/queue.go:137 | the range the scan reads lists every waiter once, by score and then id |
| QueueScripts.PollIsGrantedIff | internal/inference/queue.go:133-150 | a poll is granted if and only if fewer unexpired leases than the global limit and than the workload's limit there are, and its waiter is among the first 64, unexpired, of a principal without a lock, with nobody such before it, and its own principal has no lock |
| QueueScripts.PollLeases | internal/inference/queue.go:131-150 | a poll drops exactly the expired leases of both sets and, if granted, adds the lock and both leases until now plus the lease time |
| QueueScripts.PollWaiters | internal/inference/queue.go:137-149 | it removes the waiter it grants and the expired waiters in front of where the scan stopped, and no other |
| QueueScripts.AddJoins | internal/inference/queue.go:76-97 | an enqueued request waits under its score, principal and own deadline, and nobody else is moved |
| QueueScripts.RenewExtends | internal/inference/queue.go:169-175 | a renewal by the holder of the lock sets the lock and both leases to now plus the lease time and touches no other; by anybody else it changes nothing |
| QueueScripts.FreeEnds | internal/inference/queue.go:182-185 | a release removes both lease entries, the lock if it is the caller's, and nothing else |
| QueueScripts.DropLeaves | internal/inference/queue.go:186-192 | a cancelled waiter is gone from the queue, every other stays as it was |
| QueueSafety.RenewKeeps | internal/inference/queue.go:169-175 | a renewal, which checks no limit, keeps the invariant because the lock it finds is coupled to a live lease |
| QueueSafety.RunKeeps | internal/inference/queue.go:125-192 | the coupling of locks, global leases and workload leases survives every interleaving of the five scripts and time |
| QueueSafety.EveryRunIsSafe | internal/inference/queue.go:125-192 | in every run: live leases within the global and workload limits, one per principal, the global set the disjoint union of the workload sets, a live lock exactly for a live lease with the same expiry |
| QueueCapacity.CapacityIsReached | internal/inference/queue.go:136 | for every configuration a run in which just as many requests of a workload hold live leases at once as the smaller of its limit and the global limit |
| QueueLag.SafeIffDeadlinesAreExact | internal/inference/queue.go:125-185 | every run is safe if and only if no key outlives its deadline |
| QueueLag.LagBreaksTheLimit | internal/inference/queue.go:169-175 | a script that ends with two live leases under a limit of one, for any positive lag |
| QueueSafety.LapsedRenewDoesNothing | internal/inference/queue.go:169-175 | renewing after the lease lapsed changes nothing |
| QueueSafety.ReleaseFreesOnlyItsOwn | internal/inference/queue.go:182-185 | a late release removes no other request's lease or lock |
| QueueOrder.ScoreOrdersWaiters | internal/inference/queue.go:76-89 | the numeric score orders waiters by priority first and time second while milliseconds stay below 1e13 |
| QueueOrder.ScoreHorizonIsExact | internal/inference/queue.go:83 | at 1e13 milliseconds that order breaks |
| QueueOrder.NobodyEligibleIsOvertaken | internal/inference/queue.go:137-146 | whoever is ahead of the winner is expired or has a busy principal |
| QueueOrder.GrantedExactlyToTheWinner | internal/inference/queue.go:133-150 | a poll is granted if and only if the caller is the one winner |
| QueueOrder.EligibleMeansWinner | internal/inference/queue.go:136-146 | with free capacity, an eligible waiter among the first 64 means there is a winner |
| QueueOrder.WinnerIff | internal/inference/queue.go:133-146 | there is a winner if and only if there is free capacity and one of the first 64 is eligible |
| QueueBlocking.BlockedIff | internal/inference/queue.go:136-146 | 64 live waiters of busy principals can keep everybody out while there is capacity and an eligible waiter, in some run, if and only if the global limit is at least two |
| QueueOrder.LoserDoesNotDisturb | internal/inference/queue.go:137-146 | a loser's poll admits nobody and leaves the winner the winner |
| QueueOrder.RoomDeadlineDropsOnlyStale | internal/inference/queue.go:92-94 | the expiry of the queue keys loses only waiters whose own deadline has passed |
| QuotaReservations.Reservations.ReserveQuota | cmd/api/access.go:419-451 | the reserve script refines the abstract all-or-nothing reserve, in every window |
| QuotaReservations.Reservations.ReleaseReservation | cmd/api/access.go:453-465 | the release script refines the abstract release |
| QuotaReservations.TakePending | cmd/api/access.go:419-451 | a reserve adds its share once to each of its own windows' counters and touches no other counter |
| QuotaReservations.TakeReservations | cmd/api/access.go:419-451 | and records exactly that share under the request |
| QuotaReservations.GivePending | cmd/api/access.go:453-465 | a release subtracts exactly what the request still holds, and nothing elsewhere |
| QuotaReservations.ReserveIsAllOrNothing | cmd/api/access.go:419-451 | a reserve succeeds if and only if the quota is unlimited or nothing blocks and every window has headroom; it then holds the amount, or all the headroom if that is less, in every window and leaves usage plus pending within each limit |
| QuotaReservations.ReservationsLast | cmd/api/access.go:446-465 | counters and reservations count for exactly one hour after the script that wrote them |
| QuotaReservations.ReleaseIsIdempotent | cmd/api/access.go:453-465 | releasing twice is releasing once |
| QuotaReservations.ReleaseTakesNoOtherShare | cmd/api/access.go:453-465 | no other request's reservation or share of a counter is reduced |
| QuotaLedger.EveryRunIsAccounted | cmd/api/access.go:403-465 | in every run of every account each counter is at least the sum of the unexpired reservations against it and outlives each of them |
| QuotaSafety.StillHeldCovers | cmd/api/main.go:922-924 | because the ledger row is completed before the release, a reading stays good while what was billed since is still held |
| QuotaSafety.ReserveKeepsLimitIff | cmd/api/access.go:419-451 | a reserve for the whole headroom keeps a window's limit if and only if its figure plus pending covers what is billed and reserved there |
| QuotaSafety.WithinKeeps | cmd/api/access.go:403-465 | every honest step keeps billed plus still reserved within each limit of a principal, in the windows that stand still and that no reset has ended |
| QuotaSafety.LedgerStaysWithinLimits | internal/store/store.go:414-423 | while a principal's requests are honest, whatever others do, the completed rows since the start of a limit's window stay within that limit; reset events and the clear that follows them are steps, the clear an atomic one |
| QuotaLimits.SoleLimitHoldsIff | cmd/api/access.go:148-154 | for every set of rules, asked of all or of the principal alone, exactly which only limits hold in all runs that obey them |
| QuotaLimits.UserLimitsHoldIff | internal/store/store.go:414-418 | the user's limits hold in all honest runs if and only if no API key with its own policy can bill |
| QuotaLimits.StaleReadingOverruns | cmd/api/access.go:419-451 | a run that breaks only the rule on readings lets the least limit be billed twice over |
| QuotaLimits.LateStartOverruns | cmd/api/main.go:574-621 | for every only limit that stands still and can move, a run that is honest before and after one step, a row that starts outside the window its request reserved in, and bills the limit twice over |
| QuotaLimits.CappedBillOverruns | cmd/api/main.go:909-923 | a request that reserves its estimate and bills it in full is all counted against every limit; the run is otherwise honest, and honest throughout if and only if no limit is below the estimate |
| QuotaLimits.ResetAtStartOverruns | cmd/api/access.go:284-288 | a run that breaks only the rule on resets, by one in the second of a start, bills a user's limit twice over |
| QuotaWindows.YearStartFormula | cmd/api/access.go:131-142 | the calendar the windows use has the Gregorian number of days before each year |
| QuotaWindows.UnixEpochDay | cmd/api/access.go:155-157 | the lifetime window starts on 1 January 1970 of that calendar |
| QuotaWindows.WindowLengths | cmd/api/access.go:121-159 | how long each kind of window is and where it starts: whole days from midnight, weeks from Monday, months from their first, hours in multiples of the count, rolling spans on both sides of now |
| QuotaWindows.WindowsTile | cmd/api/access.go:121-159 | a calendar window contains now, and the window at its reset starts at its reset |
| QuotaWindows.WindowsAreMonotone | cmd/api/access.go:121-159 | start and reset of every kind never move back as time passes |
| QuotaWindows.PartitionsIff | cmd/api/access.go:121-159 | every instant of a window sees that same window if and only if the kind is hour or the count is one |
| QuotaWindows.RollingSpanIsExactIff | cmd/api/access.go:148-154 | a rolling span is the seconds asked for if and only if they fit a duration |
| QuotaWindows.PolicyQuotaSpecs | cmd/api/access.go:179-199 | the primary limit comes first, then each parallel one under its trimmed or given id; an error if the stored limits do not decode |
| QuotaWindows.StoredIdsAreDistinct | internal/store/store.go:269-278 | a stored policy never gives two of its limits the same id, which is what the reservation protocol relies on |
| QuotaPolicy.SpecsMean | cmd/api/access.go:179-199 | an unlimited policy has no limits; any other has its own, named primary, and then every stored one as stored, under its id without outer blanks or else its number |
| QuotaPolicy.DecimalReads | cmd/api/access.go:192-195 | the number in a given id is written in decimal and can be read back |
| QuotaPolicy.CountersMeetIff | cmd/api/access.go:259-262 | two requests share a counter if and only if they come by the same separately counted API key, or neither does and they have the same user |
| QuotaWindows.EvaluateQuota | cmd/api/access.go:249-332 | blocked exactly when some window is exhausted; the blocker is the last exhausted lifetime limit, or else the first with the latest reset; the primary window's figures otherwise |
| QuotaWindows.AnswerMeans | cmd/api/access.go:280-331 | each limit's figure: the tokens of the rows since its window or a later reset began, what they leave, and when the window resets; blocked if and only if one of them is used up |
| QuotaWindows.BlockerMeans | cmd/api/access.go:310-330 | a blocked answer names the first exhausted limit that resets last and its reset, or the last that never resets |
| QuotaWindows.ReopensAtResetIff | cmd/api/access.go:312-331 | with no new usage, re-evaluation at the reported reset is open if and only if no rolling limit with that reset was filled at the instant of the first evaluation |
| QuotaWindows.ReopensAtReset | cmd/api/access.go:312-331 | so it is open whenever every counted request had started earlier |
| QuotaWindows.RollingResetIsInclusive | internal/store/store.go:414-418 | a filled rolling limit that is still full at its reported reset, and open an instant later |
| QuotaWindows.BlockedUntilTheReset | cmd/api/access.go:312-331 | for stored non-rolling limits the same limit blocks with the same reset at every earlier moment, and forever when there is no reset |
| ResetCredits.QuotaResetStore.GrantQuotaResets | internal/store/quota_resets.go:46-60 | a grant is added exactly when its size and expiry are acceptable |
| ResetCredits.QuotaResetStore.UseQuotaResetCredit | internal/store/quota_resets.go:109-139 | redemption takes one from the earliest-expiring spendable grant and logs it, or changes nothing |
| ResetCredits.QuotaResetStore.AdminResetQuota | internal/store/quota_resets.go:98-107 | an administrator's reset appends an event and touches no grant |
| ResetCredits.QuotaResetStore.QuotaResetStatus | internal/store/quota_resets.go:62-90 | reports the spendable grants in order, their sum, the first expiry and the latest reset |
| ResetCredits.GrantGives | internal/store/quota_resets.go:46-60 | a grant of 1 to 1000 credits with a later expiry to a known user adds exactly so many credits that user can spend until then; any other is refused with its reason |
| ResetCredits.ResetTakesEffect | internal/store/quota_resets.go:98-139 | a reset, by an administrator or by credit, becomes that user's latest reset and nobody else's |
| ResetCredits.ListingIsOrdered | internal/store/quota_resets.go:63 | the listing has exactly the spendable grants, by expiry and then id |
| ResetCredits.HeadOfListing | internal/store/quota_resets.go:63-79 | its head is the grant redemption would take and carries the reported next expiry |
| ResetCredits.EveryRunConserves | internal/store/quota_resets.go:46-139 | in every run 0 <= remaining <= total and total minus remaining is the number of credit events naming the grant |
| ResetCredits.ExchangeAtHorizon | internal/store/quota_resets.go:109-139 | the exchange step: choosing any other grant never leaves more credits alive past any date |
| ResetCredits.EarliestExpiryIsOptimal | internal/store/quota_resets.go:109-139 | for any grants and times, no other choice of grants serves more redemptions |
| ModelRecovery.CapNeverRaisesIff | cmd/api/model_runtime.go:398-419 | capping never leaves more than the cap, and never raises an existing budget if and only if that is given as max_completion_tokens, or as a max_tokens that is at least the cap |
| ModelRecovery.ApplyFallbackModel | cmd/api/model_runtime.go:1045-1063 | moving to the fallback refines the abstract move: model, catalogue entry, cap and visited set together |
| RecoverySteps.MoveIs | cmd/api/model_runtime.go:1045-1063 | what a move does: the fallback becomes current and visited, its entry is read and prepared, and the budget is capped to the largest answer it may give |
| RecoverySteps.BeginIs | cmd/api/model_runtime.go:1065-1137 | the loop starts at the model asked for, or at its fallback if its circuit is open or its overhead cannot fit |
| RecoverySteps.RetriesAre | cmd/api/model_runtime.go:1138-1152 | the tries after the first: the model's own number, or one for each further pool candidate, and four at most |
| ModelRecovery.TakeTurn | cmd/api/model_runtime.go:1153-1210 | one pass of the loop up to sending refines the abstract turn |
| RecoverySteps.AdmissionDecides | cmd/api/model_runtime.go:1153-1210 | before sending: when a turn spills, waits in vain, meets a spent day or fails to build its request, and what follows |
| ModelRecovery.ReadAnswer | cmd/api/model_runtime.go:1212-1360 | reading the answer refines the abstract decision between finishing, retrying, shrinking and moving |
| RecoverySteps.AnswerDecides | cmd/api/model_runtime.go:1267-1361 | for every answered turn without a blocked tool call or incompatible tools: it ends at once with the answer if and only if the status is not 401, 403, 404, 408, 413, 429 or at least 500, or no try is left, or the strategy is reject, or nothing recovers it and there is no backoff; otherwise the next turn's model, budget and count, case by case |
| RecoverySteps.BlockedToolDecides | cmd/api/model_runtime.go:1253-1289 | a blocked tool call is answered once by another try, whatever the tries left |
| RecoverySteps.IncompatibleDecides | cmd/api/model_runtime.go:1240-1252 | incompatible tools on a tools profile mean the fallback while there are tries |
| RecoverySteps.NoAnswerDecides | cmd/api/model_runtime.go:1212-1231 | a transport error means the fallback while there are tries, an unreadable answer is the end |
| RecoverySteps.ShrinkIs | cmd/api/model_runtime.go:1307-1325 | a refusal for output tokens cuts the budget to nine tenths of the observed limit or the model's maximum, and counts as recovered if and only if that is less than was asked |
| ModelRecovery.DoModelRequestWithRecovery | cmd/api/model_runtime.go:1138-1361 | the whole loop terminates when the chains of fallbacks it can be led into end, and ends as the abstract run does |
| ModelRecovery.AtMostSixRequests | cmd/api/model_runtime.go:1138-1361 | whatever the answers, at most maxRetries + 2 and never more than six requests are sent |
| ModelRecovery.SendBoundIsReached | cmd/api/model_runtime.go:1138-1361 | a request for the only model of a catalogue, and answers that make it be sent exactly that many times |
| ModelRecovery.ImagesStayConfined | cmd/api/model_runtime.go:1041-1116 | an image goes only to its starting model or, on the vision route, to unvisited pool models, each at most once |
| ModelRecovery.SentBudgetsFit | cmd/api/model_runtime.go:1045-1063 | every request sent respects its model's output cap, and budgets given as max_completion_tokens never grow |
| ModelRecovery.StepLowers | cmd/api/model_runtime.go:1153-1348 | each turn lowers unvisited pool models, length of the fallback chain, attempts left, compatibility retry, lexicographically |
| ModelRecovery.LoopEndsIff | cmd/api/model_runtime.go:1195-1200 | with or without a pool, however the loop is entered, it is bounded over all answers if and only if it cannot move, is on the vision route, or every fallback chain it can be led into ends |
| ModelRecovery.PrepareKeepsCap | cmd/api/model_pool.go:398-420 | pool preparation changes the fallback and strategy but never the output cap |
| TokenBucket.Admission.TryModelAdmission | cmd/api/model_runtime.go:638-667 | the script refines the abstract bucket step, seeing no bucket after the idle deadline |
| TokenBucket.AdmittedIff | cmd/api/model_runtime.go:638-667 | a call is admitted if and only if what the bucket held and what came in since, up to 85% of the limit, pays for it; it then leaves the rest |
| TokenBucket.InstantAdmits | cmd/api/model_runtime.go:638-667 | at one instant a new bucket admits calls as long as they fit into 85% of the limit |
| TokenBucket.CompletionReserve | cmd/api/model_runtime.go:603-623 | what is set aside for the answer is positive and at most 256, whatever the request or the model leaves out |
| TokenBucket.Cost | cmd/api/model_runtime.go:625-636 | a cost is always one that a full bucket can pay |
| TokenBucket.CostMeans | cmd/api/model_runtime.go:586-636 | a cost is the estimate, the overhead of the profile and what is set aside for the answer, between one and 85% of the tighter limit |
| TokenBucket.BucketInvariant | cmd/api/model_runtime.go:638-667 | over any history, even with timestamps going back, tokens stay between empty and full and admitted cost is accounted for |
| TokenBucket.AdmittedCostIsBounded | cmd/api/model_runtime.go:638-667 | admitted cost is at most the capacity plus the refill between the first and the highest timestamp |
| TokenBucket.WaitIsExactIff | cmd/api/model_runtime.go:659-667 | the returned wait admits the retry, and no shorter one does, if and only if the call was not behind the bucket's clock |
| TokenBucket.ExpiryIsInvisible | cmd/api/model_runtime.go:638-667 | under one monotone clock, dropping the key after 120 idle seconds gives every call the same answer as keeping it |
| ContextTrim.CompactTextKeepsTheEnds | cmd/api/model_runtime.go:248-265 | what is left of a long text is exactly its two ends around the mark, or its end, in exactly the bytes allowed |
| ContextTrim.CompactTextFits | cmd/api/model_runtime.go:248-265 | once sent, a compacted text costs at most its budget plus three tokens, its budget if ASCII |
| ContextTrim.CompactMessage | cmd/api/model_runtime.go:267-308 | the loop over parts spends the budget part by part as specified |
| ContextTrim.PartsAreCut | cmd/api/model_runtime.go:279-305 | in a message of parts each text is cut to what the budget leaves after the parts before it as they are in the result: 512 an image, its text a text part, its estimate any other |
| ContextTrim.EnoughKeepsMessage | cmd/api/model_runtime.go:267-308 | a message whose parts fit the budget comes back unchanged |
| ContextTrim.EstimateMeans | cmd/api/model_runtime.go:207-246 | what texts, lists, images, objects, messages and chats are estimated at |
| ContextTrim.CompactionOnlyShortensText | cmd/api/model_runtime.go:267-308 | other fields, the number of parts and every part that is not text are left alone |
| ContextTrim.SelectMessages | cmd/api/model_runtime.go:322-344 | the walk from newest to oldest keeps the newest message, whatever fits after it, and the leading instruction |
| ContextTrim.TrimChatContext | cmd/api/model_runtime.go:310-368 | trims only over the target, fails only on malformed JSON, and reports the estimates of what came in and went out |
| ContextTrim.TrimmingSelectsInOrder | cmd/api/model_runtime.go:321-366 | the result is an in-order selection; newest and leading instruction survive, only they can be compacted, and whatever is missing did not fit |
| ContextTrim.TrimmingFits | cmd/api/model_runtime.go:310-368 | for every target, with plain newest and leading messages the result exceeds the larger of the target and 352 by at most 45 tokens over the role's, 40 if ASCII, and a target from 352 up only by squeezing in an instruction with less than 64 tokens left |
| ContextTrim.OvershootIff | cmd/api/model_runtime.go:310-368 | it overshoots if and only if the selection does and cutting the newest message does not bring it back, from 352 up only with the leading instruction squeezed in; for ASCII ends a sum of the messages' own estimates then decides |
| ContextTrim.TheBoundIsReached | cmd/api/model_runtime.go:310-368 | a chat of plain ASCII messages that for every target up to 352 ends 43 tokens over 352 |
| Utf8.CoerceKeepsWellFormed | cmd/api/model_runtime.go:347-352 | writing well-formed text to JSON and reading it back changes nothing |
| Utf8.HeadOfWellFormed | cmd/api/model_runtime.go:264 | cutting well-formed text leaves at most three stray bytes before the cut |
| Utf8.TailOfWellFormed | cmd/api/model_runtime.go:264 | and at most three after it |
| Utf8Encoding.WellFormedIff | cmd/api/model_runtime.go:347-352 | bytes are well-formed if and only if they encode a sequence of characters (RFC 3629, section 3) |
| Utf8Encoding.TrimmingAgrees | cmd/api/model_runtime.go:502-520 | trimming white space off bytes is trimming it off the characters they encode |
| Utf8Encoding.ByteLengthIsEncoded | cmd/api/smart_tools.go:256-259 | the length the calculator bounds is the length of the encoding |
| StreamPeek.SseEventHasVisibleContent | cmd/api/model_runtime.go:502-520 | true exactly when some choice carries non-blank delta or message content |
| StreamEvents.EventShows | cmd/api/model_runtime.go:502-520 | an event is visible if and only if it is an object with a list of choices of which one shows something |
| StreamEvents.EventPayload | cmd/api/model_runtime.go:539-541 | a data line carries what follows its mark, without the blanks around it |
| StreamEvents.OtherLinesAreSilent | cmd/api/model_runtime.go:539-556 | any other line says nothing |
| StreamEvents.EventMeans | cmd/api/model_runtime.go:541-556 | the end mark and visible content commit, only an event without either can fail |
| StreamPeek.InspectEventStream | cmd/api/model_runtime.go:532-572 | a stream that passes reads byte for byte and ends as before; otherwise it is closed |
| StreamPeek.InspectHermesSoftFailure | cmd/api/model_runtime.go:527-584 | the same for every kind of response, and nothing is touched unless it is a success of a recognised kind |
| StreamEvents.JsonFailureIff | cmd/api/model_runtime.go:570-583 | a body read as JSON is reported if and only if its first two MiB do not break off and carry a failure, with that text and status |
| StreamPeek.OutcomeByLines | cmd/api/model_runtime.go:535-570 | reading line by line is the same as judging the split lines |
| StreamPeek.LinesJoin | cmd/api/model_runtime.go:536-537 | the lines read are the body, nothing lost or added |
| StreamPeek.FailureIffNothingShown | cmd/api/model_runtime.go:535-570 | a failure is reported if and only if an event within 512 KiB carries it and no earlier line showed anything or ended the stream |
| StreamPeek.FailureHidesNothing | cmd/api/model_runtime.go:522-526 | so no visible content precedes a reported failure |
| StreamPeek.SilenceIsVerdict | cmd/api/model_runtime.go:562-572 | when nothing is decided the stream passes unless it breaks off within the limit |
| PoolChoice.AllowanceOpensUp | cmd/api/model_pool.go:124-138 | the daily allowance is positive, never shrinks through the day and releases the whole capacity by its end, never more |
| PoolScores.AllowanceMeans | cmd/api/model_pool.go:124-138 | the allowance is the day's fraction of nine tenths of the limit, rounded up, plus a burst of one to three, and no more than all of it |
| PoolChoice.DailyCounter.TryModelDailyAdmission | cmd/api/model_runtime.go:691-714 | a refused attempt consumes nothing, an admitted one exactly one |
| PoolChoice.DayAdmitsCapacity | cmd/api/model_runtime.go:669-714 | a day admits every attempt up to the capacity and none beyond |
| PoolChoice.ScoreIsPositiveIff | cmd/api/model_pool.go:233-272 | nothing but a full day takes a model out of the pool |
| PoolScores.ScoreMeans | cmd/api/model_pool.go:233-272 | a score is weight and quality times the rate of success times the latency factor times what is left of the day, a twentieth of that ahead of its pace; a full day scores nothing |
| PoolChoice.BetterModelsScoreMore | cmd/api/model_pool.go:233-272 | a model at least as good in weight, quality, record, latency and use never scores or weighs less |
| PoolChoice.RankedIsASort | cmd/api/model_pool.go:347-352 | ranking keeps exactly the candidates and orders them by score and then name |
| PoolChoice.Walk | cmd/api/model_pool.go:364-371 | the walk over cumulative weights lands in the band of the candidate it picks |
| PoolChoice.LandsExactlyOnce | cmd/api/model_pool.go:364-371 | every offset lies in exactly one candidate's band |
| PoolChoice.SelectFreePoolModel | cmd/api/model_pool.go:285-383 | picks the best of the field, or by weight and counter; nothing only when the field is empty |
| PoolScores.FieldWeighs | cmd/api/model_pool.go:294-343 | every candidate carries its model's score and weighs ten times that, rounded, between 1 and 100000 |
| PoolChoice.FieldIsUsable | cmd/api/model_pool.go:294-343 | every candidate of the field is not excluded, not cut off, not full, and ahead of its pace only if all usable models are |
| PoolChoice.HashUndone | cmd/api/model_pool.go:274-283 | the hash of the counter can be undone |
| PoolChoice.SharesFollowWeights | cmd/api/model_pool.go:274-283 | over any full cycle of 2^64 counters a candidate of weight w out of T is picked between w*floor(2^64/T) and w*ceil(2^64/T) times |
| PoolScores.SharesFollowScores | cmd/api/model_pool.go:274-371 | so over any full cycle candidates are picked in proportion to their scores, to within the rounding of a weight |
| JsonText.RemoveGeneratedJSONTrailingCommas | cmd/api/file_artifacts.go:200-236 | the loop over bytes refines the recursive repair |
| JsonText.RepairRoundTrip | cmd/api/file_artifacts.go:200-236 | any printed JSON value with optional trailing commas comes back as the same text without them; valid JSON comes back unchanged |
| JsonText.TrailingCommaIsDropped | cmd/api/file_artifacts.go:207-215 | in front of any closing bracket exactly the comma goes |
| JsonText.RepairIsNotIdempotent | cmd/api/file_artifacts.go:200-236 | a malformed text that a second repair changes again |
| JsonText.RepairIsIdempotentIff | cmd/api/file_artifacts.go:200-236 | for every text, a second repair changes nothing if and only if no comma outside a string has another on the way to a closing bracket |
| JsonText.ExtractGeneratedJSONCandidate | cmd/api/file_artifacts.go:238-285 | the depth-counting loop refines the recursive scan |
| JsonText.ScanValue | cmd/api/file_artifacts.go:250-283 | scanning a printed value restores depth and string state |
| JsonText.ExtractsThePrintedValue | cmd/api/file_artifacts.go:238-285 | a printed object or array is cut out exactly, whatever follows it and whatever bracket-free text precedes it |
| JsonText.ExtractThenRepair | cmd/api/file_artifacts.go:177-198 | extracting and then repairing recovers the value's text without its trailing commas |
| Arithmetic.EvalExpression | cmd/api/smart_tools.go:255-269 | the calculator returns what the grammar's parser returns of the trimmed input |
| Arithmetic.ExpressionParser.Expression | cmd/api/smart_tools.go:275-297 | refines the grammar's sum level and on success advances the cursor |
| Arithmetic.ExpressionParser.Term | cmd/api/smart_tools.go:298-329 | refines the term level, with both zero errors |
| Arithmetic.ExpressionParser.Power | cmd/api/smart_tools.go:330-345 | refines the right-associative power level |
| Arithmetic.ExpressionParser.Unary | cmd/api/smart_tools.go:346-361 | refines the sign level, which binds tighter than the power |
| Arithmetic.ExpressionParser.Primary | cmd/api/smart_tools.go:362-399 | refines parentheses and number scanning |
| Arithmetic.SumParses | cmd/api/smart_tools.go:275-399 | a rendered derivation parses to its own value or first error and stops where it ends |
| Arithmetic.EvaluatesRendering | cmd/api/smart_tools.go:255-269 | so the calculator evaluates every rendered derivation, with any spacing |
| Arithmetic.AcceptsExactlyTheGrammar | cmd/api/smart_tools.go:255-269 | an input has a value if and only if it spells a derivation with that finite value within the length limit |
| ArithmeticErrors.BrokenIsReported | cmd/api/smart_tools.go:255-399 | text that goes wrong where an operand is due, or leaves a parenthesis open, is reported with that problem, however deep in an expression |
| ArithmeticErrors.LeftoverIsInvalid | cmd/api/smart_tools.go:255-269 | an expression followed by anything that cannot continue it is invalid |
| ArithmeticErrors.NothingIsReported | cmd/api/smart_tools.go:255-259 | blank text and text over 256 bytes is refused unread |
| Arithmetic.ParenthesesKeepValue | cmd/api/smart_tools.go:275-399 | adding parentheses keeps an expression tree's value |
| Arithmetic.ParenthesesAreMinimal | cmd/api/smart_tools.go:275-399 | they are just what precedence needs: the text is a derivation of that very tree, and none has fewer |
| Arithmetic.PrintedTreesEvaluate | cmd/api/smart_tools.go:255-399 | every expression tree, printed that way, evaluates to its value or its zero-division error |
| GuestRate.GuestLimiter.EnforceGuestRate | cmd/api/guest.go:235-257 | the enforcing script refines the abstract step |
| GuestRate.GuestLimiter.GuestRateRetryAfter | cmd/api/guest.go:215-234 | the peek refines the abstract peek and changes nothing |
| GuestRate.EnforcementMeans | cmd/api/guest.go:235-257 | what a request is told after any history: the rest of the gap, or the rest of the counter's hour, or admission; and what an admission writes |
| GuestRate.AdmissionsKeepTheGap | cmd/api/guest.go:235-257 | any two admitted requests are at least the minimum gap apart |
| GuestRate.AnHourAdmitsLessThanTwice | cmd/api/guest.go:235-257 | any half-open hour admits less than twice the hourly limit |
| GuestRate.AnHourAdmitsAtMost | cmd/api/guest.go:235-257 | nor more than fit into it with the minimum gap between them |
| GuestRate.TheHourBoundIsReached | cmd/api/guest.go:235-257 | for every policy, requests of which just as many are admitted in an hour as the two bounds allow |
| GuestRate.PeekAgreesWithEnforcement | cmd/api/guest.go:215-257 | the peek is zero exactly when enforcement would admit; waiting what it says admits, and nothing shorter does |

## Left out

- HTTP handlers, routing, sessions, identity providers, mail, encryption, file storage and document extraction: I/O and library calls.
- Web research, prompt building, language detection, skill and profile choice: keyword tables and heuristics without a crisp specification.
- Chat-run status updates: unguarded writes, so few whole-run invariants hold.
- Clearing a user's quota state key by key: the scan and delete is one step here; interleaved with a reserve or a release it could drop a counter whose reservations it has yet to reach.
- Failing Redis or database calls (the code then fails open), clock skew between replicas, and float rounding, including how the 0.90, 0.85 and 0.78 factors round.
- Queue snapshots, the lease-to-principal hash (written, never read), the polling loop with its interval and the goroutines around a ticket, and the per-principal limit setting, which the code never reads: it is always one.
- The audit log, and contention between concurrent redemptions: transactions are serial here.
- JSON encoding of chat bodies beyond what it does to strings, and `stripGeneratedFence`, `json.Unmarshal` and re-indentation around the JSON repair.
- Recognition of provider failures and the JSON decoder in the stream peek: parameters of the model.
- Recording model health, the Pacific calendar day and its daylight-saving changes: each day's counter and progress are given.
- Free-pool priorities: the source never fills them in, so every candidate carries the same one.
- The mode and credit fields of a quota decision, which are copied values, and the pending-user and guest variants of choosing its policy.
- ModelRecovery.DoModelRequestWithRecovery: does not model the message contents, headers, timing or the length of waits; what a context trim achieves is an arbitrary answer, and the trimmer itself is in ContextTrim; an error while setting the reasoning effort ends a turn like a failed wait.
- ContextTrim.TrimmingFits: is about plain newest and leading messages whose fields besides the text cost at most 21 tokens, as roles do; a message made of parts has no such bound, since each image counts 512 tokens and is never dropped.
- QuotaLimits.SoleLimitHoldsIff: is about a principal with one limit; next to others a limit that slides can be kept by a smaller one that stands still, and how far depends on how their windows overlap.
- GuestRate.AnHourAdmitsLessThanTwice: one guest and one unchanging policy; changing the policy between requests is not modelled.
