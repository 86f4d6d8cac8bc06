# MERCH loyalty backend: a verified model

A Dafny model of the points ledger, the loyalty rules, the wallet outbox and the smaller protocols
of the MERCH card backend, with proofs of what they promise together. `dafny verify dfyconfig.toml`
checks the whole project.

## What is modelled

**The ledger.** Customers carry a cached balance, receipts a status and an idempotency key, and the
ledger is append-only. `Tables` states Commit, Refund, Adjust, Enroll and the customer statements as
functions on the three tables. `Service` is the program's own form, on one connection (the SQLite
deployment): a `Store` whose rows change in place, a `Tx` whose statements may each break and whose
rollback restores what Begin found, and a `LoyaltyService`; Commit, Refund, Adjust, Enroll, Quote and
the customer statements are proved equal to the functions that specify them. `CallLaws` says in plain
terms of the tables what each call answers and leaves, input by input. `LedgerLaws` proves the
invariant of the tables, `SerialLaws` the laws over whole serial runs: replay, the life of a receipt,
conservation, quote and commit, one phone and one card.

**The same calls interleaved.** `Interleaved` takes each call apart into the steps a read-committed
database with row locks can interleave: checks, read of the receipt, row lock and re-read, publication
of all writes (where the receipts primary key is checked) or abort; block and delete statements run in
between. Safety holds in every reachable state. A run is serial exactly when each published refund finds
its receipt as it read it; it always does when no two refunds of one receipt overlap, and need not
otherwise, because a refund reads the receipt's status before it takes the row lock. Calls that end
without publishing, and commits that lose the race for a receipt id, have their answers proved too,
and a call that nothing disturbs does what its transaction does run alone.

**The rules.** `Rules` has the arithmetic of the settings, the maximum, the check, the earning and the
quote over unbounded integers; `RulesLaws` proves that the separate computations agree; `Machine64`
repeats them wrapped to 64 bits and proves that nothing wraps within the stated bounds.

**The outbox.** `Outbox` has the job table and the drain as objects, proved against functions on the
job list, and the progress measure of repeated drains. `Freshness` interleaves producers and drain
step by step and proves exactly when a run forgets a stale wallet pass. There are two ways, each shown
reachable from every quiet state: a balance changes behind the drain's back and its Enqueue counts
before the completion, or an update reports success and shows nothing. `UpdateWallet` does the latter
whenever a provider's push or patch fails, since it logs the error and returns none
(`internal/wallet/wallet.go:52-59`), and so does a queue without an updater. The drain's own steps,
left alone, are proved to be the drain of `Outbox`.

**Smaller protocols.** `Polling` (pass updates with a tag cut to seconds), `Phone` (canonical phones
and the form script), `Placeholders` (SQL placeholder numbering), `Calendar` (store days and the shift
list), `Decimal` (decimal text).

Where code and documentation differ the model follows the code:

- `docs/api.md:70` promises the original result for a repeated receipt id. The code checks the card
  first (`internal/loyalty/service.go:212-218`), so a replay for a card blocked or deleted meanwhile is
  refused (`SerialLaws.ReplayAnyLater` says exactly when). A commit that reads the receipts before
  another one publishes its id is never answered with the original result: it gets the refusal of the
  row it re-reads, or else the database's key violation (`Interleaved.LosingCommitAnswers`).
- `docs/api.md:281` promises the same result for a repeated refund. That holds for refunds that do not
  overlap (`SerialLaws.RefundReplayAnyLater`); overlapping ones can both post
  (`Interleaved.OverlappingRefundsDiverge`).
- `docs/api.md:206` defines `can_redeem` as points at or above the minimum. `RulesLaws.RedeemableForSomeAmount`
  says what the flag leaves out: positive points and a positive share.
- `docs/api.md:44` leaves out the minimum receipt and the clamp of the base at zero.
- The form script and the normaliser read ten bare digits that start with 7 or 8 differently:
  `Phone.FormAgreesExactly`.

## Model

| member | source | states |
|---|---|---|
| Service.LoyaltyService.Commit | internal/loyalty/service.go:205-304 | does and answers what the Commit function says unless a statement breaks, and then changes nothing; a customer is enqueued for a fresh success and only then |
| Service.LoyaltyService.Refund | internal/loyalty/service.go:306-367 | the same for Refund |
| Service.LoyaltyService.Adjust | internal/loyalty/service.go:369-405 | the same for Adjust |
| Service.LoyaltyService.Enroll | internal/loyalty/service.go:70-133 | does and answers what the Enroll function says, and keeps the tables' invariant |
| Service.LoyaltyService.Quote | internal/loyalty/service.go:187-203 | answers the quote of the stored balance under the stored settings, with the code's order of refusals |
| Service.LoyaltyService.Lookup | internal/loyalty/service.go:168-185 | answers the resolved usable card or the refusal; given points and a share, the flag holds if and only if some receipt and some positive request get an allowed quote |
| RulesLaws.RedemptionAllowedForSomeReceipt | internal/loyalty/service.go:180-184 | an allowed quote for a positive request exists if and only if the flag holds, points are positive and the share is positive |
| Service.LoyaltyService.ResolveCustomer | internal/loyalty/service.go:135-158 | barcode first, then id; the answer is determined by the unique columns |
| Service.Tx.CommitBody | internal/loyalty/service.go:225-296 | statement by statement it builds the tables CommitTx describes; any failing statement surfaces as its error |
| Service.Tx.RefundBody | internal/loyalty/service.go:311-359 | the same for RefundTx: the stepwise balance is the clamped reversal plus the returned points |
| Service.Tx.AdjustBody | internal/loyalty/service.go:380-399 | the same for AdjustTx |
| Service.Tx.InsertReceipt | internal/store/tx.go:41-48 | inserts, or reports a violation exactly when the id is taken |
| Service.Store.InTx | internal/store/tx.go:16-26 | all writes of the body, or none |
| Service.Store.CreateCustomer | internal/store/customers.go:59-66 | inserts with zero points exactly when id, barcode and non-empty phone are free; keeps the tables' invariant |
| Service.Store.SetCustomerBlocked | internal/store/customers.go:68-79 | changes the flag of one row and keeps the invariant |
| Service.Store.SetCustomerDeleted | internal/store/customers.go:81-96 | changes the deletion time of one row and keeps the invariant |
| Service.Store.PutSettings | internal/store/customers.go:140-154 | upserts all pairs in whatever order, or none, exactly when no statement breaks |
| CallLaws.ResolveExactly | internal/loyalty/service.go:135-158 | a code names the bearer of its barcode, else the customer with its id, else nobody; a blank one is invalid |
| CallLaws.CommitRefusedBefore | internal/loyalty/service.go:205-218 | which request is refused before the transaction with which code, deletion before blocking, and that it changes nothing |
| CallLaws.CommitSucceedsExactly | internal/loyalty/service.go:242-252 | on a usable card a fresh request succeeds if and only if it redeems nothing, or from the minimum to the maximum; equivalently by inequalities on points, rate and share as stored |
| CallLaws.CommitRefusalCodes | internal/loyalty/rules.go:162-182 | a refused redemption gets the code of the first failed test, each stated as an inequality without rounding |
| CallLaws.CommitEffects | internal/loyalty/service.go:253-294 | the answer, the one customer row, the one receipt and the ledger rows of a successful commit, and that nothing else changes |
| CallLaws.PlainPurchaseAddsEarned | internal/loyalty/service.go:253-257 | a purchase without redemption is never refused on a usable card, and the new balance is the old one plus the earned points |
| CallLaws.QuoteMaximumIsAllowed | internal/loyalty/rules.go:197-219 | of any quote, allowed or not: a positive request is allowed if and only if it lies between the minimum and that quote's maximum, and a positive maximum is itself allowed |
| CallLaws.QuoteFields | internal/loyalty/rules.go:197-219 | every field of a quote by plain arithmetic; a refused one proposes no redemption, no earning and nothing payable |
| CallLaws.QuoteCallExactly | internal/loyalty/service.go:187-203 | which quote call is refused outright with which code, and the balance the others quote from |
| CallLaws.RefundEffects | internal/loyalty/service.go:327-357 | the answered points, the stored balance and the receipt's record are one number: the balance found, less the earned points as far as it goes, plus the redeemed ones; the rows posted, and that nothing else changes |
| CallLaws.RefundAnswersOtherwise | internal/loyalty/service.go:306-326 | an unparsable or unknown id is invalid and a refunded receipt answers its recorded balance; neither changes anything |
| CallLaws.AdjustExactly | internal/loyalty/service.go:369-404 | every answer of an adjust; it succeeds if and only if the balance stays non-negative, and answers the row it stores |
| CallLaws.KnownCookieIsAnswered | internal/loyalty/service.go:71-82 | a known cookie answers its card or says it was deleted |
| CallLaws.BadFormIsRefused | internal/loyalty/service.go:83-87 | a blank name or a phone without valid normal form is refused |
| CallLaws.KnownPhoneIsAnswered | internal/loyalty/service.go:88-99 | a phone some card bears finds it or says it was deleted |
| CallLaws.NewPhoneIsEnrolled | internal/loyalty/service.go:101-133 | any other valid form gets the new row, field by field, unless the drawn id or barcode is taken |
| CallLaws.BlockingDecides | internal/store/customers.go:68-79 | after blocking a purchase is refused as blocked, after unblocking it goes through; a deleted card stays refused |
| CallLaws.DeletingDecides | internal/store/customers.go:81-96 | after deleting it is refused as deleted, after restoring the blocked flag decides |
| CallLaws.ShiftShowsTheCommit | internal/store/receipts.go:34-64 | the shift list shows a purchase as it was answered |
| CallLaws.ShiftShowsTheRefund | internal/store/receipts.go:32-41 | and a refunded one with the balance the refund answered, all else unchanged |
| LedgerLaws.CommitKeepsConsistent | internal/loyalty/service.go:253-286 | a published commit keeps balance = ledger sum, every ledger cut at or above zero, one redeem and one earn row per receipt, unique keys |
| LedgerLaws.RefundKeepsConsistent | internal/loyalty/service.go:332-356 | the same for a refund published from any copy of its receipt, stale ones included |
| LedgerLaws.AdjustKeepsConsistent | internal/loyalty/service.go:385-395 | the same for an adjust |
| LedgerLaws.CustomerStatementsKeepConsistent | internal/store/customers.go:59-96 | the same for new, blocked and deleted customers |
| LedgerLaws.RunKeepsConsistent | internal/loyalty/service.go:205-405 | the invariant holds after every serial run, and cards and sales are never rewritten |
| SerialLaws.ResolutionIsStable | internal/loyalty/service.go:135-158 | a scanned code keeps naming the same customer in every later state |
| SerialLaws.ReplayAnyLater | internal/loyalty/service.go:226-241 | after any run and under any settings a repeated commit changes nothing, and returns the original ids, points, earn and redeem exactly when the card is usable |
| SerialLaws.ReuseIsDecidedByTheReceipt | internal/loyalty/service.go:226-241 | under a used receipt id nothing changes; it succeeds if and only if customer, amount and redemption are the original ones |
| SerialLaws.QuotePredictsCommit | internal/loyalty/service.go:187-294 | a commit under a fresh id succeeds if and only if the quote is allowed, with its numbers; a refusal carries the quote's code |
| SerialLaws.StageAdvancesOneAtATime | internal/loyalty/service.go:253-357 | absent, committed, refunded: one stage at a time, moved only by the receipt's own commit or refund |
| SerialLaws.StageNeverFalls | internal/loyalty/service.go:253-357 | no run takes a receipt back a stage |
| SerialLaws.RefundReplayAnyLater | internal/loyalty/service.go:319-326 | a repeated refund, after any run, returns the first refund's points and changes nothing |
| SerialLaws.RefundRestoresBalance | internal/loyalty/service.go:330-357 | refunding right after the commit restores every balance exactly |
| SerialLaws.ReceiptsConserve | internal/loyalty/service.go:256-286 | over all serial runs a committed receipt's rows sum to earn minus redeem, a refunded one's to max(0, earn - balance found) |
| SerialLaws.RefundRemovesNetEffect | internal/loyalty/service.go:332-353 | a refund leaves no net effect if and only if the balance it finds is at least the earned points |
| SerialLaws.BalanceIsConserved | internal/loyalty/service.go:253-395 | a balance is the customer's adjusts plus live receipts plus refund shortfalls |
| SerialLaws.EnrollKeepsConsistent | internal/loyalty/service.go:70-133 | only a created card changes the tables; the answer is a stored card, and without a cookie it bears the normalised phone |
| SerialLaws.SameDigitsSameCard | internal/loyalty/service.go:85-101 | enrolling again with the same ten digits in any spelling, after any run, finds the first card or says it was deleted |
| Interleaved.StepKeepsSafe | internal/store/tx.go:16-35 | every step of the interleaved machine keeps the tables' invariant, the locks' owners and the held rows' freshness |
| Interleaved.LedgerExplainsBalances | internal/loyalty/service.go:253-395 | in every interleaving each balance is its ledger sum and no cut of the ledger, even inside a transaction, is negative |
| Interleaved.CommitAtMostOnce | internal/loyalty/service.go:226-286 | in every interleaving a receipt id is published once at most, with one redeem and one earn row at most, carrying the stored amounts |
| Interleaved.PublishedWhileUsable | internal/loyalty/service.go:242-252 | at the instant a commit publishes, its customer is neither blocked nor deleted and can pay the redemption |
| Interleaved.OnePhoneOneCard | migrations/00001_init.sql:36-38 | in every interleaving stored phones are valid, and a phone once stored names one customer for good |
| Interleaved.PublicationIsSerial | internal/store/store.go:121-135 | at its publication a transaction does and answers what it would alone, exactly unless it is a refund whose receipt is no longer as it read it |
| Interleaved.Serialisable | internal/store/store.go:121-135 | when each published refund finds its receipt as it read it, the tables are those of the published transactions run one at a time in publication order; aborted ones leave nothing |
| Interleaved.AnswersSerialisableExactly | internal/loyalty/service.go:225-399 | every published transaction answers what it answers in that serial run if and only if each published refund finds its receipt as it read it |
| Interleaved.NoOverlapMeansAsRead | internal/loyalty/service.go:311-357 | each published refund does, whenever no two refunds of one receipt overlap |
| Interleaved.UnpublishedAnswersExactly | internal/loyalty/service.go:226-252 | a call that ends without publishing answers what it would alone at that moment, if and only if it is not a commit whose receipt id was stored after its read |
| Interleaved.LosingCommitAnswers | internal/loyalty/service.go:242-270 | whatever else runs, a commit that lost its receipt id is answered with the refusal of the re-read row if there is one, else with the key violation; never with success |
| Interleaved.RefundIsSerialUnlessStale | internal/loyalty/service.go:311-357 | a refund posts what a lone refund would if and only if its receipt is still committed or it has nothing to post |
| Interleaved.OverlappingRefundsDiverge | internal/loyalty/service.go:312-331 | from every quiet state, two overlapping refunds of a receipt that redeemed points leave a ledger longer than their serial run's |
| Interleaved.PublishedAnswersAreStored | internal/loyalty/service.go:253-396 | what any publication answers is the balance it stores, computed from the row it holds, and the receipt's record of it; stale refunds included |
| Interleaved.AloneIsPerform | internal/store/tx.go:16-35 | a call nothing disturbs ends, and does and answers what its transaction does run alone |
| RulesLaws.AcceptedExactlyUpToMax | internal/loyalty/rules.go:146-182 | for a positive request the check accepts if and only if min <= request <= maximum |
| RulesLaws.RedeemableForSomeAmount | internal/loyalty/service.go:180-184 | some receipt amount makes the maximum positive if and only if the flag holds, points are positive and the share is positive |
| RulesLaws.EarnNonNegative | internal/loyalty/rules.go:132-144 | earned points are never negative, whatever the settings |
| RulesLaws.QuotTruncates | internal/loyalty/rules.go:143-153 | the division rounds toward zero for either sign |
| RulesLaws.AllowedQuoteAddsUp | internal/loyalty/rules.go:197-219 | payable plus redeemed roubles is the amount, the redemption is within the share and the maximum, neither zero clamp bites |
| RulesLaws.SplittingNeverEarnsMore | internal/loyalty/rules.go:132-144 | any split earns at most the whole, and at least the whole minus (n - 1) when every part reaches the minimum |
| RulesLaws.EarnMonotoneInAmount | internal/loyalty/rules.go:132-144 | a larger amount never earns less |
| RulesLaws.StoredNumberIsReadBack | internal/loyalty/rules.go:68-109 | a number stored as text is parsed back into its own field and no other |
| RulesLaws.UnreadableNumberIsDefault | internal/loyalty/rules.go:55-109 | a number that is missing or does not parse is its documented default |
| RulesLaws.TextsAreAsStored | internal/loyalty/rules.go:73-78 | a text is as stored unless missing or empty |
| RulesLaws.ExpiryIsAsStored | internal/loyalty/rules.go:91-99 | no expiry when missing, blank or null; else its number, or 0 if it does not parse |
| Machine64.NothingWraps | internal/loyalty/rules.go:132-219 | with inputs below 2^31 and any non-negative 64-bit request, the wrapped quote and commit balance equal the unbounded ones |
| Machine64.CheckFits | internal/loyalty/rules.go:162-182 | the wrapped check equals the unbounded one because the request is compared with the points before it is multiplied |
| Machine64.AdjustFitsExactly | internal/loyalty/service.go:385-388 | an adjust computes the unbounded balance if and only if it fits 64 bits; beyond, the sum wraps below zero and is refused |
| Outbox.JobStore.EnqueueWalletJob | internal/store/apple_jobs.go:79-95 | one more pending job, unless the customer has one |
| Outbox.JobStore.ClaimWalletJobs | internal/store/apple_jobs.go:97-120 | the oldest pending jobs, oldest first, up to the limit (20 when it is not positive) |
| Outbox.JobStore.CompleteWalletJobsForCustomer | internal/store/apple_jobs.go:122-126 | every job of the customer is processed, the others are untouched |
| Outbox.JobStore.FailWalletJob | internal/store/apple_jobs.go:128-131 | that job has one more attempt and the error, every other job is untouched, and every customer with a pending job still has one |
| Outbox.FailedJobIsClaimedAgain | internal/store/apple_jobs.go:97-131 | after a failure a claim of any size is of the same jobs in the same order |
| Outbox.Queue.Enqueue | internal/jobs/queue.go:30-42 | stores and wakes, or does neither when the write fails |
| Outbox.Queue.UpdateWallet | internal/wallet/wallet.go:33-66 | shows the stored balance, or reports success and shows nothing new because a provider failed, or fails |
| Outbox.Queue.Drain | internal/jobs/queue.go:59-82 | settles all jobs of the claimed customers whose update does not fail, marks one job of each that fails, and exactly the passes whose update shows have the stored balance |
| Outbox.ClaimReachesOthers | internal/store/apple_jobs.go:97-120 | a claim is full or reaches every pending job of the customers that do not fail |
| Outbox.DrainsProgress | internal/jobs/queue.go:59-82 | with f < 50 pending jobs of failing customers, k drains leave at most n - k(50 - f) of the others' n |
| Outbox.OthersStrictlyDecrease | internal/jobs/queue.go:59-82 | each drain leaves strictly fewer of the others' jobs until none is left |
| Outbox.DrainsEmptyTheQueue | internal/jobs/queue.go:59-82 | when updates succeed, k drains leave at most max(0, n - 50k) of n pending jobs |
| Freshness.StepKeepsFreshExactly | internal/jobs/queue.go:30-82 | every step of producers and drain keeps it that a stale pass has a pending job or an Enqueue still to run, except a completion behind a stale pass with none in flight |
| Freshness.NoStalePassForgotten | internal/jobs/queue.go:30-82 | over every interleaving, failed and silent updates and coalescing included, no stale pass is forgotten at any point if and only if each completion has an Enqueue in flight, or follows an update that showed with no other balance set since the read, or a silent one behind a current pass |
| Freshness.UndisturbedRunsSettle | internal/jobs/queue.go:59-82 | the schedule alone suffices: each completed update showed, and each change since the read has its Enqueue in flight at the completion |
| Freshness.SettledMeansShown | internal/jobs/queue.go:59-82 | under that condition, once nothing is pending or owed every pass shows the stored balance |
| Freshness.CountBeforeCompletionLoses | internal/store/apple_jobs.go:79-126 | after any run, a change between an update and its completion is forgotten if its Enqueue counts first, unless the balance stays the same, and never if the completion runs first |
| Freshness.ChangeInWindowIsLost | internal/store/apple_jobs.go:79-126 | from every quiet state such a run exists: the second change is forgotten if and only if it differs from the balance shown |
| Freshness.SilentUpdateIsLost | internal/wallet/wallet.go:48-63 | from every quiet state, a change whose update shows nothing and reports success is forgotten if and only if it changed the balance |
| Freshness.StepsAreTheDrain | internal/jobs/queue.go:59-82 | the machine's drain steps, left alone, settle the jobs and passes as Queue.Drain does, from a claim of 50 |
| Freshness.EnqueueStepsEnqueue | internal/store/apple_jobs.go:79-95 | the two statements of an Enqueue, left alone, are the store's method |
| Polling.PassServer.ListUpdatedSerials | internal/store/apple_jobs.go:46-77 | exactly the registered serials changed after the time, once each, oldest first, with the newest time |
| Polling.PassServer.AppleUpdated | internal/httpapi/apple.go:69-97 | no content for another pass type; else the response to the tag as number, RFC 3339 text or nothing: that list and its newest time in whole seconds, or no content |
| Polling.TagIsReadBack | internal/httpapi/apple.go:76-83 | the tag handed out is read back as its second; other text is read as a time or as none |
| Polling.PollingLosesNothing | internal/httpapi/apple.go:76-96 | when every update's time is after the start of the tag's second, every response carries each registered serial updated since the previous poll |
| Polling.IncreasingIsTimely | internal/httpapi/apple.go:76-96 | times that strictly increase in publication order are such |
| Polling.ResentIsOfTheTagsSecond | internal/store/apple_jobs.go:46-77 | whatever the order of times, a serial sent again unchanged was updated within the second the tag names |
| Polling.UpdateIsSentExactly | internal/httpapi/apple.go:76-96 | after any run, an update right before a poll is sent to a device with a tag if and only if its time is after the start of the tag's second |
| Polling.LateUpdateIsLost | internal/store/tx.go:56-59 | two passes published out of time order with a poll between: the later publication is sent if and only if both times lie in one second |
| Phone.NormalizePhone | internal/loyalty/service.go:436-454 | the loop computes the canonical form of the kept digits |
| Phone.NormalizeIsIdempotent | internal/loyalty/service.go:436-454 | normalising twice is normalising once, for every text |
| Phone.ValidExactlyWithTenDigits | internal/loyalty/service.go:424-454 | an ASCII text normalises to a valid phone if and only if it holds ten national digits, and then to +7 and them; otherwise to a plus and its digits, or to nothing |
| Phone.SamePhoneExactlyWithSameDigits | internal/loyalty/service.go:424-454 | two ASCII texts give the same valid phone if and only if their ten digits agree |
| Phone.FormatPhone | web/templates/enroll.gohtml:40-50 | the script with its early returns fills the groups 3-3-2-2, writing no separator before an empty group |
| Phone.FullNumberIsFormatted | web/templates/enroll.gohtml:40-50 | ten digits are written as +7 (123) 456-78-90 |
| Phone.FormAgreesExactly | web/templates/enroll.gohtml:35-39 | the script takes the national digits the normaliser takes, if and only if it is not ten bare digits starting with 7 or 8 |
| Phone.ReadsBackFormattedPhone | web/templates/enroll.gohtml:35-50 | the normaliser reads the formatted text back as +7 and its ten digits; it is valid with nine or ten digits only, and nine gain a 7 |
| Phone.FormatIsIdempotent | web/templates/enroll.gohtml:35-50 | formatting a formatted text changes nothing |
| Placeholders.Q | internal/store/store.go:103-119 | rewrites for Postgres as the recursive numbering says, and nothing for SQLite |
| Placeholders.NumbersCountUp | internal/store/store.go:103-119 | the placeholders are numbered 1 to n left to right |
| Placeholders.ErasingGivesBackExactly | internal/store/store.go:103-119 | erasing the numbers gives the query back if and only if it has no dollar sign and no digit right after a question mark |
| Calendar.DaysTile | internal/store/receipts.go:9-17 | every instant lies in its own day only, each day starts where the last one ends, at midnight of UTC+3 |
| Calendar.ListStoreReceipts | internal/store/receipts.go:34-64 | exactly the store's receipts in the interval, newest first, refunded ones with the balance after the refund |
| Calendar.OrderDeterminesList | internal/store/receipts.go:49 | two newest-first lists of the same rows are equal, so the query's answer is determined |
| Calendar.DayListsTile | internal/store/receipts.go:13-64 | consecutive day lists, newest day first, concatenate to the list of the whole span |
| Decimal.AtoiOfFormatInt | internal/loyalty/rules.go:103-109 | formatting and reading back is the identity on every 64-bit integer |
| Decimal.AtoiOfDigits | internal/loyalty/rules.go:103-109 | digits read as their value under either sign, as far as 64 bits hold it |
| Decimal.TrimSpaceCuts | internal/loyalty/rules.go:103-109 | trimming cuts off exactly the spaces at both ends |

## Left out

- Interleaved.Serialisable: assumes that each published refund finds its receipt as it read it, because the code reads the status before the lock; AnswersSerialisableExactly shows that the condition is exact, RefundIsSerialUnlessStale and OverlappingRefundsDiverge what happens to the ledger otherwise.
- Interleaved.Serialisable: is about the transactions' bodies; Adjust tests deletion only before its transaction, so an adjust can publish on a card deleted in between.
- Freshness.NoStalePassForgotten: a run is fresh exactly under the stated condition, which the code does not enforce: a provider's failure or a change counted inside the window forgets a pass.
- Freshness.NoStalePassForgotten: does not cover a crash between a commit and its Enqueue, nor an Enqueue whose write fails; nothing in the database remembers those. A pass is one balance shown; the two providers are not told apart.
- SerialLaws.ReplayAnyLater: assumes that a code which parses as a UUID never has the form of an issued barcode, which is a fact about the UUID library.
- Tables.AdjustTx: adds over unbounded integers, as Refund does; AdjustFitsExactly says where the 64-bit sum of an adjust differs.
- Machine64.NothingWraps: says nothing beyond 2^31 for points, amount, rate and percent; OversizedRequestWraps shows why the comparison before the product matters.
- Polling.PollingLosesNothing: assumes that no update bears a time at or before the start of the second the device's tag names; a time is drawn before its transaction commits, so LateUpdateIsLost can happen on Postgres. Times are after 1970 and fit 64 bits.
- Polling.PassServer.ListUpdatedSerials: requires rows newer than Go's zero time, which every stored timestamp is.
- Phone.ReadsBackFormattedPhone: nine digits become a valid phone with a 7 in front; the form's own submit check is not part of this model.
- Phone.ValidExactlyWithTenDigits: is for ASCII texts; unicode.IsDigit is a parameter that agrees with ASCII digits and is arbitrary beyond.
- At most one pending job per customer is not claimed under concurrent Enqueue calls: the count and the insert are separate statements.
- UUID parsing and the text form of scanned codes: a call carries whether its id parses, and a card code carries its normalised barcode and its id if it parses.
- Clocks, random ids, barcodes and tokens: times, ids and barcodes are arguments; time.Parse is an argument of the polling request.
- Foreign keys to stores and staff, the actor column's NULL for an empty id, and columns no modelled operation reads (Apple token, Google object id, job kind).
- SQL text, drivers and migrations: tables are maps and sequences; the primary key, the unique barcode and phone, row locks and read-committed publication are taken as given.
- Read failures before a transaction starts, and failing single statements outside one: they return the error and write nothing. Deadlocks and lock time-outs appear as Abort.
- Text collation of receipt ids in the shift list: ids compare by character.
- The Run loop, its ticker and the wake channel beyond Enqueue's one signal.
- HTTP routing, JSON, roles, sessions, staff, stores, activity log, customer search, pass building and signing, APNs, Google Wallet, QR codes and pages.
