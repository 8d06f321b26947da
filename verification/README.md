# Verified models of django-core-micha

django-core-micha is a set of Django applications: accounts, billing with Stripe, an AI assistant, document extraction
with a cost limit, consent handling and activity statistics. This project models the parts in which many callers,
repeated events or long runs meet shared state, and proves what they keep. To check it:
`dafny verify dfyconfig.toml`.

| modules | what they model |
|---|---|
| `BudgetWindow`, `BudgetAdmission`, `BudgetSafety`, `BudgetLimits`, `BudgetCache` | the lock-free daily AI budget: every cache call is one atomic step, any number of requests interleave, time is a real number |
| `RefundRows`, `RefundAccounting`, `RefundHistories`, `RefundTakeover` | refunds of contract payments against a provider whose events arrive duplicated, delayed and out of order, exactly which rows and totals that leads to, and what taking over its total without a lock can break |
| `LedgerEntries`, `LedgerInvariants`, `LedgerHistory`, `LedgerEffects`, `DebitOrder`, `DebitOptimality`, `TokenLedger` | the token ledger, what each operation does to what can be spent, its debit loop and why spending the earliest expiry first is best |
| `RefundQuote`, `WithdrawalFinality`, `PurchaseEffects` | what a withdrawal refunds, that it happens once and for good, and that it takes back what was credited |
| `TurnLog`, `TurnSafety`, `TurnPrompt`, `AssistantChat` | chat turns, their interruption, the summaries that replace old turns, and the prompt made of both |
| `ConsentLog` | consent choices and the append-only log of decisions |
| `JsonValues`, `StructuredValidator`, `SchemaAcceptance`, `ValidatorExactness`, `ValidatorReports`, `ValidatorLimits` | the schema subset of structured completions and the value checker |
| `CancellationCalendar` | month arithmetic and the date a cancellation takes effect |
| `AccessRules`, `AccessAggregation`, `AccountRows` | access and balances of one user, and the bulk views that must agree with them |
| `ActivityCredit`, `ActivityRollup` | activity credit per hour and the four-hour rollup |
| `Options`, `Sums` | shared vocabulary |

Protocols are state machines: a `Step` is one atomic action (a cache call, a transaction, a provider call, an event),
`Enabled` says when it may happen, `Apply` what it does, and theorems quantify over all runs. What the code does in
place on rows or cache entries is modelled once more as a class whose methods are proved equal to the functions the
theorems are about (`AccountingCache`, `PaymentRefunds`, `Ledger`, `Desk`, `StoredChat`, `Store`, `ActivityBuckets`).

Some results say where the code and what is expected of it part ways:

* The budget cap depends on the reservation lifetime. The settled counter of a day lives 26 hours from the first
  settlement, so a request of the last second of the day that decides more than two hours later no longer finds it. The
  cap is safe exactly for lifetimes up to two hours (the default is shorter).
* The withdrawal and termination paths read a payment, ask the provider for its refunded total, and write the larger
  figure without a lock (`src/django_core_micha/billing/contracts.py:288-299`, `:404`, `:517`). That is wrong in two ways.
  It can count a refund twice: for what our side sees, the amounts paid and refunded and all rows, it is safe exactly
  unless the last row is attempted, open, and fits the payment, beside the rows that succeeded and beside the amount
  refunded (the database admits one open row, so the provider has refused every earlier one that has not succeeded).
  It can lose a refund that was counted after the read: writing loses none exactly if it does not lower the stored
  figure.
* A prompt reads the latest summary and the history one after the other. They fit together exactly when no newer
  summary was stored in between, and a runner that was declared interrupted can store one there, the first of a chat too.
* A schema node without a type may carry `items` or `additionalProperties`, false or with a schema; the validator accepts
  such a schema and ignores the keyword there, unlike JSON Schema 2020-12 (sections 10.3.1.2 and 10.3.2.3 of Core). And
  `1.0` is not an integer to it, unlike in section 6.1.1 of Validation.
* An integer too large for a float makes the finiteness check fail, so it is refused where any number is admitted.
  Validation is exact on values with integers of some set exactly when no such integer is among them. Without this and
  the deviations just named the validator reads every accepted schema as the standard does, and each of them alone makes
  a difference.
* A consent request without items would be applied but not recognised when retried; the endpoint refuses such requests
  (`src/django_core_micha/privacy/views.py:182`).

## Model

| member | source | states |
|---|---|---|
| BudgetSafety.CapSafety | src/django_core_micha/extraction/cost_guard.py:151-199 | in every interleaving of reserve, settle and release steps, admitted reservations plus settled costs stay within the limit plus what providers billed beyond their reservations, for reservation lifetimes up to two hours |
| BudgetLimits.CapSafeExactlyUpToTwoHours | src/django_core_micha/extraction/cost_guard.py:116-121 | the cap holds in all reachable states if and only if the reservation lifetime is at most the two hours by which the 26-hour settled counter outlives the day |
| BudgetLimits.CapFailsBeyondTwoHours | src/django_core_micha/extraction/cost_guard.py:116-121 | a run, for every longer lifetime, in which a request of the last second of the day is admitted over a spent limit |
| BudgetSafety.WindowSeesEveryone | src/django_core_micha/extraction/cost_guard.py:181-185 | when a scan chooses its window, every reservation made before it and not yet settled lies in a bucket still to be read, and every settled one is in settled spend |
| BudgetSafety.BucketReadCoversHeld | src/django_core_micha/extraction/cost_guard.py:184-185 | reading one bucket adds to the running total at least the cents held there by earlier calls |
| BudgetSafety.DecisionKeepsCap | src/django_core_micha/extraction/cost_guard.py:186-199 | reading settled spend last: what was added up to and including an admitted call fits under the limit at that moment |
| BudgetSafety.DayCounterIsReadable | src/django_core_micha/extraction/cost_guard.py:222-233 | nobody who can still decide finds the settled counter of the day expired, up to two hours of lifetime |
| BudgetWindow.WindowCoversLifetime | src/django_core_micha/extraction/cost_guard.py:124-127 | for all times and lifetimes, a reservation at most one lifetime old lies in a bucket that the check scans |
| BudgetWindow.BucketOutlivesReservation | src/django_core_micha/extraction/cost_guard.py:163-182 | a shared bucket key, whoever created it, outlives every reservation placed in its interval |
| BudgetWindow.WindowForgets | src/django_core_micha/extraction/cost_guard.py:124-127 | a reservation older than the lifetime by two buckets lies before every scanned bucket |
| BudgetWindow.LifetimeIsLeast | src/django_core_micha/extraction/cost_guard.py:168 | no shorter lifetime of a bucket outlives every reservation placed in it |
| BudgetLimits.CountersAreExact | src/django_core_micha/extraction/cost_guard.py:222-270 | in every reachable state a bucket holds exactly the cents added and not removed; for reservation lifetimes up to two hours settled spend is the sum of actual costs |
| BudgetLimits.QuiescentBucketsAreEmpty | src/django_core_micha/extraction/cost_guard.py:255-270 | when all calls have finished and no cache write was lost, every bucket is zero |
| BudgetLimits.ScansAreExact | src/django_core_micha/extraction/cost_guard.py:181-199 | a scan starts at the window of its own clock, past every reservation older than the lifetime by two buckets, adds up what each bucket shows, and admits the call exactly if that and settled spend fit the limit |
| BudgetLimits.TriesAreExact | src/django_core_micha/extraction/cost_guard.py:170-178 | the cents are placed by the first of add, increment, add, increment that finds the bucket as it needs it, with a fresh lifetime or into the counter that is there, and by none after the fourth |
| BudgetLimits.OldReservationsAreForgotten | src/django_core_micha/extraction/cost_guard.py:124-127 | whatever a reservation has left in its bucket, once it is older than the lifetime by two buckets it does not weigh on a decision |
| BudgetCache.AccountingCache.ReserveUserBudget | src/django_core_micha/extraction/cost_guard.py:151-199 | run without interleaving, a reservation is an atomic test-and-add: admitted exactly if used plus asked fits the limit, and no readable counter changes otherwise |
| BudgetCache.AccountingCache.SettleReservation | src/django_core_micha/extraction/cost_guard.py:236-264 | settled spend grows by the actual cost, the reservation leaves its bucket, nothing else changes |
| RefundAccounting.RefundsNeverExceedProvider | src/django_core_micha/billing/stripe_service.py:413-456 | for any interleaving of attempts with duplicated, delayed and reordered refund and charge events: the refunded total plus what is accepted and uncounted is at most the total at the provider, which is at most the amount paid; each row is counted once, exactly if it succeeded; the total of the provider is not taken over while the last row is attempted, open, and fits the payment |
| RefundAccounting.CountedRefundsAreKept | src/django_core_micha/billing/stripe_service.py:431-456 | the lower half: in any interleaving the refunded total covers all refunds of ours that succeeded, as long as no balance lookup is written that lowers it |
| RefundAccounting.StepKeepsInv | src/django_core_micha/billing/contracts.py:323-357 | every step of either transaction, of the provider, of an event handler and of a takeover without a row in doubt keeps that bound and its supporting facts |
| RefundAccounting.NoDoubtNothingUncounted | src/django_core_micha/billing/contracts.py:288-299 | unless the last row is attempted, open, and fits the payment, every refund the provider accepted has been counted |
| RefundAccounting.BookKeepsInv | src/django_core_micha/billing/stripe_service.py:427-437 | applying an answer about an accepted refund counts it at most once and keeps the bound |
| RefundAccounting.ReconcileIsBounded | src/django_core_micha/billing/stripe_service.py:450-456 | writing the figure of a charge event, however late, less our own open rows keeps the bound |
| RefundAccounting.CurrentChargeCatchesUp | src/django_core_micha/billing/stripe_service.py:440-456 | an up-to-date charge event leaves at most our own open rows missing, and nothing once those are done |
| RefundRows.AnswersAreTaken | src/django_core_micha/billing/contracts.py:346-357 | which status, error, id and count an answer leaves, for each answer of the provider and for none |
| RefundRows.EventsAreTaken | src/django_core_micha/billing/stripe_service.py:427-437 | an event moves a row like an answer, except that a finished row stays, a failed row moves only to a final state, and the amount counted is that of the event |
| RefundRows.ReconciledIsExact | src/django_core_micha/billing/stripe_service.py:440-456 | a charge raises the refunded total to its figure less our own open rows or to the amount paid, whichever is less, and never lowers it |
| RefundRows.AmountIsMost | src/django_core_micha/billing/contracts.py:302-304 | a new row asks for the most that neither the rest of the payment nor the given amount forbids, and for nothing exactly if one of them is used up |
| RefundHistories.OccursExactly | src/django_core_micha/billing/contracts.py:302-357 | for any amount paid, any amount refunded and any sequence of rows with what the provider knows of each: they occur together in a reachable state if and only if each row has a form its attempts and answers allow, one at most is open, all but the last have been closed once and were refused unless they succeeded, what is accepted fits the payment, and so does the amount refunded with all that is accepted and uncounted |
| RefundTakeover.TakingTheTotalIsSafeExactly | src/django_core_micha/billing/contracts.py:398-404 | for every amount paid, amount refunded and sequence of rows: taking over the total of the provider keeps the bound in all reachable states that show these, if and only if the last row is not attempted, open, and of an amount that fits the payment both beside the rows that succeeded and beside the amount refunded |
| RefundTakeover.TakeoverIsSafe | src/django_core_micha/billing/contracts.py:398-404 | in every reachable state without such a last row, loading, asking and writing at once keeps the bound and gives the total of the provider |
| RefundTakeover.AnyDoubtMayBeAccepted | src/django_core_micha/billing/contracts.py:342-355 | for every amount paid, amount refunded and sequence of rows with such a last row, a run to a state that shows these, in which the provider has accepted that row |
| RefundTakeover.TakeoverCountsTwice | src/django_core_micha/billing/contracts.py:398-411 | in every reachable state with a row accepted and uncounted, the takeover and then the event of its success end with the refund counted twice and a refunded total above that of the provider |
| RefundTakeover.RowsLeftExactly | src/django_core_micha/billing/contracts.py:302-357 | a sequence of rows occurs in a reachable state if and only if each has one of the stated forms of status, error, attempts and provider id, one at most is open, and all but the last carry the id of the provider and do not wait for it |
| RefundTakeover.SavingIsSafeExactly | src/django_core_micha/billing/contracts.py:404 | writing a looked-up figure over the payment loses no counted refund in any reachable state if and only if it does not lower the figure there |
| RefundTakeover.LookupOvertaken | src/django_core_micha/billing/contracts.py:398-404 | for any two figures with the lower one looked up first, a run in which a refund counted in between is about to be lost |
| RefundRows.PaymentRefunds.StartAttempt | src/django_core_micha/billing/contracts.py:323-328 | the first transaction commits a fresh attempt or stops at a row that is done, and changes nothing else |
| RefundRows.PaymentRefunds.EndAttempt | src/django_core_micha/billing/contracts.py:346-357 | the second transaction applies the answer to the row as it stands by then, and counts only a newly succeeded row |
| RefundRows.PaymentRefunds.EndWithoutReference | src/django_core_micha/billing/contracts.py:329-333 | an attempt on a payment without reference fails its row unless it has succeeded |
| RefundRows.PaymentRefunds.CompleteContractRefund | src/django_core_micha/billing/stripe_service.py:413-437 | a refund event changes exactly the row its key names, and only if every check passes |
| RefundRows.PaymentRefunds.ReconcileProviderRefunds | src/django_core_micha/billing/stripe_service.py:440-456 | the new total is the old one, or the capped figure of the charge less our open accepted rows where that is larger |
| RefundRows.PaymentRefunds.RefundRow | src/django_core_micha/billing/contracts.py:302-320 | one unfinished row per declaration is reused, a new one has the amount still open, at most what was asked for |
| RefundRows.PaymentRefunds.RowToRetry | src/django_core_micha/billing/contracts.py:493-503 | a definitively failed row is cancelled; its successor is the unfinished row of the declaration or a fresh one within its amount, none if nothing is left or another row is open; any other row is tried again itself |
| LedgerInvariants.LedgerIsConserved | src/django_core_micha/billing/services.py:59-112 | after any run of grants, purchases, debits, reversals, expiries and withdrawals, the amounts of all entries of an account add up to what its credits hold, and no credit holds less than nothing or more than it was given |
| LedgerInvariants.StepKeepsInv | src/django_core_micha/billing/services.py:59-112 | each operation keeps the ledger invariant, appends only, and never raises what a credit holds |
| LedgerInvariants.ClosingIsRecorded | src/django_core_micha/billing/services.py:109-111 | zeroing a credit that holds something always creates its expiry entry: no entry under that reference exists yet |
| LedgerInvariants.CloseKeepsInv | src/django_core_micha/billing/withdrawal.py:139-146 | zeroing one credit appends exactly one expiry entry over what it held |
| LedgerInvariants.ReplayChangesNothing | src/django_core_micha/billing/services.py:63-73 | replaying a successful referenced operation, after any further operations, returns the same entry and changes nothing |
| LedgerInvariants.TakeIsExact | src/django_core_micha/billing/services.py:87-92 | the debit loop takes exactly its amount from the account and nothing from any other |
| LedgerHistory.EveryTokenIsAccountedFor | src/django_core_micha/billing/services.py:87-112 | in every run, what a credit was given is what it still holds plus what debits took, what expired and what withdrawals took back |
| LedgerEffects.GrantLastsUntilItExpires | src/django_core_micha/billing/services.py:59-66 | a grant is recorded once per reference and raises what its account can spend at time t, for every t, by its amount if it does not expire by then and by nothing otherwise; no other account changes |
| LedgerEffects.PurchaseNeverExpires | src/django_core_micha/billing/services.py:67-73 | a purchase is recorded once per reference, which it needs, and raises what its account can spend at every time |
| LedgerEffects.DebitOutcome | src/django_core_micha/billing/services.py:75-93 | which error or success each debit ends with, by amount, reference, earlier debit and balance, and the entry it writes |
| LedgerEffects.DebitTakesTheEarliest | src/django_core_micha/billing/services.py:87-93 | what can be spent at any later moment falls by no more than what the rest of the balance cannot give; other accounts keep theirs |
| LedgerEffects.ReversalGivesBack | src/django_core_micha/billing/services.py:95-104 | a reversal needs a reason, is recorded once, and gives back exactly what its debit took, without expiry |
| LedgerEffects.ReversalNeedsADebit | src/django_core_micha/billing/services.py:95-99 | without the debit there is nothing to reverse |
| LedgerEffects.ReversalUndoesTheDebit | src/django_core_micha/billing/services.py:75-104 | a debit and its reversal leave the balance as it was |
| LedgerEffects.SweepIsExact | src/django_core_micha/billing/services.py:105-112 | after the expiry command no grant past its end holds anything, every other entry is as it was, and nobody loses what can be spent from then on |
| LedgerEffects.WithdrawalIsExact | src/django_core_micha/billing/withdrawal.py:135-146 | a withdrawal empties exactly the grants and purchases under its references on its accounts |
| DebitOrder.CreditsInOrder | src/django_core_micha/billing/services.py:87 | the credits visited are distinct and in order of expiry, unlimited ones last |
| DebitOrder.CreditsAreTheBalance | src/django_core_micha/billing/services.py:87-88 | what the loop sums up before it debits is the balance of the account |
| DebitOrder.DebitLeavesTheLatest | src/django_core_micha/billing/services.py:89-92 | after the loop, the credit outliving any later moment is what it was, cut down only to what is left of the balance |
| DebitOptimality.EarliestExpiryFirstIsOptimal | src/django_core_micha/billing/services.py:75-93 | for every timeline of credits, clock advances, expiries and debits: if any choice of which unexpired credits to spend serves all debits, the loop serves them too |
| DebitOptimality.AllocationLeavesNoMore | src/django_core_micha/billing/services.py:89-92 | no allocator leaves more credit outliving a later moment than the loop does |
| DebitOptimality.StepKeepsDomination | src/django_core_micha/billing/services.py:75-112 | whatever the timeline does next, the ledger keeps at least as much credit outliving every moment as the other allocator |
| TokenLedger.Ledger.GrantTokens | src/django_core_micha/billing/services.py:59-66 | in-place form: same table and outcome as the specification, an existing reference returns its entry |
| TokenLedger.Ledger.CreditPurchase | src/django_core_micha/billing/services.py:67-73 | in-place form of the same for purchases, which need a reference |
| TokenLedger.Ledger.Spend | src/django_core_micha/billing/services.py:89-92 | the debit loop over the fetched credits updates them as specified |
| TokenLedger.Ledger.DebitTokens | src/django_core_micha/billing/services.py:75-93 | in-place debit: the replay of a reference, the reused reference, the insufficient balance and the successful case |
| TokenLedger.Ledger.ReverseDebit | src/django_core_micha/billing/services.py:95-104 | in-place reversal: an adjustment credit of the debited amount, once |
| TokenLedger.Ledger.ExpireTokens | src/django_core_micha/billing/services.py:105-112 | in-place expiry; each grant past its end gets its own new expiry entry, so the table grows by the returned count |
| TokenLedger.Ledger.ZeroForWithdrawal | src/django_core_micha/billing/contracts.py:388-395 | in-place zeroing of the covered credits, keeping the ledger invariant |
| RefundQuote.RefundAmount | src/django_core_micha/billing/withdrawal.py:47-69 | the loop over the purchase entries computes the quote |
| RefundQuote.CeilDivIsCeiling | src/django_core_micha/billing/withdrawal.py:45 | the division is the exact ceiling |
| RefundQuote.LargerShareIsKept | src/django_core_micha/billing/withdrawal.py:47-69 | the time share and the token share are the least numbers of cents covering their fractions, nothing without a term or without tokens; the larger one is kept and the rest refunded |
| RefundQuote.TermIsLeast | src/django_core_micha/billing/withdrawal.py:51-52 | the term has the least number of whole days covering it, at least one |
| RefundQuote.UsedIsLeast | src/django_core_micha/billing/withdrawal.py:51-53 | the days used are those begun since the start, at most those of the term |
| RefundQuote.QuoteBounds | src/django_core_micha/billing/withdrawal.py:68-69 | the refund is what was paid less what is kept, between nothing and the amount paid |
| RefundQuote.QuoteMonotone | src/django_core_micha/billing/withdrawal.py:49-69 | more tokens spent and a later moment never raise the refund |
| RefundQuote.QuoteAtTheEnds | src/django_core_micha/billing/withdrawal.py:49-69 | the full amount before the term with nothing spent, nothing once the term or all tokens are used |
| RefundQuote.ConsumedIsWhatDebitsTook | src/django_core_micha/billing/withdrawal.py:60-66 | over every ledger run before a withdrawal, what counts as consumed of a credit is exactly what debit loops took from it; expired tokens are never billed |
| RefundQuote.QuoteNeverRises | src/django_core_micha/billing/withdrawal.py:47-69 | along any run of ledger operations and as time passes the quote never rises |
| WithdrawalFinality.CompletedAtMostOnce | src/django_core_micha/billing/withdrawal.py:108-114 | direct requests and refund events together complete a purchase at most once |
| WithdrawalFinality.WithdrawalIsFinal | src/django_core_micha/billing/stripe_service.py:249-294 | once the tokens of a purchase were taken back, no sequence of provider events in any order and multiplicity adds an entry under its grant references on the owner accounts or makes one hold anything again |
| WithdrawalFinality.WithdrawalIsFinalFromTheStart | src/django_core_micha/billing/stripe_service.py:496-539 | the same for every state reachable from an empty shop |
| WithdrawalFinality.StepKeepsShop | src/django_core_micha/billing/stripe_service.py:459-539 | every event keeps the purchase and ledger invariants |
| WithdrawalFinality.CompletionIsExact | src/django_core_micha/billing/withdrawal.py:108-160 | a validated refund or an eligible request withdraws an active purchase, records its cents and empties its covered entries; it touches no other purchase, and does nothing to one that is not active |
| WithdrawalFinality.RefundIsRecordedForGood | src/django_core_micha/billing/withdrawal.py:108-160 | a completed purchase carries the cents of the event that completed it through every further run |
| WithdrawalFinality.OtherPathsAreExact | src/django_core_micha/billing/contracts.py:360-404 | an ineligible request does nothing; the contract path withdraws first and clears the tokens, further references included, afterwards, and only of a withdrawn purchase |
| PurchaseEffects.AllowanceIsGrantedOnce | src/django_core_micha/billing/stripe_service.py:249-294 | an update grants the allowance of its period once, to its account, until it ends, and nothing for a withdrawn subscription |
| PurchaseEffects.PackageIsGrantedOnce | src/django_core_micha/billing/stripe_service.py:519-532 | a team package brings its tokens with its first event, until it ends |
| PurchaseEffects.CheckoutIsCreditedOnce | src/django_core_micha/billing/stripe_service.py:534-539 | bought tokens are credited once per checkout |
| PurchaseEffects.SubscriptionTakesBack | src/django_core_micha/billing/stripe_service.py:503-517 | the purchase recorded with a paid subscription checkout covers the allowance just granted |
| PurchaseEffects.PackageTakesBack | src/django_core_micha/billing/stripe_service.py:528-533 | the purchase recorded with a package covers the tokens just granted |
| PurchaseEffects.CheckoutTakesBack | src/django_core_micha/billing/stripe_service.py:534-539 | the purchase recorded with a token checkout covers the tokens just credited |
| WithdrawalFinality.Desk.CompleteWithdrawal | src/django_core_micha/billing/withdrawal.py:108-160 | in-place completion: only an active purchase is completed, its tokens are zeroed, anything else reports that it was done already |
| TurnSafety.OneLiveTurn | src/django_core_micha/assistant/turns.py:65-95 | in every reachable chat at most one turn is generating, it has the highest sequence, and sequences are unique |
| TurnSafety.TerminalIsFinal | src/django_core_micha/assistant/turns.py:97-100 | a terminal turn keeps its state and sequence, even when its runner finishes after it was reconciled |
| TurnSafety.GoneIsGone | src/django_core_micha/assistant/turns.py:58-63 | a deleted turn never comes back |
| TurnLog.ReconcileIsExact | src/django_core_micha/assistant/turns.py:36-41 | reconciling interrupts exactly the generating turns without a heartbeat within the limit, or all generating ones if asked to, and changes nothing else |
| TurnLog.HealthyTurnsSurvive | src/django_core_micha/assistant/turns.py:36-41 | a new turn is not interrupted within the limit after its creation |
| TurnLog.BeatingTurnsSurvive | src/django_core_micha/assistant/turns.py:43-44 | a turn is not interrupted within the limit after a heartbeat |
| TurnSafety.SummaryPartition | src/django_core_micha/assistant/turns.py:165-219 | in every reachable chat the latest summary covers exactly the completed turns up to its cutoff, each once, and the history is exactly the completed turns above it, in order |
| TurnSafety.NothingCompletesBelowACutoff | src/django_core_micha/assistant/turns.py:184-190 | no turn at or below a cutoff completes later, so what a summary stands for never changes |
| TurnSafety.StepKeepsInv | src/django_core_micha/assistant/turns.py:36-109 | each step keeps turns ordered and every stored or half-made summary faithful |
| TurnPrompt.PromptIsCompleteExactly | src/django_core_micha/assistant/turns.py:270-280 | a summary (or that there is none) read first and a history read later fit together if and only if no newer summary was stored in between |
| TurnPrompt.OvertakenRunnerLeavesAGap | src/django_core_micha/assistant/turns.py:267-280 | for all limits a run in which an overtaken runner stores the first summary between the two reads of the next turn, whose prompt lacks a completed turn |
| AssistantChat.StoredChat.ReconcileInterrupted | src/django_core_micha/assistant/turns.py:36-41 | exactly the stale generating turns become interrupted, or all generating ones |
| AssistantChat.StoredChat.HeartBeat | src/django_core_micha/assistant/turns.py:43-44 | only a generating turn is touched |
| AssistantChat.StoredChat.CreateTurn | src/django_core_micha/assistant/turns.py:86-93 | a chat with a live turn accepts no other; a new one takes the next sequence |
| AssistantChat.StoredChat.FinishTurn | src/django_core_micha/assistant/turns.py:97-109 | only a live turn is finished |
| AssistantChat.StoredChat.BuildHistory | src/django_core_micha/assistant/history.py:3-11 | question and answer of every completed turn above the latest summary, in order, and of no other |
| AssistantChat.StoredChat.SummarizeIfNeeded | src/django_core_micha/assistant/turns.py:165-219 | the older turns above the latest summary are folded into one that stands for exactly the completed turns up to its cutoff |
| AssistantChat.FoldingIsSound | src/django_core_micha/assistant/turns.py:184-187 | storing folded turns keeps every summary faithful and leaves exactly the kept turns as history |
| ConsentLog.ChoicesAreTheReplayedLog | src/django_core_micha/privacy/services.py:50-89 | after every run of requests each current choice is the replay of the decision log, and the sequence number counts the applied requests |
| ConsentLog.AppliedRequestIsRecorded | src/django_core_micha/privacy/services.py:53-89 | an applied request leaves each choice and one decision per item, marked withdrawn exactly when an unexpired grant of the same revision stood before |
| ConsentLog.OutcomesAreExact | src/django_core_micha/privacy/services.py:33-51 | a request is idempotent exactly if it was decided before; of the others exactly the grants prepared against another sequence are stale, and all else is applied |
| ConsentLog.WithdrawalsAreExact | src/django_core_micha/privacy/services.py:54-67 | the same for the items processed so far |
| ConsentLog.RetryChangesNothing | src/django_core_micha/privacy/services.py:45-46 | retrying an applied request, after any other requests, changes nothing |
| ConsentLog.RememberedExactly | src/django_core_micha/privacy/services.py:45-46 | an applied request is recognised later if and only if it decided something |
| ConsentLog.OldGrantIsNeverApplied | src/django_core_micha/privacy/services.py:47-48 | a grant prepared before any applied request, a refusal for instance, is never applied after it |
| ConsentLog.RefusalAlwaysApplies | src/django_core_micha/privacy/services.py:47-51 | a refusal not seen before applies whatever sequence its sender had seen |
| ConsentLog.HandleKeepsInv | src/django_core_micha/privacy/services.py:27-90 | stale and repeated requests change nothing but the existence of the receipt, applied ones add exactly their decisions under the next number |
| ConsentLog.Store.ApplyChoiceRequest | src/django_core_micha/privacy/services.py:27-90 | the handler in place, equal to the specification |
| JsonValues.SameIsEqual | src/django_core_micha/assistant/structured.py:66-76 | the comparison holds if and only if both values mean the same JSON (numbers however written, objects without order, true is not 1) and hold no not-a-number |
| ValidatorExactness.ValidationIsExact | src/django_core_micha/assistant/structured.py:61-117 | for every accepted schema and every value whose integers fit a float: no exception, and no error if and only if the value belongs to the set of the schema |
| ValidatorExactness.NothingElsePasses | src/django_core_micha/assistant/structured.py:61-117 | without any condition on the value: whatever passes belongs to the schema |
| ValidatorExactness.CheckIsRight | src/django_core_micha/assistant/structured.py:78-112 | each node: a value fits only if it belongs, is refused only if it does not, and an exception needs an integer too large for a float |
| ValidatorExactness.TypeNamesAreExact | src/django_core_micha/assistant/structured.py:86-95 | each of the seven type names admits exactly its kind of value, true being no number and nothing infinite one; only an oversized integer checked as a number raises |
| ValidatorExactness.LimitIsHalfway | src/django_core_micha/assistant/structured.py:90 | an integer is oversized from halfway between the largest float and the next power of two |
| SchemaAcceptance.AcceptedExactly | src/django_core_micha/assistant/structured.py:13-58 | a schema is accepted if and only if it is of type object, everything inside it keeps the shared contract, and each node below it, of elements, options and properties, is well put on its own |
| ValidatorLimits.ExactForFloatSizedIntegers | src/django_core_micha/assistant/structured.py:90 | for every set of integers: validation by every accepted schema is exact on all values whose integers lie in the set, if and only if none of them is too large for a float |
| ValidatorLimits.OversizedIntegersAreRefused | src/django_core_micha/assistant/structured.py:90 | for every integer beyond the largest float, the object whose one member is this integer belongs to an accepted schema and is refused by it |
| ValidatorLimits.ReadAsStandardExactly | src/django_core_micha/assistant/structured.py:36-54 | the validator reads every accepted schema as JSON Schema does if and only if none of five things is allowed, each of which alone is enough to differ: in nodes without a type items, additionalProperties false, or additionalProperties with anything but true and false; and in values a whole number written as a float or an integer too large for one |
| ValidatorLimits.UntypedItemsAreIgnored | src/django_core_micha/assistant/structured.py:45-46 | for every non-empty list of strings, the object whose one member is this list passes an accepted schema with untyped items, although JSON Schema does not admit it |
| ValidatorLimits.UntypedAdditionsAreIgnored | src/django_core_micha/assistant/structured.py:36-38 | for every text and every additionalProperties, false or a schema, that does not admit the text: an object whose one member is the object that holds the text passes an accepted schema with this additionalProperties in an untyped node, although JSON Schema does not admit it |
| ValidatorLimits.UntypedClosednessIsIgnored | src/django_core_micha/assistant/structured.py:36-38 | the same for additionalProperties false |
| ValidatorLimits.UntypedNullsAreIgnored | src/django_core_micha/assistant/structured.py:36-38 | the same for additionalProperties that asks for null |
| ValidatorLimits.WholeFloatsAreRefused | src/django_core_micha/assistant/structured.py:91 | for every whole number, the object whose one member is this number written as a float is refused by an accepted schema that admits it in JSON Schema |
| ValidatorReports.ReadingsAgree | src/django_core_micha/assistant/structured.py:20-54 | the validator admits all that JSON Schema 2020-12 admits unless the value holds a whole float, and nothing else unless an untyped node has items or an additionalProperties other than true |
| ValidatorReports.ErrorsAreLocated | src/django_core_micha/assistant/structured.py:97-111 | for any schema, the path of an error leads to a place inside the value, or names a member that is really missing or extra |
| CancellationCalendar.CancellationEffective | src/django_core_micha/billing/contracts.py:133-143 | the loop terminates with the first monthly boundary on or after the requested day; it runs out of dates if and only if no boundary up to December 9999 is late enough; contracts that do not renew end with their term |
| CancellationCalendar.BoundariesDoNotDrift | src/django_core_micha/billing/contracts.py:138-142 | the k-th iterate is k months from the anchor for ordinary anchors and the last day of the k-th month for month-end anchors |
| CancellationCalendar.FirstBoundaryIsNear | src/django_core_micha/billing/contracts.py:139-143 | the result is unique and lies in the requested month or the next |
| CancellationCalendar.AddMonthsIsExact | src/django_core_micha/billing/contracts.py:37-41 | adding n months lands exactly n months later, on the same day or the last of a shorter month, and fails exactly after the year 9999 |
| CancellationCalendar.MonthsMakeYears | src/django_core_micha/billing/contracts.py:37-41 | the month lengths used make up the Gregorian years: 30 and 31 days alternate with a break in August, February takes the rest of its year, and 400 years have 146097 days |
| CancellationCalendar.EarlierIsByDays | src/django_core_micha/billing/contracts.py:139-143 | comparing dates is comparing their numbers in the count of all days |
| CancellationCalendar.DatesAreConsecutive | src/django_core_micha/billing/contracts.py:37-41 | the dates are all days from 1 January of the year 1 to 31 December of the year 9999, each one more than the day before |
| CancellationCalendar.TwoGoesAgreeExactly | src/django_core_micha/billing/contracts.py:37-41 | adding in two goes agrees with adding at once if and only if the stop on the way is not clipped below the final day |
| AccessAggregation.OverviewOf | src/django_core_micha/billing/operator.py:62-76 | the active count, the counts by source and by plan are the numbers of users for whom the single-user rules say so |
| AccountRows.AccountsOf | src/django_core_micha/billing/operator.py:141-170 | each line equals the access, plan, term and balance that the single-user rules give that user |
| AccessAggregation.AccessState | src/django_core_micha/billing/services.py:20-41 | the loops over the rows of a user compute the specified access |
| AccessAggregation.TokenBalance | src/django_core_micha/billing/services.py:48-53 | the spendable sum of one user |
| AccessRules.ActiveAccessMeaning | src/django_core_micha/billing/services.py:20-38 | access is active if and only if there is open free access, a paying subscription or a running seat; free access has no end, otherwise the latest end on offer decides, and a subscription precedes a seat that ends with it |
| AccessRules.ReadOnlyMeaning | src/django_core_micha/billing/services.py:26-41 | without access the latest of all recorded ends is named, or none if there is none |
| AccessRules.BalanceMeaning | src/django_core_micha/billing/services.py:48-57 | one credit more raises the balance by what it holds exactly if it is the own, spendable and not expired |
| AccessRules.PlanIsOfTheBest | src/django_core_micha/billing/operator.py:62-76 | the plan that goes with the access is that of a row giving it |
| AccessRules.BestIsFirstMaximum | src/django_core_micha/billing/services.py:38 | the maximum taken is the first among equal ends |
| ActivityCredit.CreditIsTheCappedGaps | src/django_core_micha/activity/services.py:72-100 | for every run of pings with a monotone clock, the credit of a user is the sum of the capped gaps between the own pings |
| ActivityCredit.CreditIsBounded | src/django_core_micha/activity/services.py:86-89 | it is at most the time from first to last ping and at most the cap for each ping but the first |
| ActivityCredit.HourCreditIsBounded | src/django_core_micha/activity/services.py:90-100 | the credit of one hour is at most the time from its start to the last ping in it plus the cap |
| ActivityCredit.PingCreditsItsGap | src/django_core_micha/activity/services.py:72-100 | after any run a further ping credits the whole seconds since the own last one, the cap for a longer gap, nothing for a first one, and nothing to others |
| ActivityCredit.PingGoesToItsHour | src/django_core_micha/activity/services.py:90-100 | the ping is recorded in the bucket of its hour, and no other bucket changes |
| ActivityCredit.RunKeepsInv | src/django_core_micha/activity/services.py:72-100 | one bucket per user and hour, its last ping, its bound and the total of each user, over all runs |
| ActivityCredit.ActivityBuckets.RecordPing | src/django_core_micha/activity/services.py:50-100 | one ping in place, equal to the specification |
| ActivityRollup.AggregateFourHours | src/django_core_micha/activity/services.py:129-162 | from hourly rows in any order: the windows in order, each with its distinct users and total seconds exactly as if the stored rows had been grouped by window at once |
| ActivityRollup.TwoStagesAgree | src/django_core_micha/activity/services.py:148-158 | summing by hour and user and then by window is summing by window |
| ActivityRollup.WindowsTileTime | src/django_core_micha/activity/services.py:110-111 | a moment lies in its window, and the windows of a day are those counted from the epoch |

## Left out

Assumptions and simplifications, by area:

- Budget: cost estimates are parameters; calls that return early (accounting disabled, no user, nothing to reserve) are not modelled; a lost cache write is a step of its own (`Fail`, `LoseSettlement`, `written == false`), and the actual cost of a lost settlement is not part of the bound.
- Budget: a call is assumed to finish within the reservation lifetime of reading the day, and the clock not to go back.
- Budget: `charge_user`, a second writer of settled spend outside the reservation protocol.
- Refunds: the provider refuses refunds beyond the payment, replays an idempotency key, lists refunds completely, and does not fail a refund it accepted; an event carries the amount of its row.
- RefundsNeverExceedProvider: asks of the runs that the total of the provider is not taken over while the last row is attempted, open, and fits the payment (`MayBeUncounted`); `TakingTheTotalIsSafeExactly` shows that a payment with such a row also occurs in a state where the bound breaks.
- Refunds: a charge event may carry any figure up to the total of the provider, not just one it had before, and a new row any amount; runs to given rows and totals rely on both.
- CountedRefundsAreKept: asks of the runs that no balance lookup is written that lowers the payment; `SavingIsSafeExactly` shows that each such write can lose a refund.
- Refunds: a payment with a reference has a charge, so its lookup finds one; rows of other payments are not part of the model.
- Refunds: a transaction that would make a second open row is undone by the database and not a step of its own; that a `cancelled` row stays cancelled while an attempt runs is not claimed, because the second transaction guards only `succeeded`.
- Refunds: the search for the purchase a refund event belongs to, e-mails, deadlines and notes.
- Ledger: references are structured values instead of the strings built from them; a missing `remaining` is zero; rows without a stated order are visited in table order; an account exists as soon as it is named.
- Ledger: several ledger operations at once, since each locks the account.
- Quote: times are whole microseconds, where the code divides seconds as floating-point numbers before rounding up.
- Withdrawal: provider calls, the confirmation mail, and the checks in `_upsert_subscription` that decide about an allowance, which is a parameter of the event instead.
- Turns: the recount across chats after a start, access and archive checks, message texts and usage; whether a context is over its limit is a parameter, and the text of a summary is the list of turns it was made from.
- Consent: receipts of other browsers, language and notice fields, pruning of old data.
- Validator: of schemas that are not accepted only the paths of errors are claimed; recursion depth, the 300-character cut of messages (paths and kinds of errors are kept), keys that are not strings.
- ValidationIsExact: asks that integers fit a float; `ExactForFloatSizedIntegers` shows that exactly this is needed, and `NothingElsePasses` needs no such condition.
- ReadingsAgree: each half excludes the cases in which it is false, values with whole floats and untyped nodes with `items` or an `additionalProperties` other than true; `ReadAsStandardExactly` shows that each of them makes the readings differ.
- Validator: a schema below `additionalProperties` of an untyped node is not checked by the code and may use other keywords than the accepted ones; in the reading of JSON Schema here these say nothing.
- Calendar: time of day and time zones; a date stands for the moment and for its local day.
- Access: the reason and grantor of free access, searching and paging of accounts, and the other figures of the overview.
- Activity: other objects and applications, the native groupings by hour, day and month, the reading policy, rounding to hours; pings and buckets are in UTC.
- Not modelled at all: authentication and its policy cache, roles, serializers, views, e-mail, WebSockets, drivers of AI providers, signing and encryption, catalogue synchronisation, receipts and contracts as documents.

Nothing was executed: the statements are about the models, as far as these follow the cited lines.
