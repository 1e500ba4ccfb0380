# Fund ledger, attachment claims and text formats: a Dafny model

This project models the operational core of a donation-management system and proves properties of it over every run.

* **The fund ledger.** Donations fund allocations, allocations carry expense requests, and a fulfilled request
  becomes an expense. `LedgerModel` holds the tables (amounts in integer cents), `LedgerRules` the simple form of
  every service (when it commits, what rows it leaves), and `LedgerService` the services as imperative methods with
  the clamped balances, the model validation layer and the re-checks after each write. Every method is proved to
  commit exactly when its simple rule holds, to leave exactly the rows the rule says, and to refuse with the first
  reason there is. `LedgerHistory` ties the rows to something other than the rules: every field of every row is what
  the latest committed call about it said, and every log what the calls entered. `LedgerLifecycles` and
  `LedgerGuards` say from that what became of a row, what its past still admits and what a refusal for money means.
  `LedgerInvariant` and `LedgerRuns` prove what all runs keep, `EventLog` the language of request histories,
  `Reservations` what the balance re-checks amount to, `FreeCapacity` what runs of all services do to the room on an
  allocation, `Totals`, `PublishedFigures` and `Selectors` the published and listed figures.
* **Concurrency around the ledger.** `Interleaving` and `Serializability` split services into peek, lock, read,
  write, re-read and commit steps, interleaved arbitrarily, and prove the committed ledger equal to an atomic run in
  commit order; `Realizability` proves the converse, that every admissible call is committed by some schedule.
  `LockOrder` gives the order in which each service takes its locks, `LockCoverage` that they cover the rows it
  changes and relies on, and `Deadlock` proves exactly when any plans can deadlock: services other than the
  allocation update never do, nor do updates alone or beside services that do not lock both a donation and an
  allocation; an update deadlocks with another service exactly when that one locks the update's allocation and one
  of its donations.
* **Kobo attachments.** `FileNames`, `Attachments` and `AttachmentSafety` model the claim protocol (a lease with a
  fencing token) for any number of workers, clocks and timeouts; `AttachmentRetry` says which attachments are tried
  again; `AttachmentWorker` is the worker and its batch loop as a class, with arbitrary actions of others between
  its steps.
* **Smaller cores.** `MilestoneRules` and `MilestoneService` (positions under a uniqueness constraint at each save,
  and the audit of 100 % crossings), `PayloadAdapter` and `PayloadDictionaries` (slash-separated keys into nested
  objects, as a function on values and as code that mutates dictionaries through a moving reference), `MoneyText`
  and `MoneyReading` (the Spanish money format and what its texts denote, over `Digits`, which reads the decimal
  digits of every script), `OperationalCodes` (code reservation and its inspector).

`Sums` and `Wrappers` are shared helpers. A database transaction is a step that commits in full or changes nothing.
Network responses, clock readings, timeouts, storage failures and random tokens are parameters.

Where the code does less than its surroundings suggest, the model keeps the code's behaviour:

* Shrinking an allocation is checked against executed money only, so an allocation can become over-reserved
  (`Reservations.ShrinkingIsAccepted`), after which nothing reserved on it can be fulfilled or released
  (`Reservations.OverReservedIsStuck`) while it stays so. `FreeCapacity.OverReservationEndsExactly` names the steps
  that end it, none of which is ever enabled once the allocation is annulled.
* An annulled allocation may still carry a reservation: a run reaches one (`FreeCapacity.StrayIsReachable`), it
  arises exactly by annulling an allocation with something reserved and ends exactly by annulling the request
  (`StrayArisesExactly`, `StrayEndsExactly`), and `Selectors.ProjectAvailableExact` says exactly when it makes a
  project's balance differ from the sum over its allocations. Some run clears it exactly when the allocation is not
  over-reserved (`StrayClearsExactly`); otherwise the reservation is lost for good and its project can never be
  finished (`LostForGood`), which a run from the empty ledger reaches (`LossIsReachable`).
* Approve, fulfil and annul read the allocation of the request before locking anything; only the balance re-checks
  notice that the request has moved (`Reservations.ApproveChecksExact`, `FulfillChecksExact`, `AnnulChecksExact`).
* The update and the annulment of an expense lock the allocation the expense was on before they locked it, and never
  compare the two. If another update has moved the expense in between, they change an executed total without holding
  the lock that others read it under (`Interleaving.ExpenseChangeIsGuardedExactly`).
* A namespace without codes and without a sequence row is reported `OK_EMPTY`, which counts as safe, although every
  save is refused (`OperationalCodes.EmptyWithoutSequence`, `SafeReportMeansSavesExactly`).
* The progress label can read "100 %" for a project that is not complete, from 200 milestones on
  (`MilestoneService.HundredMeansCompletedExactly`).
* The money field shows a negative amount above -1,00 without its sign, and cannot read any negative amount back
  (`MoneyText.RoundTripExactly`).
* Whether a payload is adapted can depend on the order of its keys: with well-formed keys it does exactly when some
  key lies below another and every value that has keys below it is an object with room for them, and then the key
  above must come first (`PayloadAdapter.OrderMattersExactly`). If a value has a key below it but no room for it,
  every order is refused; if no key lies below another, every order is accepted, object values or not
  (`SomeOrderAcceptedExactly`, `EveryOrderAcceptedExactly`). The result, where there is one, never depends on the
  order (`AcceptedOrdersAgree`).

Check everything with `dafny verify dfyconfig.toml`.

## Model

| member | source | states |
|---|---|---|
| LedgerInvariant.StepKeepsInvariant | apps/operations/services.py:1284-1331 | every committed service keeps: executed <= amount per allocation, non-annulled allocations <= amount per donation, live allocations hang from received donations, open requests from open parents, effective expenses from live allocations, one request per linked expense, every log faithful |
| LedgerInvariant.AssignedAfter | apps/operations/services.py:1022-1033 | by how much each service changes the assigned total of each donation |
| LedgerInvariant.ExecutedAfter | apps/operations/models.py:1010-1016 | by how much each service changes the executed total of each allocation |
| LedgerRuns.LedgerSafety | apps/operations/services.py:1284-1408 | in every state any run reaches: executed <= allocated, spent through any allocation of a donation <= assigned <= donated, live allocations only on received donations |
| LedgerRuns.DonationCoversItsExpenses | apps/operations/models.py:898-911 | effective expenses paid with a donation never exceed what was assigned from it, nor that the donation |
| LedgerRuns.ClosedParentsHaveClosedChildren | apps/operations/services.py:370-473 | a closed project is not public and has no active allocation and no open request; a finished allocation has no open request; an annulled allocation no effective expense; an annulled donation only annulled allocations |
| LedgerRuns.RunEvolves | apps/operations/services.py:129-155 | over any run rows are never lost, terminal statuses never left, decided requests keep allocation and amounts, logs only grow |
| LedgerRuns.LogsTellTheLedger | apps/operations/expense_request_services.py:632-657 | in every reachable state each log is a word of the request language that ends in the current status, and created minus consumed minus released over an allocation's logs is what it has reserved |
| LedgerHistory.CallsTellTheLedger | apps/operations/services.py:1334-1408 | in every ledger reached by committed calls: as many rows as were made, every field of every row (donations, projects, allocations, requests, expenses) is what the latest call that speaks of it said, and every log is what the calls on its request entered |
| LedgerHistory.RunIsItsCommittedCalls | apps/operations/expense_request_services.py:583-630 | a refused call leaves nothing: a run ends where its committed calls alone lead |
| LedgerHistory.LatestIsLast | apps/operations/services.py:1561-1682 | what counts as the latest word is that of a call after which no other speaks of the field |
| LedgerLifecycles.RequestIsAsLastAsked | apps/operations/expense_request_services.py:378-391 | over any run a request is on the allocation, and asks for the amount, of its last committed update, or of its creation if there was none |
| LedgerLifecycles.LastAskedIsWhatItIs | apps/operations/expense_request_services.py:378-391 | and conversely, whatever call last asked for it is what the row says |
| LedgerLifecycles.UpdatedThenApproved | apps/operations/expense_request_services.py:579-679 | an update to an amount on an allocation, followed by an approval, reserves exactly that amount there and nothing elsewhere |
| LedgerLifecycles.AllocationLifecycle | apps/operations/services.py:244-286 | an allocation is finished exactly when a finish of it committed, annulled exactly when an annulment did, active otherwise |
| LedgerLifecycles.DonationLifecycle | apps/operations/services.py:181-205 | a donation is received exactly from its committed reception to its annulment, and annulled exactly by that |
| LedgerLifecycles.ProjectLifecycle | apps/operations/services.py:370-473 | a project is closed exactly when a finish of it committed |
| LedgerLifecycles.ExpenseLifecycle | apps/operations/services.py:1739-1860 | an expense is annulled exactly when an annulment of it committed |
| LedgerLifecycles.RequestLifecycle | apps/operations/expense_request_services.py:457-576 | a request's status is the one its committed withdrawal, denial, approval, fulfilment or annulment amounts to |
| LedgerLifecycles.OneFinalDecision | apps/operations/expense_request_services.py:457-576 | at most one of those but the approval ever commits, and nothing is fulfilled that was not approved |
| LedgerLifecycles.ClosedForGood | apps/operations/services.py:275-282 | from a finished or annulled allocation no run ever comes to where a request, approval, fulfilment, new expense, expense moved in, update, finish or annulment of it is enabled |
| LedgerLifecycles.NothingAfterClosing | apps/operations/services.py:244-286 | so in a history nothing draws on an allocation after its committed finish or annulment |
| LedgerLifecycles.OnlyItsExpensesChange | apps/operations/services.py:244-286 | a finished allocation keeps its row and has nothing reserved; its executed total changes only by changing its own expenses |
| LedgerLifecycles.LastFinishFreesProject | apps/operations/services.py:370-473 | once its last active allocation is finished and no request is open, a project can be finished |
| LedgerGuards.RequestAdmitsExactly | apps/operations/expense_request_services.py:457-576 | a request can be withdrawn or denied exactly until something decided it |
| LedgerGuards.OperationalExactly | apps/operations/expense_request_services.py:135-157 | an allocation is operational exactly until it is finished or annulled: donation and project outlive it |
| LedgerGuards.CreateRequestExactly | apps/operations/expense_request_services.py:285-346 | requests are created, for any positive amount, exactly on allocations not closed |
| LedgerGuards.UpdateRequestExactly | apps/operations/expense_request_services.py:349-454 | a request is updated exactly while undecided, on an allocation it was last put on or to, to one not closed, for a positive amount |
| LedgerGuards.CanFundExactly | apps/operations/services.py:1334-1367 | a donation funds allocations from its reception to its annulment, for projects not finished |
| LedgerGuards.FinishAllocationExactly | apps/operations/services.py:244-286 | an allocation can be finished exactly while not closed and with every request last put on it decided |
| LedgerGuards.AnnulAllocationExactly | apps/operations/services.py:570-600 | an allocation can be annulled exactly while not closed and with every expense last put on it annulled |
| LedgerGuards.ReceiveDonationExactly | apps/operations/services.py:181-205 | a donation can be received exactly once, before its annulment, if it was last given a date |
| LedgerGuards.AnnulDonationExactly | apps/operations/services.py:539-567 | a donation can be annulled exactly once, with every allocation last funded by it annulled |
| LedgerGuards.UpdateDonationExactly | apps/operations/services.py:1115-1203 | a donation not annulled takes exactly the positive amounts that cover what is assigned |
| LedgerGuards.PublishExactly | apps/operations/services.py:476-536 | a project not finished can be published exactly when its last word is private, and the reverse |
| LedgerGuards.FinishProjectExactly | apps/operations/services.py:370-473 | a project can be finished exactly once, with all its allocations closed and all requests on them decided |
| LedgerGuards.AnnulExpenseExactly | apps/operations/services.py:1739-1860 | an expense can be annulled exactly once |
| LedgerGuards.DirectExpenseExactly | apps/operations/services.py:1508-1558 | on an operational allocation a direct expense is refused exactly if not positive or if it would over-reserve |
| LedgerGuards.ExpenseUpdateExactly | apps/operations/services.py:1561-1682 | so is an expense update that may stand on its allocation |
| LedgerGuards.ApprovalExactly | apps/operations/expense_request_services.py:584-630 | the approval of a pending request on its operational allocation is refused exactly if it would over-reserve |
| LedgerGuards.NewAllocationExactly | apps/operations/services.py:1334-1367 | a new allocation is refused exactly if not positive or if more would be assigned than was donated |
| LedgerGuards.AllocationUpdateExactly | apps/operations/services.py:1370-1408 | so is an allocation update, or if it would leave less than is executed |
| EventLog.LanguageExact | apps/operations/expense_request_services.py:848-900 | the automaton of request histories accepts exactly CREATED UPDATED* followed by one of the tails of its phase |
| EventLog.ReadGivesWord | apps/operations/expense_request_services.py:1016-1051 | every accepted log is a word of the regular expression, with the tail of the phase it reached |
| EventLog.WordIsRead | apps/operations/services.py:1815-1842 | every word of the regular expression is accepted, in the phase of its tail |
| Reservations.ApproveChecksExact | apps/operations/expense_request_services.py:584-630 | approval passes its balance check and re-check exactly when the locked allocation is the request's own and has the amount free |
| Reservations.FulfillChecksExact | apps/operations/expense_request_services.py:778-837 | fulfilment passes guard, validation and re-check exactly for the request's own allocation, an amount within the reservation, and no over-reservation |
| Reservations.AnnulChecksExact | apps/operations/expense_request_services.py:972-1014 | annulment passes its re-check exactly when it releases nothing, or releases on the request's own, not over-reserved, allocation |
| Reservations.RechecksNeverFireOnOwn | apps/operations/expense_request_services.py:624-630 | on the request's own allocation, not over-reserved, what the guard accepted passes every re-check of approve, fulfil and annul |
| Reservations.OverReservedIsStuck | apps/operations/expense_request_services.py:787-837 | while an allocation is over-reserved no reservation on it can be fulfilled, for any amount, or released |
| Reservations.OnlyShrinkingOverReserves | apps/operations/services.py:1322-1331 | a step over-reserves an allocation exactly when it is an update of it to less than executed plus reserved |
| Reservations.ShrinkingIsAccepted | apps/operations/services.py:1395-1396 | such updates do commit |
| Reservations.ReservedAfter | apps/operations/financials.py:20-30 | by how much each service changes the reserved total of each allocation |
| Reservations.AllocationLayersAgree | apps/operations/models.py:987-1008 | allocation validation never rejects an amount the service guard accepted: on create, update and move to another donation |
| Reservations.ExpenseLayersAgree | apps/operations/models.py:1122-1151 | expense validation never rejects an update the service guard accepted, on the same allocation or another |
| Reservations.ExpenseFitsExact | apps/operations/services.py:1297-1319 | the guard of an expense update is: positive and within the free capacity, the row's own amount not counted against it |
| Reservations.FulfillmentLayersExact | apps/operations/expense_request_services.py:794-817 | with the overridden reserved total, validation follows the guard exactly on the request's own allocation or where the amount is free anyway |
| LedgerService.Ledger.CreateDonation | apps/operations/services.py:1075-1112 | commits exactly for a positive amount and appends one registered donation |
| LedgerService.Ledger.UpdateDonation | apps/operations/services.py:1115-1203 | commits exactly on a live donation for an amount covering its allocations |
| LedgerService.Ledger.TransitionDonationStatus | apps/operations/services.py:181-205 | the only transition that commits is registered to received, with a reception date |
| LedgerService.Ledger.AnnulDonation | apps/operations/services.py:539-567 | commits exactly when all its allocations are annulled |
| LedgerService.Ledger.CreateProject | apps/operations/models.py:128-175 | appends one active, non-public project and changes nothing else |
| LedgerService.Ledger.FinishProject | apps/operations/services.py:370-473 | commits exactly without active allocations and open requests; closes and unpublishes |
| LedgerService.Ledger.PublishProject | apps/operations/services.py:476-502 | commits exactly on an active project not yet public |
| LedgerService.Ledger.UnpublishProject | apps/operations/services.py:505-536 | commits exactly on an active public project |
| LedgerService.Ledger.CreateFundAllocation | apps/operations/services.py:1334-1367 | commits exactly within the unassigned money of a received donation, for an active project |
| LedgerService.Ledger.UpdateFundAllocation | apps/operations/services.py:1370-1408 | commits exactly within the donation without the row itself, and not below what is executed |
| LedgerService.Ledger.FinishFundAllocation | apps/operations/services.py:244-286 | commits exactly on an active allocation without open requests and marks it finished; a refusal gives its first reason |
| LedgerService.Ledger.AnnulFundAllocation | apps/operations/services.py:570-600 | commits exactly on an active allocation without effective expenses; open requests do not matter |
| LedgerService.Ledger.CreateExpenseRequest | apps/operations/expense_request_services.py:285-346 | commits exactly on an operational allocation for a positive amount; the log starts with CREATED |
| LedgerService.Ledger.UpdateExpenseRequest | apps/operations/expense_request_services.py:349-454 | commits exactly on a pending request that is still on one of the two locked allocations, and puts it on the new one with the new amount; a refusal gives its first reason |
| LedgerService.Ledger.WithdrawExpenseRequest | apps/operations/expense_request_services.py:457-515 | commits exactly on a pending request |
| LedgerService.Ledger.DenyExpenseRequest | apps/operations/expense_request_services.py:518-576 | commits exactly on a pending request |
| LedgerService.Ledger.ApproveExpenseRequest | apps/operations/expense_request_services.py:579-679 | the layered code with its possibly stale allocation commits exactly when the rule holds; a stale or short allocation gives the balance error |
| LedgerService.Ledger.ConsumeReservation | apps/operations/expense_request_services.py:787-846 | creates and links the expense, and rolls both back unless the balance moved by exactly the released part |
| LedgerService.Ledger.FulfillExpenseRequest | apps/operations/expense_request_services.py:740-931 | commits exactly when the rule holds; a stale or over-reserved allocation gives the balance error |
| LedgerService.Ledger.AnnulExpenseRequest | apps/operations/expense_request_services.py:967-1088 | commits exactly when the rule holds; a reservation is released only on the request's own allocation |
| LedgerService.Ledger.CreateExpenseLegacy | apps/operations/services.py:1508-1558 | commits exactly within the free capacity of an operational allocation |
| LedgerService.Ledger.UpdateExpense | apps/operations/services.py:1561-1682 | commits exactly within the free capacity, its own amount not counted; a linked expense may not move |
| LedgerService.Ledger.AnnulExpense | apps/operations/services.py:1739-1860 | commits exactly on an effective expense, and logs it on the linked request |
| Interleaving.AnswerIsStable | apps/operations/expense_request_services.py:243-279 | a committed service never changes the answer to a query asked under a row lock it does not hold |
| Interleaving.ExpenseChangeIsGuardedExactly | apps/operations/services.py:1750-1763 | updating or annulling an expense keeps every answer it holds no lock on exactly when the allocation the expense is on is among those it locked |
| Interleaving.RefusalIsRule | apps/operations/expense_request_services.py:583-622 | a transaction its own reads turn away would be turned away atomically |
| Interleaving.RecheckIsRule | apps/operations/expense_request_services.py:616-630 | the balance a transaction re-reads over its own uncommitted rows decides as the atomic rule does |
| Serializability.FinishIsAtomic | apps/operations/services.py:1382-1408 | at its end a transaction commits exactly when the atomic service is enabled, and publishes exactly its effect |
| Serializability.OthersStayOk | apps/operations/expense_request_services.py:243-258 | a commit leaves everything another running transaction has read true |
| Serializability.Serializable | apps/operations/expense_request_services.py:583-622 | any interleaving of any number of transactions ends in the ledger of the committed services run atomically in commit order |
| FreeCapacity.ApprovalsFit | apps/operations/expense_request_services.py:590-630 | in any run mixing all services, and between any two positions of it, the approvals on an allocation take together at most what is free at the first plus what the calls between them free |
| FreeCapacity.ApprovalsFitInPairs | apps/operations/expense_request_services.py:590-622 | any two approvals of such a run fit into what is free at a position before them and is freed until the second |
| FreeCapacity.FreeAfter | apps/operations/expense_request_services.py:158-170 | by how much each service changes the free capacity of each allocation |
| FreeCapacity.OverReservationEndsExactly | apps/operations/services.py:1297-1331 | an over-reservation ends exactly by raising the allocation enough, updating one of its expenses in place, or annulling or moving away an expense of at least the missing amount |
| FreeCapacity.StrayArisesExactly | apps/operations/services.py:570-600 | a reservation is left on an annulled allocation exactly by annulling it while something is reserved on it |
| FreeCapacity.StrayEndsExactly | apps/operations/expense_request_services.py:967-1014 | it ends exactly when the request that holds all of it is annulled |
| FreeCapacity.StrayIsReachable | apps/operations/services.py:570-600 | a run of committed calls from the empty ledger reaches such an allocation |
| FreeCapacity.LossIsReachable | apps/operations/services.py:1322-1331 | a run of committed calls from the empty ledger reaches an over-reserved allocation, and one more call an annulled one |
| FreeCapacity.LostForGood | apps/operations/services.py:570-600 | over any run an annulled over-reserved allocation keeps its reservation and its deficit, and its project can never be finished |
| FreeCapacity.StrayClearsExactly | apps/operations/expense_request_services.py:967-1014 | some run clears the reservation of an annulled allocation exactly when it is not over-reserved |
| Serializability.RivalApprovalsShare | apps/operations/expense_request_services.py:590-622 | in any interleaving of all modelled transactions, two committed approvals on an allocation fit together, at the amounts approved, into what was free when the first committed and was freed before the second |
| Serializability.RivalApprovalsExclude | apps/operations/expense_request_services.py:590-622 | so two approvals that fit singly but not together never both commit, whatever else commits, unless an amount is updated or enough is freed before the later one |
| Realizability.Realizable | apps/operations/services.py:1529-1556 | every service call the rule admits, on the request's own allocation, is committed by some schedule, whatever other transactions are under way that hold none of its rows |
| Realizability.HistoriesRealizable | apps/operations/expense_request_services.py:583-622 | every sequential history of these calls is what some schedule of their steps commits: that ledger, and exactly those calls in that order |
| LockOrder.PlansIncrease | apps/operations/expense_request_services.py:243-279 | whatever unlocked and locked reads saw, every service but the allocation update takes locks in strictly increasing order |
| LockOrder.AllocationUpdateDescends | apps/operations/services.py:1383-1391 | the allocation update never takes its locks in that order |
| LockCoverage.ChangedRowsAreLocked | apps/operations/expense_request_services.py:243-279 | whatever existing row a service changes, in any table, its plan holds the lock of |
| LockCoverage.NewRowsAreNumbered | apps/operations/models.py:48-67 | a service that makes a row holds the code sequence of its table |
| LockCoverage.ChangedTotalsAreLocked | apps/operations/expense_request_services.py:243-279 | a service that changes the assigned total of a donation, or the executed or reserved total of an allocation, holds that row's lock, when its unlocked reads are current |
| LockCoverage.ReliedProjectIsLocked | apps/operations/expense_request_services.py:243-279 | if another project row in its place would get a service refused, its plan holds the project's lock |
| LockCoverage.ReliedDonationIsLocked | apps/operations/expense_request_services.py:243-279 | the same for donations |
| LockCoverage.ReliedAllocationIsLocked | apps/operations/services.py:1383-1391 | the same for allocations, or its plan holds the donation or the new project of the row, which every update of the row takes as well |
| Deadlock.SomeoneCanProceed | apps/operations/services.py:251-267 | among any number of transactions whose plans increase in one of two orders of the tables, some unfinished one can always proceed |
| Deadlock.ServicesNeverDeadlock | apps/operations/expense_request_services.py:243-279 | any calls, after any schedule from the start and whatever their reads saw, never deadlock if none is an allocation update, or all are, or no other one locks both a donation and an allocation |
| Deadlock.ServicesCanAllEnd | apps/operations/expense_request_services.py:243-279 | and from wherever a schedule has brought such calls, another brings all of them to their end |
| Deadlock.DeadlocksExactly | apps/operations/services.py:251-267 | any lock plans can deadlock from the start exactly when some of them can be cut so that each next lock is among those another took and no lock is taken twice |
| Deadlock.UpdateDeadlocksExactly | apps/operations/services.py:1383-1391 | an allocation update and a call of any other service can deadlock from the start exactly when the other locks the updated allocation and a donation of the update |
| Deadlock.UpdateAndApprovalCanDeadlock | apps/operations/services.py:1383-1391 | so any update, moving the allocation or not, can deadlock with an approval on the same allocation, by the schedule given |
| Totals.PublicTotalsOrdered | apps/public_portal/selectors.py:26-62 | executed <= assigned <= received in the public scope of one project or all, each donation counted once; the clamp never bites |
| Totals.DashboardTotalsOrdered | apps/operations/services.py:2481-2549 | the dashboard's totals are ordered, so unassigned funds are never clamped |
| Totals.PublishedTotalsOrdered | apps/public_portal/selectors.py:262-297 | both orderings in every state any run reaches |
| PublishedFigures.ShownTotals | apps/public_portal/selectors.py:26-62 | of an active public project the portal counts exactly its live allocations, their expenses as the project listing has them, and each donation behind them once |
| PublishedFigures.NotShownTotals | apps/public_portal/selectors.py:26-37 | of any other project it counts nothing |
| PublishedFigures.PublicationCounts | apps/operations/services.py:476-536 | a committed publication puts the listed money of the project on the portal; unpublishing or finishing takes all of it off |
| PublishedFigures.PortalAddsUp | apps/public_portal/selectors.py:262-297 | assigned and executed totals of all projects are the sums of those of each |
| PublishedFigures.PortalReceived | apps/public_portal/selectors.py:262-297 | a donation counts once for all projects, exactly if it funds a live allocation of one on the portal |
| PublishedFigures.NothingElseIsPublished | apps/public_portal/selectors.py:26-49 | ledgers that agree on the active public projects, their allocations, expenses and donations publish the same totals, whatever else they hold and however much |
| PublishedFigures.DashboardReceivedAfter | apps/operations/services.py:2481-2549 | by how much each service changes what the dashboard shows as received |
| PublishedFigures.DashboardAssignedAfter | apps/operations/services.py:2481-2549 | by how much each changes what it shows as assigned |
| PublishedFigures.DashboardExecutedAfter | apps/operations/services.py:2481-2549 | by how much each changes what it shows as executed |
| Selectors.JoinSum | apps/operations/selectors.py:71-93 | grouping a left join gives each outer row the total of its own inner rows, none lost and none counted twice |
| Selectors.DonationListingExact | apps/operations/selectors.py:71-93 | listed assigned and available amounts equal the row's own properties |
| Selectors.AllocationListingExact | apps/operations/selectors.py:96-140 | listed executed, reserved and available amounts equal the row's own properties |
| Selectors.ProjectBalance | apps/operations/selectors.py:143-226 | a project's unclamped balance is the sum of its live allocations' surpluses minus their deficits minus stray reservations |
| Selectors.ProjectAvailableExact | apps/operations/selectors.py:188-226 | a project's available amount equals the sum over its live allocations exactly when none is over-reserved and no annulled one carries a reservation, or nothing is available |
| FileNames.FilenameIsOneComponent | apps/integrations/kobo/attachments.py:186-208 | for any external identifier the name is one path component of safe characters, a dot and the extension |
| FileNames.TokenOfFilename | apps/integrations/kobo/attachments.py:204-207 | the token of an attempt can be read back from its name |
| FileNames.FilenamesDistinct | apps/integrations/kobo/attachments.py:204-207 | names of different attempts differ, whatever the rows and types |
| FileNames.IdentifierKeepsWords | apps/integrations/kobo/attachments.py:198-201 | the identifier in a name has the letters and digits of the external one, all and in order, and the fallback exactly when there are none; naming is idempotent |
| FileNames.FitIdentifierIsKept | apps/integrations/kobo/attachments.py:198-201 | an identifier of safe characters that starts and ends with a letter or digit is used as it is |
| FileNames.RunsBecomeDashes | apps/integrations/kobo/attachments.py:199 | every run of unsafe characters becomes one dash and safe characters stay |
| Attachments.StepKeeps | apps/integrations/kobo/attachments.py:104-151 | every action of any worker keeps: tokens point to their row, files to the attempt that stored them, every stored object is foreign or answered for |
| Attachments.ProposedNameIsFree | apps/integrations/kobo/attachments.py:353-358 | the name an attempt proposes is never taken, so storage keeps it |
| AttachmentSafety.Fencing | apps/integrations/kobo/attachments.py:225-302 | a row leaves PROCESSING only by the failure or confirmation of its most recent claimant; otherwise it can at most be claimed again once expired |
| AttachmentSafety.SupersededWorkerIsHarmless | apps/integrations/kobo/attachments.py:147-151 | an attempt that is not the last claimant changes no row, and its confirmation makes its object an orphan |
| AttachmentSafety.SettledRowsAreFinal | apps/integrations/kobo/attachments.py:91-101 | DOWNLOADED and INVALID rows never change again, over any run |
| AttachmentSafety.FileWrittenAtMostOnce | apps/integrations/kobo/attachments.py:279-295 | a run writes a row's file reference at most once, and nothing else changes it |
| AttachmentSafety.DownloadedObjectIsThere | apps/integrations/kobo/attachments.py:159-167 | with crashes and failed deletions included, the object of a DOWNLOADED row is never removed |
| AttachmentSafety.StorageAccounted | apps/integrations/kobo/attachments.py:376-391 | with no worker in flight storage holds the foreign objects, the files of DOWNLOADED rows and what crashed or undeletable attempts left, nothing else |
| AttachmentSafety.StorageExact | apps/integrations/kobo/attachments.py:305-391 | without crashes and failed deletions that is exactly one object per DOWNLOADED row |
| AttachmentRetry.ClaimRefusedExactly | apps/integrations/kobo/attachments.py:91-101 | in every reachable world a claim with a fresh token leaves a row as it was exactly when it is DOWNLOADED, INVALID, or PROCESSING under a lease that still runs |
| AttachmentRetry.FailedIsTakenAgain | apps/integrations/kobo/attachments.py:94-98 | after an attempt that ended in FAILED the claim of any fresh token owns the row, whatever clock and timeout say |
| AttachmentRetry.DownloadSucceeds | apps/integrations/kobo/attachments.py:305-391 | from every row that is not settled a claim, a save and a confirmation download it, whatever the timeout |
| AttachmentRetry.StagedCanBeDownloaded | apps/integrations/kobo/attachments.py:91-101 | an attachment just staged has no file and can be downloaded, whatever its identifier |
| AttachmentRetry.CanBeDownloadedExactly | apps/integrations/kobo/attachments.py:91-101 | from every reachable world with an unused token some run brings a row to DOWNLOADED exactly when it is not INVALID |
| AttachmentWorker.AttachmentStore.ClaimProcessing | apps/integrations/kobo/attachments.py:104-144 | claims exactly a claimable row, as one protocol step |
| AttachmentWorker.AttachmentStore.FinalizeFailure | apps/integrations/kobo/attachments.py:225-260 | records the failure exactly while the token owns the row |
| AttachmentWorker.AttachmentStore.ConfirmDownload | apps/integrations/kobo/attachments.py:263-302 | confirms exactly while the token owns the row |
| AttachmentWorker.AttachmentStore.CompensateStoredFile | apps/integrations/kobo/attachments.py:159-167 | removes the orphaned object, or leaves it when deletion fails, and touches nothing else |
| AttachmentWorker.AttachmentStore.Judge | apps/integrations/kobo/attachments.py:325-374 | goes on exactly for an acceptable response that storage takes; FAILED exactly for other errors, INVALID for the rest |
| AttachmentWorker.AttachmentStore.DownloadAndStore | apps/integrations/kobo/attachments.py:305-391 | with arbitrary actions of others in between, and metadata read at the claim and again after it, is a run of the protocol that always concludes; DOWNLOADED exactly when its object is kept as the row's file, which alone happens exactly for an acceptable response |
| AttachmentWorker.AttachmentStore.ProcessPending | apps/integrations/kobo/attachments.py:394-436 | a batch that returns has selected = downloaded + invalid + failed + skipped, and downloaded is the number of objects it kept |
| AttachmentWorker.OthersLeaveTokens | apps/integrations/kobo/attachments.py:147-151 | what other workers do leaves an attempt's bookkeeping, and an unused token, as it is |
| MilestoneRules.CrossingsAlternate | apps/operations/services.py:763-770 | over any run from a project without milestones, "reached" and "left 100 %" events alternate and the latest agrees with derived completion |
| MilestoneRules.DeleteKeepsRelativeOrder | apps/operations/services.py:925-934 | deletion keeps the relative order of all other milestones |
| MilestoneRules.MoveAndBack | apps/operations/services.py:955-1003 | a real move followed by the opposite move restores the list |
| MilestoneRules.MoveIsRealExactly | apps/operations/services.py:962-965 | a move changes nothing exactly at the boundary of its direction |
| MilestoneService.ProjectMilestones.CreateMilestone | apps/operations/services.py:773-808 | appends a pending milestone at N + 1 and audits a crossing; refused exactly on a closed project or broken positions |
| MilestoneService.ProjectMilestones.SetCompleted | apps/operations/services.py:847-912 | completes or reopens once, audits a crossing, leaves positions alone |
| MilestoneService.ProjectMilestones.DeleteMilestone | apps/operations/services.py:915-950 | deletes, renumbers the rest to 1..N in order, audits a crossing |
| MilestoneService.ProjectMilestones.Compact | apps/operations/services.py:929-934 | renumbers in place, each save keeping positions distinct and at least 1 |
| MilestoneService.ProjectMilestones.MoveMilestone | apps/operations/services.py:955-987 | swaps with the neighbour through N + 1, each save keeping the constraints; a boundary move changes nothing |
| MilestoneService.ProjectMilestones.SavePosition | apps/operations/models.py:271-279 | one save, allowed only onto a free position of at least 1, changes that position alone |
| MilestoneService.GetMilestoneProgress | apps/operations/milestones.py:26-58 | counts, percentage and status of a list of milestones; complete exactly when there is one and all are done |
| MilestoneService.PercentageIsNearest | apps/operations/milestones.py:43 | the percentage is the nearest integer, halves up |
| MilestoneService.ReadsHundredExactly | apps/operations/milestones.py:43 | it reads 100 exactly when 200 times the pending milestones is at most the total |
| MilestoneService.HundredMeansCompletedExactly | apps/operations/milestones.py:43-57 | 100 means completed for every count exactly when there are fewer than 200 milestones |
| MilestoneRules.CreatedIsLast | apps/operations/services.py:773-808 | a new milestone is pending and comes after all others, which stay |
| MilestoneRules.CompletionIsItsOwn | apps/operations/services.py:847-912 | completing makes that milestone done and reopening pending, nothing else changes |
| MilestoneRules.DeletedIsGone | apps/operations/services.py:915-950 | the deleted milestone is gone, the others keep order and completion |
| MilestoneRules.MovePassesNeighbour | apps/operations/services.py:955-987 | a move exchanges the milestone with its neighbour in that direction alone |
| MilestoneRules.ClosedIsFrozen | apps/operations/services.py:725-734 | on a closed project no run changes anything |
| PayloadDictionaries.Adapter.Descend | apps/integrations/kobo/normalizers.py:31-37 | moves the reference one part down, making an empty dictionary when there is none, and refuses exactly when a value is in the way; the adapted tree is otherwise as before |
| PayloadDictionaries.Adapter.Put | apps/integrations/kobo/normalizers.py:30-42 | mutating the dictionary the moving reference has come to gives, seen from the root, exactly the recursive insertion, or a refusal on the same conflicts |
| PayloadDictionaries.Adapter.AdaptKoboPayload | apps/integrations/kobo/normalizers.py:13-43 | the loop over keys accepts and builds exactly what inserting them one by one does, and stops at the first bad key |
| PayloadDictionaries.ChangeSeenFrom | apps/integrations/kobo/normalizers.py:30-42 | changing one dictionary is seen from every dictionary above it as a replacement at its path, and nowhere else |
| PayloadAdapter.InsertAccepts | apps/integrations/kobo/normalizers.py:31-41 | insertion is refused exactly when something is at the path or a value lies above it |
| PayloadAdapter.InsertLook | apps/integrations/kobo/normalizers.py:30-42 | after inserting any value, a path shows what the value brings there, and otherwise what it showed before |
| PayloadAdapter.LoneAccepts | apps/integrations/kobo/normalizers.py:31-41 | beside one value another path is accepted exactly when it is not above it, and not below it unless the value is an object with room |
| PayloadAdapter.AcceptedExactly | apps/integrations/kobo/normalizers.py:22-43 | any payload, in a given order, is accepted exactly when all parts are non-empty and each entry is admitted by every earlier one, and the result joins what the entries bring |
| PayloadAdapter.AdmitsExactly | apps/integrations/kobo/normalizers.py:31-41 | one entry admits a later one exactly when the later is not above it, and if below it, the value is an object with room for the rest of the path |
| PayloadAdapter.EveryOrderAcceptedExactly | apps/integrations/kobo/normalizers.py:22-43 | whatever the values, every order of the keys is accepted exactly when no path is a proper prefix of another (and all parts are non-empty) |
| PayloadAdapter.SomeOrderAcceptedExactly | apps/integrations/kobo/normalizers.py:22-43 | some order is accepted exactly when every value above another entry is an object with room for it (and all parts are non-empty) |
| PayloadAdapter.OrderMattersExactly | apps/integrations/kobo/normalizers.py:22-43 | acceptance depends on the order exactly when some entry lies above another and every such value has room |
| PayloadAdapter.AcceptedOrdersAgree | apps/integrations/kobo/normalizers.py:22-43 | all accepted orders of a payload give the same result, whatever the values |
| PayloadAdapter.FlatAcceptedExactly | apps/integrations/kobo/normalizers.py:22-43 | without object values a payload is accepted, in any order, exactly when no path is a proper prefix of another (and all parts are non-empty) |
| PayloadAdapter.FlattensBack | apps/integrations/kobo/normalizers.py:14-18 | joining the leaf paths of the result gives back exactly the keys and values of a payload without object values |
| PayloadAdapter.GroupBeforeItsQuestion | apps/integrations/kobo/normalizers.py:31-41 | two keys accepted in one order and refused in the other |
| MoneyText.RoundTripExactly | apps/operations/forms.py:171-186 | reading back the rendering of an amount in cents gives it exactly when it is not negative |
| MoneyReading.ReadExactly | apps/operations/forms.py:129-139 | a typed text is read as an amount exactly when it is, up to white space around it, a written form that denotes that amount, and refused exactly when it is none |
| MoneyReading.WrittenIsRead | apps/operations/forms.py:50-52 | digits, groups of three after dots, a comma or point with one or two digits, in any script, denote 100 for each unit, 10 for the first decimal digit, 1 for the second, and are read so |
| MoneyReading.TrailingZero | apps/operations/forms.py:171-177 | one decimal digit is tenths: a zero behind it changes nothing |
| MoneyReading.GroupsAreIgnored | apps/operations/forms.py:137-138 | dots between groups change nothing |
| MoneyReading.MarksMeanTheSame | apps/operations/forms.py:135-138 | a decimal comma means what a decimal point means |
| MoneyText.NormalizedIsCanonical | apps/operations/forms.py:129-139 | normalization gives the empty text or a canonical one |
| MoneyText.NormalizeIsIdempotent | apps/operations/forms.py:129-139 | normalizing twice is normalizing once |
| MoneyText.ReadingsAgree | apps/operations/forms.py:50-52 | a text that is both canonical and localized is plain digits, read the same way |
| OperationalCodes.CodeRegistry.ReserveOperationalCode | apps/operations/models.py:48-67 | each refusal exactly under its condition and without effect; otherwise advances one sequence by one and returns its code |
| OperationalCodes.CodeRegistry.InspectOperationalCodeSequences | apps/operations/operational_code_sequences.py:42-84 | one report per namespace with the counts, the maximum canonical number and the status of its table |
| OperationalCodes.SafeExactly | apps/operations/operational_code_sequences.py:87-107 | with a sequence row, the status is safe exactly when the row is sound and ahead of every canonical code |
| OperationalCodes.StatusExactly | apps/operations/operational_code_sequences.py:87-107 | each of the five statuses, by the canonical numbers of the table and its sequence row |
| OperationalCodes.EntitiesFit | apps/operations/models.py:24-30 | every model's first save asks with the prefix its namespace expects |
| OperationalCodes.OnlyEntitiesAreSupported | apps/operations/models.py:24-30 | exactly the namespaces of the five models have a prefix and are inspected |
| OperationalCodes.CodesTellEntities | apps/operations/models.py:67 | no two models ever issue the same code |
| OperationalCodes.CodeLength | apps/operations/models.py:67 | codes have six digits up to 999999, and as many as the number has beyond |
| OperationalCodes.CodeRegistry.SaveFirst | apps/operations/models.py:177-185 | the first save of a model is refused only by its sequence or a taken code |
| OperationalCodes.FormatIsInjective | apps/operations/models.py:67 | different numbers give different codes, also beyond six digits |
| OperationalCodes.IssuedCodeIsNew | apps/operations/models.py:48-67 | from a safe table the next code is new, reads back as its number, and keeps the table safe |
| OperationalCodes.ReportedSafeIssuesNewCodes | apps/operations/operational_code_sequences.py:42-107 | in a table that is reported safe and has a sequence row every save succeeds, with new, pairwise distinct codes, and the table would be reported safe after each |
| OperationalCodes.SafeReportMeansSavesExactly | apps/operations/operational_code_sequences.py:87-107 | in a table reported safe every number of saves succeeds exactly when it has a sequence row |
| OperationalCodes.EmptyWithoutSequence | apps/operations/models.py:53-58 | a table without codes and sequence row is reported OK_EMPTY and safe, and its first save is refused |
| OperationalCodes.CodeRegistry.SaveNew | apps/operations/models.py:177-192 | a first save reserves and stores the code, or is refused and rolled back, exactly when the sequence is unusable or the code is taken; other namespaces are left alone |
| OperationalCodes.SavesSucceedExactly | apps/operations/models.py:48-67 | a number of saves in a row all succeed exactly when none of the codes they come to is taken; until then the codes are new and the sequence advances by one each |
| OperationalCodes.LaggingStopsOrRepeats | apps/operations/operational_code_sequences.py:105-106 | a lagging sequence does not get past the maximum cleanly: a save is refused for a code already taken, or the maximum is issued again beside a code that spells it differently |

## Left out

- Permissions, actors, requester ownership, purposes, reasons, notes, titles and other text validation: one-branch checks that no modelled property depends on.
- Dates and timestamps, except that a donation needs a reception date before it counts as received.
- Decimal precision and digit limits, and currencies other than the operating one: amounts are unbounded integer cents.
- Uploaded supporting documents and their compensation, project edits, project updates and their reviews, the demo seed.
- Event metadata: the balance snapshots and texts stored with a request event. The amounts the reservation account needs are kept.
- UpdateFundAllocation: takes the active status as given, since the form never offers another.
- Serializability.Serializable: covers approve, fulfil, request annulment, request update, direct expenses and allocation updates. The update and annulment of an expense are not among the jobs: `Interleaving.ExpenseChangeIsGuardedExactly` says when their commits would leave the answers of others alone. The remaining services are modelled as one step each. Primary keys and codes of new expenses are those of the commit order. Every read is taken under the lock that guards it, and what `select_for_update` locks through joined rows is not modelled.
- LockCoverage.ChangedRowsAreLocked: is about a service whose unlocked reads are current; a stale read is the subject of `Interleaving` and `Reservations`. Locks taken on rows that are neither changed nor relied on (institutions, the open requests of a closing allocation) are in the plans but not accounted for.
- LockOrder.PlansIncrease: takes each locking query as locking only its own model's rows, with code sequences after all others and donor institutions before them.
- AttachmentSafety.StorageExact: takes each storage save as all or nothing and a confirming transaction that raises as rolled back; a commit whose acknowledgement is lost is not modelled.
- AttachmentWorker.AttachmentStore.DownloadAndStore: deletion of attachment rows is not modelled.
- LedgerService.Ledger.CreateProject: the codes that first saves reserve are modelled in `OperationalCodes`, not in the ledger.
- FileNames.FilenameIsOneComponent: the extension is that of an accepted type, so the lower-casing and stripping of an arbitrary extension are not modelled.
- PayloadDictionaries.Adapter.AdaptKoboPayload: an object value becomes a dictionary of its own when a key first enters it, where the code copies it at once; payloads that are not mappings and keys that are not strings are not modelled.
- MoneyText.RoundTripExactly: amounts are whole cents, so rounding of longer decimals on display is not modelled.
- OperationalCodes.CodeRegistry.InspectOperationalCodeSequences: a stored next value is never null or beyond the column's width.
- MilestoneService.ProjectMilestones.SetCompleted: completion time and author are not kept; editing title and description is left out.
- Django forms, widgets, views, admin, caching, translations, deployment, health checks, log redaction and the Kobo client.
