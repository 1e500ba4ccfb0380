/**
 The four money tables (donations, fund allocations, expense requests, expenses) and their
 projects. Amounts are integer cents of the single operating currency. Services never delete a
 row of these tables, so a table is a sequence and a primary key is an index into it.
 */
module LedgerModel {
  import opened Wrappers
  import opened Sums

  datatype DonationStatus = Registered | Received | Annulled
  datatype ProjectStatus = Active | Closed
  datatype AllocationStatus = Active | Finished | Annulled
  datatype ExpenseStatus = Registered | Annulled
  datatype RequestStatus =
    | PendingDecision | ApprovedReserved | Denied | Withdrawn | Fulfilled | Annulled

  datatype EventType =
    | Created | Updated | Withdrawn | Approved | Denied | ReservationCreated | Annulled
    | ReservationReleased | ExpenseRegistered | ReservationConsumed
    | UnusedReservationReleased | LinkedExpenseAnnulled

  /** An append-only row of a request's history, with the amounts it snapshots. */
  datatype Event = Event(
    kind: EventType,
    toStatus: RequestStatus,
    reserved: Option<int>,
    executed: Option<int>,
    released: Option<int>)

  datatype Donation = Donation(status: DonationStatus, amount: int, hasReceivedDate: bool)
  datatype Project = Project(status: ProjectStatus, isPublic: bool)
  datatype Allocation = Allocation(donation: nat, project: nat, amount: int, status: AllocationStatus)
  datatype Expense = Expense(allocation: nat, amount: int, status: ExpenseStatus)
  datatype Request = Request(
    allocation: nat,
    requested: int,
    status: RequestStatus,
    reserved: Option<int>,
    expense: Option<nat>,
    log: seq<Event>)

  datatype Db = Db(
    donations: seq<Donation>,
    projects: seq<Project>,
    allocations: seq<Allocation>,
    requests: seq<Request>,
    expenses: seq<Expense>)

  /** Foreign keys resolve. */
  predicate References(db: Db) {
    && (forall a :: 0 <= a < |db.allocations| ==>
          db.allocations[a].donation < |db.donations| && db.allocations[a].project < |db.projects|)
    && (forall r :: 0 <= r < |db.requests| ==> db.requests[r].allocation < |db.allocations|)
    && (forall e :: 0 <= e < |db.expenses| ==> db.expenses[e].allocation < |db.allocations|)
  }

  // ---- Row weights of the aggregates ----------------------------------------------------

  function ExecutedWeight(a: nat): Expense -> int {
    (e: Expense) => if e.allocation == a && e.status == ExpenseStatus.Registered then e.amount else 0
  }

  /** What a request holds reserved now. */
  function Held(r: Request): int {
    if r.status == ApprovedReserved && r.reserved.Some? then r.reserved.value else 0
  }

  function ReservedWeight(a: nat): Request -> int {
    (r: Request) => if r.allocation == a then Held(r) else 0
  }

  function AssignedWeight(d: nat): Allocation -> int {
    (x: Allocation) => if x.donation == d && x.status != AllocationStatus.Annulled then x.amount else 0
  }

  /** Effective (non-annulled) expenses of allocation a. */
  function Executed(expenses: seq<Expense>, a: nat): int {
    SumBy(expenses, ExecutedWeight(a))
  }

  /** Active reservations on allocation a. */
  function Reserved(requests: seq<Request>, a: nat): int {
    SumBy(requests, ReservedWeight(a))
  }

  /** Non-annulled allocations funded by donation d. */
  function Assigned(allocations: seq<Allocation>, d: nat): int {
    SumBy(allocations, AssignedWeight(d))
  }

  /** Capacity of allocation a that is neither executed nor reserved; negative when over-reserved. */
  function Free(db: Db, a: nat): int
    requires a < |db.allocations|
  {
    db.allocations[a].amount - Executed(db.expenses, a) - Reserved(db.requests, a)
  }

  function Max(x: int, y: int): int { if x < y then y else x }

  // ---- Balances as the code reads them (clamped at zero) --------------------------------

  /** Balance of an allocation as the request services read it, optionally omitting one request. */
  function AvailableBalance(db: Db, a: nat, excluded: Option<nat>): int
    requires a < |db.allocations|
  {
    var requests := if excluded.Some? then Without(db.requests, excluded.value) else db.requests;
    Max(db.allocations[a].amount - Executed(db.expenses, a) - Reserved(requests, a), 0)
  }

  function DonationAvailable(db: Db, d: nat): int
    requires d < |db.donations|
  {
    Max(db.donations[d].amount - Assigned(db.allocations, d), 0)
  }

  // ---- Model validation (`clean`), the layer under the services -------------------------

  /** Donation validation of a proposed amount; d is None for a row not saved yet. */
  predicate DonationClean(db: Db, d: Option<nat>, amount: int) {
    amount > 0 && (d.Some? ==> amount >= Assigned(db.allocations, d.value))
  }

  /** Allocation validation: the balance of the donation plus the amount stored for the row itself. */
  predicate AllocationClean(db: Db, a: Option<nat>, donation: nat, amount: int)
    requires donation < |db.donations|
    requires a.Some? ==> a.value < |db.allocations|
  {
    var existing := if a.Some? then db.allocations[a.value].amount else 0;
    amount > 0 && amount <= DonationAvailable(db, donation) + existing
  }

  /**
   Expense validation. `reserved` is the reserved total the allocation object carries, which
   fulfilment overrides so that the request's own reservation is not counted against it.
   */
  predicate ExpenseClean(db: Db, e: Option<nat>, a: nat, amount: int, reserved: int)
    requires a < |db.allocations|
    requires e.Some? ==> e.value < |db.expenses|
  {
    var existing := if e.Some? then db.expenses[e.value].amount else 0;
    && amount > 0
    && amount <= Max(db.allocations[a].amount - Executed(db.expenses, a) - reserved, 0) + existing
  }

  /** Request validation: which of reservation and expense go with which status. */
  predicate RequestClean(r: Request) {
    && r.requested > 0
    && (r.reserved.Some? ==> 0 <= r.reserved.value <= r.requested)
    && (r.expense.Some? ==> r.status == Fulfilled)
    && match r.status
       case PendingDecision => r.reserved.None? && r.expense.None?
       case ApprovedReserved => r.reserved.Some? && r.expense.None?
       case Denied => r.reserved.None? && r.expense.None?
       case Withdrawn => r.reserved.None? && r.expense.None?
       case Fulfilled => r.reserved.Some? && r.expense.Some?
       case Annulled => r.expense.None?
  }

  /** A request that still blocks finishing its allocation and closing its project. */
  predicate Open(r: Request) {
    r.status == PendingDecision || r.status == ApprovedReserved
  }

  /** The request whose fulfilment created expense e, if any. */
  function LinkedRequest(requests: seq<Request>, e: nat): (r: Option<nat>)
    ensures r.Some? ==> r.value < |requests| && requests[r.value].expense == Some(e)
    ensures r.None? ==> forall k :: 0 <= k < |requests| ==> requests[k].expense != Some(e)
  {
    if requests == [] then None
    else if LinkedRequest(requests[..|requests| - 1], e).Some? then LinkedRequest(requests[..|requests| - 1], e)
    else if requests[|requests| - 1].expense == Some(e) then Some(|requests| - 1)
    else None
  }
}
