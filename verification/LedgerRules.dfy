/**
 The simple form of every ledger service: when it commits (`Enabled`) and the rows it leaves
 (`Effect`). No clamped balance, no model validation and no re-check after the write appears here;
 `LedgerService` shows that the layered code commits exactly when these rules say so.
 */
module LedgerRules {
  import opened Wrappers
  import opened Sums
  import opened LedgerModel

  datatype Op =
    | CreateDonation(amount: int, hasReceivedDate: bool)
    | UpdateDonation(d: nat, amount: int, hasReceivedDate: bool)
    | ReceiveDonation(d: nat)
    | AnnulDonation(d: nat)
    | CreateProject
    | FinishProject(p: nat)
    | PublishProject(p: nat)
    | UnpublishProject(p: nat)
    | CreateAllocation(d: nat, p: nat, amount: int)
    | UpdateAllocation(a: nat, d: nat, p: nat, amount: int)
    | FinishAllocation(a: nat)
    | AnnulAllocation(a: nat)
    | CreateRequest(a: nat, amount: int)
    // `reference` and `locked` are allocation ids read before any lock was taken.
    | UpdateRequest(r: nat, reference: nat, a: nat, amount: int)
    | WithdrawRequest(r: nat, locked: nat)
    | DenyRequest(r: nat, locked: nat)
    | ApproveRequest(r: nat, locked: nat)
    | FulfillRequest(r: nat, locked: nat, amount: int)
    | AnnulRequest(r: nat, locked: nat)
    | CreateLegacyExpense(a: nat, amount: int)
    | UpdateExpense(e: nat, a: nat, amount: int)
    | AnnulExpense(e: nat)

  predicate HasStatus(r: nat, status: RequestStatus, db: Db) {
    r < |db.requests| && db.requests[r].status == status
  }

  /** Allocation a can take new requests and expenses: itself, its donation and its project are live. */
  predicate Operational(db: Db, a: nat)
    requires References(db)
  {
    && a < |db.allocations|
    && db.allocations[a].status == AllocationStatus.Active
    && db.donations[db.allocations[a].donation].status == Received
    && db.projects[db.allocations[a].project].status == ProjectStatus.Active
  }

  predicate CanFund(db: Db, d: nat, p: nat) {
    && d < |db.donations| && db.donations[d].status == Received
    && p < |db.projects| && db.projects[p].status == ProjectStatus.Active
  }

  predicate HasOpenRequest(db: Db, a: nat) {
    exists r :: 0 <= r < |db.requests| && db.requests[r].allocation == a && Open(db.requests[r])
  }

  /** Donation money not assigned to allocations other than a. */
  function UnassignedWithout(db: Db, d: nat, a: nat): int
    requires d < |db.donations|
  {
    db.donations[d].amount - Assigned(Without(db.allocations, a), d)
  }

  /** Capacity of allocation a for expense e's amount: e's own current amount does not count against it. */
  function FreeForExpense(db: Db, e: nat, a: nat): int
    requires e < |db.expenses| && a < |db.allocations|
  {
    Free(db, a) + if db.expenses[e].allocation == a then db.expenses[e].amount else 0
  }

  predicate Enabled(db: Db, op: Op)
    requires References(db)
  {
    match op
    case CreateDonation(amount, _) => amount > 0
    case UpdateDonation(d, amount, _) =>
      && d < |db.donations| && db.donations[d].status != DonationStatus.Annulled
      && amount > 0 && Assigned(db.allocations, d) <= amount
    case ReceiveDonation(d) =>
      d < |db.donations| && db.donations[d].status == DonationStatus.Registered && db.donations[d].hasReceivedDate
    case AnnulDonation(d) =>
      && d < |db.donations| && db.donations[d].status != DonationStatus.Annulled
      && (forall a :: 0 <= a < |db.allocations| && db.allocations[a].donation == d ==>
            db.allocations[a].status == AllocationStatus.Annulled)
    case CreateProject => true
    case FinishProject(p) =>
      && p < |db.projects| && db.projects[p].status == ProjectStatus.Active
      && (forall a :: 0 <= a < |db.allocations| && db.allocations[a].project == p ==>
            db.allocations[a].status != AllocationStatus.Active)
      && (forall r :: 0 <= r < |db.requests| && db.allocations[db.requests[r].allocation].project == p ==>
            !Open(db.requests[r]))
    case PublishProject(p) =>
      p < |db.projects| && db.projects[p].status == ProjectStatus.Active && !db.projects[p].isPublic
    case UnpublishProject(p) =>
      p < |db.projects| && db.projects[p].status == ProjectStatus.Active && db.projects[p].isPublic
    case CreateAllocation(d, p, amount) =>
      CanFund(db, d, p) && 0 < amount <= db.donations[d].amount - Assigned(db.allocations, d)
    case UpdateAllocation(a, d, p, amount) =>
      && a < |db.allocations| && db.allocations[a].status == AllocationStatus.Active
      && CanFund(db, d, p)
      && 0 < amount <= UnassignedWithout(db, d, a)
      && Executed(db.expenses, a) <= amount
    case FinishAllocation(a) =>
      && a < |db.allocations| && db.allocations[a].status == AllocationStatus.Active && !HasOpenRequest(db, a)
    case AnnulAllocation(a) =>
      && a < |db.allocations| && db.allocations[a].status == AllocationStatus.Active
      && (forall e :: 0 <= e < |db.expenses| && db.expenses[e].allocation == a ==>
            db.expenses[e].status == ExpenseStatus.Annulled)
    case CreateRequest(a, amount) => Operational(db, a) && amount > 0
    case UpdateRequest(r, reference, a, amount) =>
      && HasStatus(r, PendingDecision, db) && Operational(db, a) && amount > 0
      && (db.requests[r].allocation == reference || db.requests[r].allocation == a)
    case WithdrawRequest(r, locked) => locked < |db.allocations| && HasStatus(r, PendingDecision, db)
    case DenyRequest(r, locked) => locked < |db.allocations| && HasStatus(r, PendingDecision, db)
    case ApproveRequest(r, locked) =>
      && HasStatus(r, PendingDecision, db) && Operational(db, locked)
      && locked == db.requests[r].allocation
      && db.requests[r].requested <= Free(db, locked)
    case FulfillRequest(r, locked, amount) =>
      && HasStatus(r, ApprovedReserved, db) && Operational(db, locked)
      && locked == db.requests[r].allocation
      && 0 < amount <= Held(db.requests[r])
      && 0 <= Free(db, locked)
    case AnnulRequest(r, locked) =>
      && locked < |db.allocations|
      && (|| HasStatus(r, PendingDecision, db)
          || (&& HasStatus(r, ApprovedReserved, db)
              && locked == db.requests[r].allocation
              && 0 <= Free(db, locked)))
    case CreateLegacyExpense(a, amount) => Operational(db, a) && 0 < amount <= Free(db, a)
    case UpdateExpense(e, a, amount) =>
      && e < |db.expenses| && db.expenses[e].status == ExpenseStatus.Registered
      && a < |db.allocations|
      && (a != db.expenses[e].allocation ==> Operational(db, a) && LinkedRequest(db.requests, e).None?)
      && 0 < amount <= FreeForExpense(db, e, a)
    case AnnulExpense(e) => e < |db.expenses| && db.expenses[e].status == ExpenseStatus.Registered
  }

  // ---- Events ---------------------------------------------------------------------------

  function Plain(kind: EventType, toStatus: RequestStatus): Event {
    Event(kind, toStatus, None, None, None)
  }

  function ApprovalEvents(amount: int): seq<Event> {
    [Event(Approved, ApprovedReserved, Some(amount), None, None),
     Event(ReservationCreated, ApprovedReserved, Some(amount), None, None)]
  }

  function FulfillmentEvents(reserved: int, executed: int): seq<Event> {
    var released := reserved - executed;
    [Event(ExpenseRegistered, Fulfilled, Some(reserved), Some(executed), Some(released)),
     Event(ReservationConsumed, Fulfilled, Some(reserved), Some(executed), Some(released))]
    + if released > 0
      then [Event(UnusedReservationReleased, Fulfilled, Some(reserved), Some(executed), Some(released))]
      else []
  }

  function AnnulmentEvents(r: Request): seq<Event> {
    if Held(r) > 0
    then [Event(EventType.Annulled, RequestStatus.Annulled, r.reserved, None, Some(Held(r))),
          Event(ReservationReleased, RequestStatus.Annulled, Some(Held(r)), None, Some(Held(r)))]
    else [Event(EventType.Annulled, RequestStatus.Annulled, r.reserved, None, None)]
  }

  function ExpenseAnnulledEvent(amount: int): Event {
    Event(LinkedExpenseAnnulled, Fulfilled, None, Some(amount), Some(amount))
  }

  // ---- Effects --------------------------------------------------------------------------

  function SetRequest(db: Db, r: nat, row: Request): Db requires r < |db.requests| {
    db.(requests := db.requests[r := row])
  }

  function Logged(r: Request, events: seq<Event>): Request {
    r.(log := r.log + events)
  }

  function Moved(r: Request, status: RequestStatus, events: seq<Event>): Request {
    Logged(r.(status := status), events)
  }

  /** The fields approval writes before it re-checks the balance. */
  function Reserve(r: Request): Request {
    r.(status := ApprovedReserved, reserved := Some(r.requested))
  }

  function ApprovedRow(r: Request): Request {
    Logged(Reserve(r), ApprovalEvents(r.requested))
  }

  /** The fields fulfilment writes once its expense e exists. */
  function Link(r: Request, e: nat): Request {
    r.(status := Fulfilled, expense := Some(e))
  }

  function FulfilledRow(r: Request, e: nat, amount: int): Request {
    Logged(Link(r, e), FulfillmentEvents(Held(r), amount))
  }

  /** The rows fulfilment writes before it re-checks the balance. */
  function LinkedDb(db: Db, r: nat, locked: nat, amount: int): Db
    requires r < |db.requests|
  {
    SetRequest(db, r, Link(db.requests[r], |db.expenses|))
      .(expenses := db.expenses + [Expense(locked, amount, ExpenseStatus.Registered)])
  }

  /** The rows fulfilment leaves. */
  function FulfilledDb(db: Db, r: nat, locked: nat, amount: int): Db
    requires r < |db.requests|
  {
    SetRequest(db, r, FulfilledRow(db.requests[r], |db.expenses|, amount))
      .(expenses := db.expenses + [Expense(locked, amount, ExpenseStatus.Registered)])
  }

  /** The field annulment writes before it re-checks the balance. */
  function Cancel(r: Request): Request {
    r.(status := RequestStatus.Annulled)
  }

  function AnnulledRow(r: Request): Request {
    Logged(Cancel(r), AnnulmentEvents(r))
  }

  function NewRequest(a: nat, amount: int): Request {
    Request(a, amount, PendingDecision, None, None, [Plain(Created, PendingDecision)])
  }

  function UpdatedRow(r: Request, a: nat, amount: int): Request {
    Moved(r, PendingDecision, [Plain(Updated, PendingDecision)]).(allocation := a, requested := amount)
  }

  function DonationsAfter(db: Db, op: Op): seq<Donation>
    requires References(db) && Enabled(db, op)
  {
    match op
    case CreateDonation(amount, dated) => db.donations + [Donation(DonationStatus.Registered, amount, dated)]
    case UpdateDonation(d, amount, dated) =>
      db.donations[d := db.donations[d].(amount := amount, hasReceivedDate := dated)]
    case ReceiveDonation(d) => db.donations[d := db.donations[d].(status := Received)]
    case AnnulDonation(d) => db.donations[d := db.donations[d].(status := DonationStatus.Annulled)]
    case _ => db.donations
  }

  function ProjectsAfter(db: Db, op: Op): seq<Project>
    requires References(db) && Enabled(db, op)
  {
    match op
    case CreateProject => db.projects + [Project(ProjectStatus.Active, false)]
    case FinishProject(p) => db.projects[p := Project(Closed, false)]
    case PublishProject(p) => db.projects[p := db.projects[p].(isPublic := true)]
    case UnpublishProject(p) => db.projects[p := db.projects[p].(isPublic := false)]
    case _ => db.projects
  }

  function AllocationsAfter(db: Db, op: Op): seq<Allocation>
    requires References(db) && Enabled(db, op)
  {
    match op
    case CreateAllocation(d, p, amount) => db.allocations + [Allocation(d, p, amount, AllocationStatus.Active)]
    case UpdateAllocation(a, d, p, amount) => db.allocations[a := Allocation(d, p, amount, AllocationStatus.Active)]
    case FinishAllocation(a) => db.allocations[a := db.allocations[a].(status := Finished)]
    case AnnulAllocation(a) => db.allocations[a := db.allocations[a].(status := AllocationStatus.Annulled)]
    case _ => db.allocations
  }

  /** The request a service writes to, if it writes to an existing one. */
  function Touched(db: Db, op: Op): Option<nat> {
    match op
    case UpdateRequest(r, _, _, _) => Some(r)
    case WithdrawRequest(r, _) => Some(r)
    case DenyRequest(r, _) => Some(r)
    case ApproveRequest(r, _) => Some(r)
    case FulfillRequest(r, _, _) => Some(r)
    case AnnulRequest(r, _) => Some(r)
    case AnnulExpense(e) => LinkedRequest(db.requests, e)
    case _ => None
  }

  /** The row a service leaves for the request it touches. */
  function TouchedRow(db: Db, op: Op, r: Request): Request
    requires References(db) && Enabled(db, op)
  {
    match op
    case UpdateRequest(_, _, a, amount) => UpdatedRow(r, a, amount)
    case WithdrawRequest(_, _) =>
      Moved(r, RequestStatus.Withdrawn, [Plain(EventType.Withdrawn, RequestStatus.Withdrawn)])
    case DenyRequest(_, _) => Moved(r, RequestStatus.Denied, [Plain(EventType.Denied, RequestStatus.Denied)])
    case ApproveRequest(_, _) => ApprovedRow(r)
    case FulfillRequest(_, _, amount) => FulfilledRow(r, |db.expenses|, amount)
    case AnnulRequest(_, _) => AnnulledRow(r)
    case AnnulExpense(e) => Moved(r, r.status, [ExpenseAnnulledEvent(db.expenses[e].amount)])
    case _ => r
  }

  function RequestsAfter(db: Db, op: Op): seq<Request>
    requires References(db) && Enabled(db, op)
  {
    var touched := Touched(db, op);
    if touched.Some? then db.requests[touched.value := TouchedRow(db, op, db.requests[touched.value])]
    else if op.CreateRequest? then db.requests + [NewRequest(op.a, op.amount)]
    else db.requests
  }

  function ExpensesAfter(db: Db, op: Op): seq<Expense>
    requires References(db) && Enabled(db, op)
  {
    match op
    case FulfillRequest(_, locked, amount) => db.expenses + [Expense(locked, amount, ExpenseStatus.Registered)]
    case CreateLegacyExpense(a, amount) => db.expenses + [Expense(a, amount, ExpenseStatus.Registered)]
    case UpdateExpense(e, a, amount) => db.expenses[e := Expense(a, amount, ExpenseStatus.Registered)]
    case AnnulExpense(e) => db.expenses[e := db.expenses[e].(status := ExpenseStatus.Annulled)]
    case _ => db.expenses
  }

  /** The rows a committed service leaves, table by table. */
  function Effect(db: Db, op: Op): Db
    requires References(db) && Enabled(db, op)
  {
    Db(DonationsAfter(db, op), ProjectsAfter(db, op), AllocationsAfter(db, op),
       RequestsAfter(db, op), ExpensesAfter(db, op))
  }

  /** One service call as a transaction: it commits its effect or changes nothing. */
  function Apply(db: Db, op: Op): Db
    requires References(db)
  {
    if Enabled(db, op) then Effect(db, op) else db
  }
}
