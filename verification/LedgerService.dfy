/**
 The ledger services as the code runs them: look up the rows, run every layer of validation, write,
 re-read the balance, and roll back when a late check fails. Each method commits exactly when the
 simple rule of its operation says so, and then leaves exactly the rows of that rule. Model
 validation that can never reject at its place is a proof obligation there, not a branch.
 */
module LedgerService {
  import opened Wrappers
  import opened Sums
  import opened LedgerModel
  import opened LedgerRules
  import opened LedgerInvariant
  import opened Reservations

  datatype Error =
    | NotFound | Finalized | InvalidTransition | OpenWork
    | InvalidState | AlreadyDecided | AlreadyFulfilled | StaleReference
    | InvalidAmount | InvalidTarget | InsufficientBalance

  datatype Outcome = Committed | Refused(error: Error)

  function DonationTransitions(s: DonationStatus): set<DonationStatus> {
    match s
    case Registered => {Received, DonationStatus.Annulled}
    case Received => {DonationStatus.Annulled}
    case Annulled => {}
  }

  function AllocationTransitions(s: AllocationStatus): set<AllocationStatus> {
    match s
    case Active => {Finished, AllocationStatus.Annulled}
    case Finished => {}
    case Annulled => {}
  }

  /** Why a request that is not pending is turned away. */
  function NotPending(s: RequestStatus): Error {
    if s == ApprovedReserved || s == RequestStatus.Denied then AlreadyDecided else InvalidState
  }

  /** Amount and donation of an allocation the service guard takes, whatever else is wrong. */
  predicate FundsFit(db: Db, a: Option<nat>, d: nat, amount: int)
    requires d < |db.donations|
  {
    var others := if a.Some? then Without(db.allocations, a.value) else db.allocations;
    0 < amount <= db.donations[d].amount - Assigned(others, d)
  }

  /** The error a refused call is turned away with: the first thing wrong with it, in the order of the checks. */
  function Reason(db: Db, op: Op): Error
    requires References(db) && !Enabled(db, op)
  {
    match op
    case CreateDonation(_, _) => InvalidAmount
    case UpdateDonation(d, _, _) =>
      if d >= |db.donations| then NotFound
      else if db.donations[d].status == DonationStatus.Annulled then Finalized
      else InvalidAmount
    case ReceiveDonation(d) => if d >= |db.donations| then NotFound else InvalidTransition
    case AnnulDonation(d) =>
      if d >= |db.donations| then NotFound
      else if db.donations[d].status == DonationStatus.Annulled then InvalidTransition
      else OpenWork
    case FinishProject(p) =>
      if p >= |db.projects| then NotFound
      else if db.projects[p].status == Closed then InvalidTransition
      else OpenWork
    case PublishProject(p) => if p >= |db.projects| then NotFound else InvalidTransition
    case UnpublishProject(p) => if p >= |db.projects| then NotFound else InvalidTransition
    case CreateAllocation(d, p, _) =>
      if d >= |db.donations| || p >= |db.projects| then NotFound
      else if !CanFund(db, d, p) then InvalidTarget
      else InsufficientBalance
    case UpdateAllocation(a, d, p, amount) =>
      if a >= |db.allocations| then NotFound
      else if db.allocations[a].status != AllocationStatus.Active then Finalized
      else if d >= |db.donations| || p >= |db.projects| then NotFound
      else if !CanFund(db, d, p) then InvalidTarget
      else if !FundsFit(db, Some(a), d, amount) then InsufficientBalance
      else InvalidAmount
    case FinishAllocation(a) =>
      if a >= |db.allocations| then NotFound
      else if db.allocations[a].status != AllocationStatus.Active then InvalidTransition
      else OpenWork
    case AnnulAllocation(a) =>
      if a >= |db.allocations| then NotFound
      else if db.allocations[a].status != AllocationStatus.Active then InvalidTransition
      else OpenWork
    case CreateRequest(a, amount) =>
      if amount <= 0 then InvalidAmount else if a >= |db.allocations| then NotFound else InvalidTarget
    case UpdateRequest(r, reference, a, amount) =>
      if amount <= 0 then InvalidAmount
      else if r >= |db.requests| || a >= |db.allocations| then NotFound
      else if db.requests[r].status != PendingDecision then NotPending(db.requests[r].status)
      else if db.requests[r].allocation != reference && db.requests[r].allocation != a then StaleReference
      else InvalidTarget
    case WithdrawRequest(r, locked) => UndecidedReason(db, r, locked)
    case DenyRequest(r, locked) => UndecidedReason(db, r, locked)
    case ApproveRequest(r, locked) =>
      if r >= |db.requests| || locked >= |db.allocations| || db.requests[r].status != PendingDecision
      then UndecidedReason(db, r, locked)
      else if !Operational(db, locked) then InvalidTarget
      else InsufficientBalance
    case FulfillRequest(r, locked, amount) =>
      if r >= |db.requests| || locked >= |db.allocations| then NotFound
      else if db.requests[r].status == Fulfilled then AlreadyFulfilled
      else if db.requests[r].status != ApprovedReserved then InvalidState
      else if !Operational(db, locked) then InvalidTarget
      else if amount <= 0 || amount > Held(db.requests[r]) then InvalidAmount
      else InsufficientBalance
    case AnnulRequest(r, locked) =>
      if r >= |db.requests| || locked >= |db.allocations| then NotFound
      else if !Open(db.requests[r]) then InvalidState
      else InsufficientBalance
    case CreateLegacyExpense(a, _) =>
      if a >= |db.allocations| then NotFound else if !Operational(db, a) then InvalidTarget else InsufficientBalance
    case UpdateExpense(e, a, _) =>
      if e >= |db.expenses| || a >= |db.allocations| then NotFound
      else if db.expenses[e].status == ExpenseStatus.Annulled then Finalized
      else if a != db.expenses[e].allocation && (LinkedRequest(db.requests, e).Some? || !Operational(db, a))
      then InvalidTarget
      else InsufficientBalance
    case AnnulExpense(e) => if e >= |db.expenses| then NotFound else Finalized
  }

  function UndecidedReason(db: Db, r: nat, locked: nat): Error {
    if r >= |db.requests| || locked >= |db.allocations| then NotFound else NotPending(db.requests[r].status)
  }

  class Ledger {
    var donations: seq<Donation>
    var projects: seq<Project>
    var allocations: seq<Allocation>
    var requests: seq<Request>
    var expenses: seq<Expense>

    function State(): Db
      reads this
    {
      Db(donations, projects, allocations, requests, expenses)
    }

    ghost predicate Valid()
      reads this
    {
      Inv(State())
    }

    constructor ()
      ensures Valid() && State() == EMPTY
    {
      donations, projects, allocations, requests, expenses := [], [], [], [], [];
    }

    // ---- Donations and projects ---------------------------------------------------------

    method CreateDonation(amount: int, hasReceivedDate: bool) returns (out: Outcome)
      requires Valid()
      modifies this
      ensures Valid()
      ensures out.Committed? <==> Enabled(old(State()), Op.CreateDonation(amount, hasReceivedDate))
      ensures State() == Apply(old(State()), Op.CreateDonation(amount, hasReceivedDate))
      ensures out.Refused? ==> out.error == Reason(old(State()), Op.CreateDonation(amount, hasReceivedDate))
    {
      ghost var before := State();
      if amount <= 0 {
        return Refused(InvalidAmount);
      }
      assert DonationClean(State(), None, amount);
      donations := donations + [Donation(DonationStatus.Registered, amount, hasReceivedDate)];
      StepKeepsInvariant(before, Op.CreateDonation(amount, hasReceivedDate));
      return Committed;
    }

    method UpdateDonation(d: nat, amount: int, hasReceivedDate: bool) returns (out: Outcome)
      requires Valid()
      modifies this
      ensures Valid()
      ensures out.Committed? <==> Enabled(old(State()), Op.UpdateDonation(d, amount, hasReceivedDate))
      ensures State() == Apply(old(State()), Op.UpdateDonation(d, amount, hasReceivedDate))
      ensures out.Refused? ==> out.error == Reason(old(State()), Op.UpdateDonation(d, amount, hasReceivedDate))
    {
      ghost var before := State();
      if d >= |donations| {
        return Refused(NotFound);
      }
      if donations[d].status == DonationStatus.Annulled {
        return Refused(Finalized);
      }
      if amount <= 0 || amount < Assigned(allocations, d) {
        return Refused(InvalidAmount);
      }
      assert DonationClean(State(), Some(d), amount);
      donations := donations[d := donations[d].(amount := amount, hasReceivedDate := hasReceivedDate)];
      StepKeepsInvariant(before, Op.UpdateDonation(d, amount, hasReceivedDate));
      return Committed;
    }

    /** Only the reception of a registered donation passes: other targets are refused or need their own action. */
    method TransitionDonationStatus(d: nat, target: DonationStatus) returns (out: Outcome)
      requires Valid()
      modifies this
      ensures Valid()
      ensures out.Committed? <==> target == Received && Enabled(old(State()), ReceiveDonation(d))
      ensures State() == if out.Committed? then Effect(old(State()), ReceiveDonation(d)) else old(State())
      ensures out.Refused? ==>
                out.error == if target != DonationStatus.Annulled && d >= |old(donations)| then NotFound
                             else InvalidTransition
    {
      ghost var before := State();
      if target == DonationStatus.Annulled {
        return Refused(InvalidTransition);
      }
      if d >= |donations| {
        return Refused(NotFound);
      }
      if target !in DonationTransitions(donations[d].status) {
        return Refused(InvalidTransition);
      }
      if target == Received && !donations[d].hasReceivedDate {
        return Refused(InvalidTransition);
      }
      assert DonationOk(State(), d) && DonationClean(State(), Some(d), donations[d].amount);
      donations := donations[d := donations[d].(status := target)];
      StepKeepsInvariant(before, ReceiveDonation(d));
      return Committed;
    }

    method AnnulDonation(d: nat) returns (out: Outcome)
      requires Valid()
      modifies this
      ensures Valid()
      ensures out.Committed? <==> Enabled(old(State()), Op.AnnulDonation(d))
      ensures State() == Apply(old(State()), Op.AnnulDonation(d))
      ensures out.Refused? ==> out.error == Reason(old(State()), Op.AnnulDonation(d))
    {
      ghost var before := State();
      if d >= |donations| {
        return Refused(NotFound);
      }
      if DonationStatus.Annulled !in DonationTransitions(donations[d].status) {
        return Refused(InvalidTransition);
      }
      if exists a :: 0 <= a < |allocations| && allocations[a].donation == d
                     && allocations[a].status != AllocationStatus.Annulled {
        return Refused(OpenWork);
      }
      donations := donations[d := donations[d].(status := DonationStatus.Annulled)];
      StepKeepsInvariant(before, Op.AnnulDonation(d));
      return Committed;
    }

    method CreateProject() returns (out: Outcome)
      requires Valid()
      modifies this
      ensures Valid()
      ensures out.Committed?
      ensures State() == Effect(old(State()), Op.CreateProject)
    {
      ghost var before := State();
      projects := projects + [Project(ProjectStatus.Active, false)];
      StepKeepsInvariant(before, Op.CreateProject);
      return Committed;
    }

    method FinishProject(p: nat) returns (out: Outcome)
      requires Valid()
      modifies this
      ensures Valid()
      ensures out.Committed? <==> Enabled(old(State()), Op.FinishProject(p))
      ensures State() == Apply(old(State()), Op.FinishProject(p))
      ensures out.Refused? ==> out.error == Reason(old(State()), Op.FinishProject(p))
    {
      ghost var before := State();
      if p >= |projects| {
        return Refused(NotFound);
      }
      if projects[p].status != ProjectStatus.Active {
        return Refused(InvalidTransition);
      }
      if exists a :: 0 <= a < |allocations| && allocations[a].project == p
                     && allocations[a].status == AllocationStatus.Active {
        return Refused(OpenWork);
      }
      if exists r :: 0 <= r < |requests| && allocations[requests[r].allocation].project == p && Open(requests[r]) {
        return Refused(OpenWork);
      }
      projects := projects[p := projects[p].(status := Closed, isPublic := false)];
      StepKeepsInvariant(before, Op.FinishProject(p));
      return Committed;
    }

    method PublishProject(p: nat) returns (out: Outcome)
      requires Valid()
      modifies this
      ensures Valid()
      ensures out.Committed? <==> Enabled(old(State()), Op.PublishProject(p))
      ensures State() == Apply(old(State()), Op.PublishProject(p))
      ensures out.Refused? ==> out.error == Reason(old(State()), Op.PublishProject(p))
    {
      ghost var before := State();
      if p >= |projects| {
        return Refused(NotFound);
      }
      if projects[p].status != ProjectStatus.Active || projects[p].isPublic {
        return Refused(InvalidTransition);
      }
      projects := projects[p := projects[p].(isPublic := true)];
      StepKeepsInvariant(before, Op.PublishProject(p));
      return Committed;
    }

    method UnpublishProject(p: nat) returns (out: Outcome)
      requires Valid()
      modifies this
      ensures Valid()
      ensures out.Committed? <==> Enabled(old(State()), Op.UnpublishProject(p))
      ensures State() == Apply(old(State()), Op.UnpublishProject(p))
      ensures out.Refused? ==> out.error == Reason(old(State()), Op.UnpublishProject(p))
    {
      ghost var before := State();
      if p >= |projects| {
        return Refused(NotFound);
      }
      if projects[p].status != ProjectStatus.Active || !projects[p].isPublic {
        return Refused(InvalidTransition);
      }
      projects := projects[p := projects[p].(isPublic := false)];
      StepKeepsInvariant(before, Op.UnpublishProject(p));
      return Committed;
    }

    // ---- Fund allocations ---------------------------------------------------------------

    method CreateFundAllocation(d: nat, p: nat, amount: int) returns (out: Outcome)
      requires Valid()
      modifies this
      ensures Valid()
      ensures out.Committed? <==> Enabled(old(State()), CreateAllocation(d, p, amount))
      ensures State() == Apply(old(State()), CreateAllocation(d, p, amount))
      ensures out.Refused? ==> out.error == Reason(old(State()), CreateAllocation(d, p, amount))
    {
      ghost var before := State();
      if d >= |donations| || p >= |projects| {
        return Refused(NotFound);
      }
      if donations[d].status != Received || projects[p].status != ProjectStatus.Active {
        return Refused(InvalidTarget);
      }
      if !AllocationFits(State(), d, amount, None) {
        return Refused(InsufficientBalance);
      }
      AllocationLayersAgree(State(), None, d, amount);
      assert AllocationClean(State(), None, d, amount);
      allocations := allocations + [Allocation(d, p, amount, AllocationStatus.Active)];
      StepKeepsInvariant(before, CreateAllocation(d, p, amount));
      return Committed;
    }

    method UpdateFundAllocation(a: nat, d: nat, p: nat, amount: int) returns (out: Outcome)
      requires Valid()
      modifies this
      ensures Valid()
      ensures out.Committed? <==> Enabled(old(State()), UpdateAllocation(a, d, p, amount))
      ensures State() == Apply(old(State()), UpdateAllocation(a, d, p, amount))
      ensures out.Refused? ==> out.error == Reason(old(State()), UpdateAllocation(a, d, p, amount))
    {
      ghost var before := State();
      if a >= |allocations| {
        return Refused(NotFound);
      }
      if allocations[a].status != AllocationStatus.Active {
        return Refused(Finalized);
      }
      if d >= |donations| || p >= |projects| {
        return Refused(NotFound);
      }
      if donations[d].status != Received || projects[p].status != ProjectStatus.Active {
        return Refused(InvalidTarget);
      }
      if !AllocationFits(State(), d, amount, Some(a)) {
        return Refused(InsufficientBalance);
      }
      if amount < Executed(expenses, a) {
        return Refused(InvalidAmount);
      }
      AllocationLayersAgree(State(), Some(a), d, amount);
      assert AllocationClean(State(), Some(a), d, amount);
      allocations := allocations[a := Allocation(d, p, amount, AllocationStatus.Active)];
      StepKeepsInvariant(before, UpdateAllocation(a, d, p, amount));
      return Committed;
    }

    method FinishFundAllocation(a: nat) returns (out: Outcome)
      requires Valid()
      modifies this
      ensures Valid()
      ensures out.Committed? <==> Enabled(old(State()), FinishAllocation(a))
      ensures State() == Apply(old(State()), FinishAllocation(a))
      ensures out.Refused? ==> out.error == Reason(old(State()), FinishAllocation(a))
    {
      ghost var before := State();
      if a >= |allocations| {
        return Refused(NotFound);
      }
      if Finished !in AllocationTransitions(allocations[a].status) {
        return Refused(InvalidTransition);
      }
      if HasOpenRequest(State(), a) {
        return Refused(OpenWork);
      }
      allocations := allocations[a := allocations[a].(status := Finished)];
      StepKeepsInvariant(before, FinishAllocation(a));
      return Committed;
    }

    /** Open requests on the allocation are not looked at: they may outlive it. */
    method AnnulFundAllocation(a: nat) returns (out: Outcome)
      requires Valid()
      modifies this
      ensures Valid()
      ensures out.Committed? <==> Enabled(old(State()), AnnulAllocation(a))
      ensures State() == Apply(old(State()), AnnulAllocation(a))
      ensures out.Refused? ==> out.error == Reason(old(State()), AnnulAllocation(a))
    {
      ghost var before := State();
      if a >= |allocations| {
        return Refused(NotFound);
      }
      if AllocationStatus.Annulled !in AllocationTransitions(allocations[a].status) {
        return Refused(InvalidTransition);
      }
      if exists e :: 0 <= e < |expenses| && expenses[e].allocation == a
                     && expenses[e].status != ExpenseStatus.Annulled {
        return Refused(OpenWork);
      }
      allocations := allocations[a := allocations[a].(status := AllocationStatus.Annulled)];
      StepKeepsInvariant(before, AnnulAllocation(a));
      return Committed;
    }

    // ---- Expense requests ---------------------------------------------------------------

    method CreateExpenseRequest(a: nat, amount: int) returns (out: Outcome)
      requires Valid()
      modifies this
      ensures Valid()
      ensures out.Committed? <==> Enabled(old(State()), CreateRequest(a, amount))
      ensures State() == Apply(old(State()), CreateRequest(a, amount))
      ensures out.Refused? ==> out.error == Reason(old(State()), CreateRequest(a, amount))
    {
      ghost var before := State();
      if amount <= 0 {
        return Refused(InvalidAmount);
      }
      if a >= |allocations| {
        return Refused(NotFound);
      }
      if !Operational(State(), a) {
        return Refused(InvalidTarget);
      }
      var row := Request(a, amount, PendingDecision, None, None, []);
      assert RequestClean(row);
      row := Logged(row, [Plain(Created, PendingDecision)]);
      assert row.log == [Plain(Created, PendingDecision)];
      requests := requests + [row];
      StepKeepsInvariant(before, CreateRequest(a, amount));
      return Committed;
    }

    /** `reference` is the allocation id read before the locks: the request may have left it since. */
    method UpdateExpenseRequest(r: nat, reference: nat, a: nat, amount: int) returns (out: Outcome)
      requires Valid()
      modifies this
      ensures Valid()
      ensures out.Committed? <==> Enabled(old(State()), UpdateRequest(r, reference, a, amount))
      ensures State() == Apply(old(State()), UpdateRequest(r, reference, a, amount))
      ensures out.Refused? ==> out.error == Reason(old(State()), UpdateRequest(r, reference, a, amount))
    {
      ghost var before := State();
      if amount <= 0 {
        return Refused(InvalidAmount);
      }
      if r >= |requests| || a >= |allocations| {
        return Refused(NotFound);
      }
      var lockedAllocations := {reference, a};
      if requests[r].status != PendingDecision {
        return Refused(NotPending(requests[r].status));
      }
      if requests[r].allocation !in lockedAllocations {
        return Refused(StaleReference);
      }
      if !Operational(State(), a) {
        return Refused(InvalidTarget);
      }
      var row := requests[r].(allocation := a, requested := amount);
      RequestShape(State(), r);
      assert RequestClean(row);
      requests := requests[r := Logged(row, [Plain(Updated, PendingDecision)])];
      StepKeepsInvariant(before, UpdateRequest(r, reference, a, amount));
      return Committed;
    }

    method WithdrawExpenseRequest(r: nat, locked: nat) returns (out: Outcome)
      requires Valid()
      modifies this
      ensures Valid()
      ensures out.Committed? <==> Enabled(old(State()), WithdrawRequest(r, locked))
      ensures State() == Apply(old(State()), WithdrawRequest(r, locked))
      ensures out.Refused? ==> out.error == Reason(old(State()), WithdrawRequest(r, locked))
    {
      ghost var before := State();
      if r >= |requests| || locked >= |allocations| {
        return Refused(NotFound);
      }
      if requests[r].status != PendingDecision {
        return Refused(NotPending(requests[r].status));
      }
      var row := requests[r].(status := RequestStatus.Withdrawn);
      RequestShape(State(), r);
      assert RequestClean(row);
      requests := requests[r := Logged(row, [Plain(EventType.Withdrawn, RequestStatus.Withdrawn)])];
      StepKeepsInvariant(before, WithdrawRequest(r, locked));
      return Committed;
    }

    method DenyExpenseRequest(r: nat, locked: nat) returns (out: Outcome)
      requires Valid()
      modifies this
      ensures Valid()
      ensures out.Committed? <==> Enabled(old(State()), DenyRequest(r, locked))
      ensures State() == Apply(old(State()), DenyRequest(r, locked))
      ensures out.Refused? ==> out.error == Reason(old(State()), DenyRequest(r, locked))
    {
      ghost var before := State();
      if r >= |requests| || locked >= |allocations| {
        return Refused(NotFound);
      }
      if requests[r].status != PendingDecision {
        return Refused(NotPending(requests[r].status));
      }
      var row := requests[r].(status := RequestStatus.Denied);
      RequestShape(State(), r);
      assert RequestClean(row);
      requests := requests[r := Logged(row, [Plain(EventType.Denied, RequestStatus.Denied)])];
      StepKeepsInvariant(before, DenyRequest(r, locked));
      return Committed;
    }

    /** `locked` is the allocation the request had when it was read without a lock. */
    method ApproveExpenseRequest(r: nat, locked: nat) returns (out: Outcome)
      requires Valid()
      modifies this
      ensures Valid()
      ensures out.Committed? <==> Enabled(old(State()), ApproveRequest(r, locked))
      ensures State() == Apply(old(State()), ApproveRequest(r, locked))
      ensures out.Refused? ==> out.error == Reason(old(State()), ApproveRequest(r, locked))
      // A request that moved after it was read is caught by the balance checks alone.
      ensures (old(HasStatus(r, PendingDecision, State()) && Operational(State(), locked))
               && locked != old(requests)[r].allocation) ==> out == Refused(InsufficientBalance)
    {
      ghost var before := State();
      if r >= |requests| || locked >= |allocations| {
        return Refused(NotFound);
      }
      RequestShape(State(), r);
      if requests[r].status != PendingDecision {
        return Refused(NotPending(requests[r].status));
      }
      if !Operational(State(), locked) {
        return Refused(InvalidTarget);
      }
      ApproveChecksExact(State(), r, locked);
      var savepoint := requests;
      var balanceBefore := AvailableBalance(State(), locked, Some(r));
      var requested := requests[r].requested;
      if requested > balanceBefore {
        return Refused(InsufficientBalance);
      }
      assert RequestClean(Reserve(requests[r]));
      requests := requests[r := requests[r].(status := ApprovedReserved, reserved := Some(requested))];
      var balanceAfter := AvailableBalance(State(), locked, None);
      if balanceAfter != balanceBefore - requested {
        requests := savepoint;
        return Refused(InsufficientBalance);
      }
      requests := requests[r := Logged(requests[r], ApprovalEvents(requested))];
      assert requests == savepoint[r := ApprovedRow(savepoint[r])];
      StepKeepsInvariant(before, ApproveRequest(r, locked));
      return Committed;
    }

    /** Creates the expense under the credit of the reservation and links it to the request. */
    method CreateLinkedExpense(r: nat, locked: nat, amount: int, reserved: int) returns (linked: bool)
      requires References(State()) && Operational(State(), locked)
      requires HasStatus(r, ApprovedReserved, State()) && RequestClean(requests[r])
      modifies this`requests, this`expenses
      ensures linked <==>
              && ExpenseFits(old(State()), locked, amount, None, reserved)
              && ExpenseClean(old(State()), None, locked, amount, ReservedByOthers(old(State()), r, locked))
      ensures State() == if linked then LinkedDb(old(State()), r, locked, amount) else old(State())
    {
      var refusal := CreateExpenseLocked(locked, amount, ReservedByOthers(State(), r, locked), reserved);
      if refusal.Some? {
        return false;
      }
      assert RequestClean(Link(requests[r], |expenses| - 1));
      requests := requests[r := requests[r].(status := Fulfilled, expense := Some(|expenses| - 1))];
      return true;
    }

    /** Creates the expense, links it, and rolls both back unless the balance moved by exactly the release. */
    method ConsumeReservation(r: nat, locked: nat, amount: int, reserved: int) returns (consolidated: bool)
      requires References(State()) && Operational(State(), locked)
      requires HasStatus(r, ApprovedReserved, State()) && RequestClean(requests[r])
      requires reserved == Held(requests[r]) && 0 < amount <= reserved
      modifies this`requests, this`expenses
      ensures consolidated <==> FulfillChecks(old(State()), r, locked, amount)
      ensures State() == if consolidated then FulfilledDb(old(State()), r, locked, amount) else old(State())
    {
      var savepoint := State();
      var released := reserved - amount;
      var balanceBefore := AvailableBalance(State(), locked, None);
      var linked := CreateLinkedExpense(r, locked, amount, reserved);
      if !linked {
        return false;
      }
      var balanceAfter := AvailableBalance(State(), locked, None);
      if balanceAfter != balanceBefore + released {
        requests, expenses := savepoint.requests, savepoint.expenses;
        return false;
      }
      requests := requests[r := Logged(requests[r], FulfillmentEvents(reserved, amount))];
      assert requests == savepoint.requests[r := FulfilledRow(savepoint.requests[r], |savepoint.expenses|, amount)];
      return true;
    }

    method FulfillExpenseRequest(r: nat, locked: nat, amount: int) returns (out: Outcome)
      requires Valid()
      modifies this
      ensures Valid()
      ensures out.Committed? <==> Enabled(old(State()), FulfillRequest(r, locked, amount))
      ensures State() == Apply(old(State()), FulfillRequest(r, locked, amount))
      ensures out.Refused? ==> out.error == Reason(old(State()), FulfillRequest(r, locked, amount))
      ensures (old(HasStatus(r, ApprovedReserved, State()) && Operational(State(), locked))
               && 0 < amount <= Held(old(requests)[r])
               && (locked != old(requests)[r].allocation || Free(old(State()), locked) < 0)) ==>
                out == Refused(InsufficientBalance)
    {
      ghost var before := State();
      if r >= |requests| || locked >= |allocations| {
        return Refused(NotFound);
      }
      RequestShape(State(), r);
      if requests[r].status == Fulfilled || requests[r].expense.Some? {
        return Refused(AlreadyFulfilled);
      }
      if requests[r].status != ApprovedReserved {
        return Refused(InvalidState);
      }
      if !Operational(State(), locked) {
        return Refused(InvalidTarget);
      }
      var reserved := requests[r].reserved.value;
      if amount <= 0 || amount > reserved {
        return Refused(InvalidAmount);
      }
      FulfillChecksExact(State(), r, locked, amount);
      var consolidated := ConsumeReservation(r, locked, amount, reserved);
      if !consolidated {
        return Refused(InsufficientBalance);
      }
      StepKeepsInvariant(before, FulfillRequest(r, locked, amount));
      return Committed;
    }

    method AnnulExpenseRequest(r: nat, locked: nat) returns (out: Outcome)
      requires Valid()
      modifies this
      ensures Valid()
      ensures out.Committed? <==> Enabled(old(State()), AnnulRequest(r, locked))
      ensures State() == Apply(old(State()), AnnulRequest(r, locked))
      ensures out.Refused? ==> out.error == Reason(old(State()), AnnulRequest(r, locked))
      ensures (old(HasStatus(r, ApprovedReserved, State())) && locked < |old(allocations)|
               && (locked != old(requests)[r].allocation || Free(old(State()), locked) < 0)) ==>
                out == Refused(InsufficientBalance)
    {
      ghost var before := State();
      if r >= |requests| || locked >= |allocations| {
        return Refused(NotFound);
      }
      RequestShape(State(), r);
      if requests[r].expense.Some? || !Open(requests[r]) {
        return Refused(InvalidState);
      }
      AnnulChecksExact(State(), r, locked);
      var savepoint := requests;
      var released := Held(requests[r]);
      var events := AnnulmentEvents(requests[r]);
      var balanceBefore := AvailableBalance(State(), locked, None);
      assert RequestClean(Cancel(requests[r]));
      requests := requests[r := requests[r].(status := RequestStatus.Annulled)];
      var balanceAfter := AvailableBalance(State(), locked, None);
      if balanceAfter != balanceBefore + released {
        requests := savepoint;
        return Refused(InsufficientBalance);
      }
      requests := requests[r := Logged(requests[r], events)];
      assert requests == savepoint[r := AnnulledRow(savepoint[r])];
      StepKeepsInvariant(before, AnnulRequest(r, locked));
      return Committed;
    }

    // ---- Expenses -----------------------------------------------------------------------

    /**
     The part fulfilment and the legacy path share, once the parents are locked: `reserved` is the
     reserved total the allocation object carries, `credit` the reservation being consumed.
     */
    method CreateExpenseLocked(a: nat, amount: int, reserved: int, credit: int) returns (refusal: Option<Error>)
      requires References(State()) && a < |allocations|
      modifies this`expenses
      ensures refusal.Some? ==>
                refusal.value == if allocations[a].status != AllocationStatus.Active
                                    || projects[allocations[a].project].status == Closed
                                 then InvalidTarget else InsufficientBalance
      ensures refusal.None? <==>
              && allocations[a].status == AllocationStatus.Active
              && projects[allocations[a].project].status != Closed
              && ExpenseFits(old(State()), a, amount, None, credit)
              && ExpenseClean(old(State()), None, a, amount, reserved)
      ensures expenses == if refusal.None? then old(expenses) + [Expense(a, amount, ExpenseStatus.Registered)]
                          else old(expenses)
    {
      if allocations[a].status != AllocationStatus.Active || projects[allocations[a].project].status == Closed {
        return Some(InvalidTarget);
      }
      if !ExpenseFits(State(), a, amount, None, credit) {
        return Some(InsufficientBalance);
      }
      if !ExpenseClean(State(), None, a, amount, reserved) {
        return Some(InsufficientBalance);
      }
      expenses := expenses + [Expense(a, amount, ExpenseStatus.Registered)];
      return None;
    }

    method CreateExpenseLegacy(a: nat, amount: int) returns (out: Outcome)
      requires Valid()
      modifies this
      ensures Valid()
      ensures out.Committed? <==> Enabled(old(State()), CreateLegacyExpense(a, amount))
      ensures State() == Apply(old(State()), CreateLegacyExpense(a, amount))
      ensures out.Refused? ==> out.error == Reason(old(State()), CreateLegacyExpense(a, amount))
    {
      ghost var before := State();
      if a >= |allocations| {
        return Refused(NotFound);
      }
      assert AllocationOk(before, a);
      var refusal := CreateExpenseLocked(a, amount, Reserved(requests, a), 0);
      if refusal.Some? {
        return Refused(refusal.value);
      }
      StepKeepsInvariant(before, CreateLegacyExpense(a, amount));
      return Committed;
    }

    method UpdateExpense(e: nat, a: nat, amount: int) returns (out: Outcome)
      requires Valid()
      modifies this
      ensures Valid()
      ensures out.Committed? <==> Enabled(old(State()), Op.UpdateExpense(e, a, amount))
      ensures State() == Apply(old(State()), Op.UpdateExpense(e, a, amount))
      ensures out.Refused? ==> out.error == Reason(old(State()), Op.UpdateExpense(e, a, amount))
    {
      ghost var before := State();
      if e >= |expenses| || a >= |allocations| {
        return Refused(NotFound);
      }
      if expenses[e].status != ExpenseStatus.Registered {
        return Refused(Finalized);
      }
      if a != expenses[e].allocation {
        if LinkedRequest(requests, e).Some? {
          return Refused(InvalidTarget);
        }
        if !Operational(State(), a) {
          return Refused(InvalidTarget);
        }
      }
      var excluded := if expenses[e].allocation == a then Some(e) else None;
      ExpenseFitsExact(State(), e, a, amount);
      if !ExpenseFits(State(), a, amount, excluded, 0) {
        return Refused(InsufficientBalance);
      }
      ExpenseLayersAgree(State(), e, a, amount);
      assert ExpenseClean(State(), Some(e), a, amount, Reserved(requests, a));
      expenses := expenses[e := Expense(a, amount, ExpenseStatus.Registered)];
      StepKeepsInvariant(before, Op.UpdateExpense(e, a, amount));
      return Committed;
    }

    method AnnulExpense(e: nat) returns (out: Outcome)
      requires Valid()
      modifies this
      ensures Valid()
      ensures out.Committed? <==> Enabled(old(State()), Op.AnnulExpense(e))
      ensures State() == Apply(old(State()), Op.AnnulExpense(e))
      ensures out.Refused? ==> out.error == Reason(old(State()), Op.AnnulExpense(e))
    {
      ghost var before := State();
      if e >= |expenses| {
        return Refused(NotFound);
      }
      if expenses[e].status != ExpenseStatus.Registered {
        return Refused(Finalized);
      }
      assert ExpenseOk(State(), e);
      assert ExpenseClean(State(), Some(e), expenses[e].allocation, expenses[e].amount,
                          Reserved(requests, expenses[e].allocation));
      var linked := LinkedRequest(requests, e);
      // A linked request is always a fulfilled one, so its status check cannot refuse.
      if linked.Some? {
        RequestShape(State(), linked.value);
        assert requests[linked.value].status == Fulfilled;
      }
      expenses := expenses[e := expenses[e].(status := ExpenseStatus.Annulled)];
      if linked.Some? {
        var events := [ExpenseAnnulledEvent(expenses[e].amount)];
        requests := requests[linked.value := Logged(requests[linked.value], events)];
      }
      StepKeepsInvariant(before, Op.AnnulExpense(e));
      return Committed;
    }
  }
}
