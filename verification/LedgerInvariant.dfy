/**
 The invariant of the ledger, row by row, and the proof that every service keeps it. The bounds on
 the nested sums (assigned <= donated, executed <= allocated) need guards of different services at
 once: e.g. an annulled allocation may be dropped from a donation's total only because no service
 leaves an effective expense on it.
 */
module LedgerInvariant {
  import opened Wrappers
  import opened Sums
  import opened LedgerModel
  import opened LedgerRules
  import opened EventLog

  predicate DonationOk(db: Db, d: nat)
    requires d < |db.donations|
  {
    db.donations[d].amount > 0 && Assigned(db.allocations, d) <= db.donations[d].amount
  }

  predicate ProjectOk(db: Db, p: nat)
    requires p < |db.projects|
  {
    db.projects[p].status == Closed ==> !db.projects[p].isPublic
  }

  predicate AllocationOk(db: Db, a: nat)
    requires References(db) && a < |db.allocations|
  {
    var x := db.allocations[a];
    && x.amount > 0
    && Executed(db.expenses, a) <= x.amount
    && (x.status != AllocationStatus.Annulled ==> db.donations[x.donation].status == Received)
    && (x.status == AllocationStatus.Active ==> db.projects[x.project].status == ProjectStatus.Active)
  }

  predicate ExpenseOk(db: Db, e: nat)
    requires References(db) && e < |db.expenses|
  {
    var x := db.expenses[e];
    && x.amount > 0
    && (x.status == ExpenseStatus.Registered ==> db.allocations[x.allocation].status != AllocationStatus.Annulled)
  }

  /** The phase the log of a request must have reached. */
  predicate StandsAt(p: Phase, r: Request, expenses: seq<Expense>) {
    match r.status
    case PendingDecision => p == Pending
    case ApprovedReserved => p == Holding
    case Denied => p == Phase.Denied
    case Withdrawn => p == Phase.Withdrawn
    case Annulled => p == if r.reserved.None? then Cancelled else Released
    case Fulfilled =>
      && r.expense.Some? && r.expense.value < |expenses|
      && if expenses[r.expense.value].status == ExpenseStatus.Annulled
         then p == ExpenseGone
         else p == Consumed || p == ConsumedInPart
  }

  /** The log tells the request's status, reservation and linked expense. */
  predicate Faithful(r: Request, expenses: seq<Expense>) {
    && Read(r.log).Some? && StandsAt(Read(r.log).value, r, expenses)
    && r.log != [] && r.log[|r.log| - 1].toStatus == r.status
    && NetReserved(r.log) == Held(r)
  }

  predicate RequestOk(db: Db, r: nat)
    requires References(db) && r < |db.requests|
  {
    var x := db.requests[r];
    && RequestClean(x)
    && (x.reserved.Some? ==> x.reserved.value == x.requested)
    && (Open(x) ==> && db.allocations[x.allocation].status != Finished
                    && db.projects[db.allocations[x.allocation].project].status == ProjectStatus.Active)
    && (x.expense.Some? ==> x.expense.value < |db.expenses|
                            && db.expenses[x.expense.value].allocation == x.allocation)
    && Faithful(x, db.expenses)
  }

  /** One request per linked expense. */
  predicate LinksInjective(db: Db) {
    forall r, q :: 0 <= r < |db.requests| && 0 <= q < |db.requests| && r != q && db.requests[r].expense.Some? ==>
      db.requests[r].expense != db.requests[q].expense
  }

  predicate Inv(db: Db) {
    && References(db)
    && (forall d :: 0 <= d < |db.donations| ==> DonationOk(db, d))
    && (forall p :: 0 <= p < |db.projects| ==> ProjectOk(db, p))
    && (forall a :: 0 <= a < |db.allocations| ==> AllocationOk(db, a))
    && (forall e :: 0 <= e < |db.expenses| ==> ExpenseOk(db, e))
    && (forall r :: 0 <= r < |db.requests| ==> RequestOk(db, r))
    && LinksInjective(db)
  }

  const EMPTY := Db([], [], [], [], [])

  /** What a request row looks like, whatever its history. */
  lemma RequestShape(db: Db, r: nat)
    requires Inv(db) && r < |db.requests|
    ensures RequestClean(db.requests[r])
    ensures db.requests[r].reserved.Some? ==> db.requests[r].reserved.value == db.requests[r].requested
  {
    assert RequestOk(db, r);
  }

  // ---- Each table in turn ---------------------------------------------------------------

  lemma AllocationsKeepReferences(db: Db, op: Op)
    requires Inv(db) && Enabled(db, op)
    ensures var after := Effect(db, op);
            forall a :: 0 <= a < |after.allocations| ==>
              after.allocations[a].donation < |after.donations| && after.allocations[a].project < |after.projects|
  {
  }

  lemma RequestsKeepReferences(db: Db, op: Op)
    requires Inv(db) && Enabled(db, op)
    ensures var after := Effect(db, op);
            forall r :: 0 <= r < |after.requests| ==> after.requests[r].allocation < |after.allocations|
  {
  }

  lemma ExpensesKeepReferences(db: Db, op: Op)
    requires Inv(db) && Enabled(db, op)
    ensures var after := Effect(db, op);
            forall e :: 0 <= e < |after.expenses| ==> after.expenses[e].allocation < |after.allocations|
  {
  }

  lemma KeepsReferences(db: Db, op: Op)
    requires Inv(db) && Enabled(db, op)
    ensures References(Effect(db, op))
  {
    AllocationsKeepReferences(db, op);
    RequestsKeepReferences(db, op);
    ExpensesKeepReferences(db, op);
  }

  lemma NoAllocationYet(allocations: seq<Allocation>, d: nat)
    requires forall a :: 0 <= a < |allocations| ==> allocations[a].donation != d
    ensures Assigned(allocations, d) == 0
  {
    SumEqual(allocations, AssignedWeight(d), (_: Allocation) => 0);
    SumZero(allocations);
  }

  lemma {:induction false} SumZero<T>(rows: seq<T>)
    ensures SumBy(rows, (_: T) => 0) == 0
  {
    if rows != [] {
      SumZero(rows[..|rows| - 1]);
    }
  }

  lemma ResizedAssigned(allocations: seq<Allocation>, a: nat, row: Allocation, d: nat)
    requires a < |allocations| && row.status == AllocationStatus.Active
    ensures Assigned(allocations[a := row], d)
            == Assigned(Without(allocations, a), d) + if row.donation == d then row.amount else 0
  {
    SumUpdate(allocations, a, row, AssignedWeight(d));
    SumWithout(allocations, a, AssignedWeight(d));
  }

  /** How a step changes the assigned total of one donation. */
  lemma AssignedAfter(db: Db, op: Op, d: nat)
    requires References(db) && Enabled(db, op)
    ensures Assigned(AllocationsAfter(db, op), d) ==
      match op
      case CreateAllocation(donation, _, amount) =>
        Assigned(db.allocations, d) + if donation == d then amount else 0
      case UpdateAllocation(a, donation, _, amount) =>
        Assigned(Without(db.allocations, a), d) + if donation == d then amount else 0
      case AnnulAllocation(a) =>
        Assigned(db.allocations, d) - if db.allocations[a].donation == d then db.allocations[a].amount else 0
      case _ => Assigned(db.allocations, d)
  {
    match op {
      case CreateAllocation(donation, p, amount) =>
        SumAppend(db.allocations, Allocation(donation, p, amount, AllocationStatus.Active), AssignedWeight(d));
      case UpdateAllocation(a, donation, p, amount) =>
        ResizedAssigned(db.allocations, a, Allocation(donation, p, amount, AllocationStatus.Active), d);
      case FinishAllocation(a) =>
        SumUpdate(db.allocations, a, db.allocations[a].(status := Finished), AssignedWeight(d));
      case AnnulAllocation(a) =>
        SumUpdate(db.allocations, a, db.allocations[a].(status := AllocationStatus.Annulled), AssignedWeight(d));
      case _ =>
    }
  }

  lemma DonationStaysOk(db: Db, op: Op, d: nat)
    requires Inv(db) && Enabled(db, op) && d < |Effect(db, op).donations|
    ensures DonationOk(Effect(db, op), d)
  {
    AssignedAfter(db, op, d);
    if d < |db.donations| {
      assert DonationOk(db, d);
    } else {
      NoAllocationYet(db.allocations, d);
    }
    match op {
      case UpdateAllocation(a, _, _, _) =>
        SumWithout(db.allocations, a, AssignedWeight(d));
        assert AllocationOk(db, a);
      case AnnulAllocation(a) => assert AllocationOk(db, a);
      case _ =>
    }
  }

  lemma KeepsDonations(db: Db, op: Op)
    requires Inv(db) && Enabled(db, op)
    ensures var after := Effect(db, op);
      forall d :: 0 <= d < |after.donations| ==> DonationOk(after, d)
  {
    forall d | 0 <= d < |Effect(db, op).donations|
      ensures DonationOk(Effect(db, op), d)
    {
      DonationStaysOk(db, op, d);
    }
  }

  lemma KeepsProjects(db: Db, op: Op)
    requires Inv(db) && Enabled(db, op)
    ensures var after := Effect(db, op);
      forall p :: 0 <= p < |after.projects| ==> ProjectOk(after, p)
  {
    var after := Effect(db, op);
    forall p | 0 <= p < |after.projects|
      ensures ProjectOk(after, p)
    {
      assert p < |db.projects| ==> ProjectOk(db, p);
    }
  }

  lemma NoExpenseYet(expenses: seq<Expense>, a: nat)
    requires forall e :: 0 <= e < |expenses| ==> expenses[e].allocation != a
    ensures Executed(expenses, a) == 0
  {
    SumEqual(expenses, ExecutedWeight(a), (_: Expense) => 0);
    SumZero(expenses);
  }

  lemma ReservedNonNegative(db: Db, a: nat)
    requires Inv(db)
    ensures 0 <= Reserved(db.requests, a)
  {
    forall r | 0 <= r < |db.requests| ensures 0 <= ReservedWeight(a)(db.requests[r]) {
      assert RequestOk(db, r);
    }
    SumNonNegative(db.requests, ReservedWeight(a));
  }

  lemma ExecutedWithOneMore(expenses: seq<Expense>, target: nat, amount: int, a: nat)
    ensures Executed(expenses + [Expense(target, amount, ExpenseStatus.Registered)], a)
            == Executed(expenses, a) + if target == a then amount else 0
  {
    SumAppend(expenses, Expense(target, amount, ExpenseStatus.Registered), ExecutedWeight(a));
  }

  /** How a step changes the executed total of one allocation. */
  lemma ExecutedAfter(db: Db, op: Op, a: nat)
    requires References(db) && Enabled(db, op)
    ensures Executed(Effect(db, op).expenses, a) - Executed(db.expenses, a) ==
      match op
      case FulfillRequest(_, locked, amount) => if locked == a then amount else 0
      case CreateLegacyExpense(target, amount) => if target == a then amount else 0
      case UpdateExpense(e, target, amount) =>
        (if target == a then amount else 0) - (if db.expenses[e].allocation == a then db.expenses[e].amount else 0)
      case AnnulExpense(e) => if db.expenses[e].allocation == a then -db.expenses[e].amount else 0
      case _ => 0
  {
    assert Effect(db, op).expenses == ExpensesAfter(db, op);
    match op {
      case FulfillRequest(_, locked, amount) => ExecutedWithOneMore(db.expenses, locked, amount, a);
      case CreateLegacyExpense(target, amount) => ExecutedWithOneMore(db.expenses, target, amount, a);
      case UpdateExpense(e, target, amount) =>
        SumUpdate(db.expenses, e, Expense(target, amount, ExpenseStatus.Registered), ExecutedWeight(a));
      case AnnulExpense(e) =>
        SumUpdate(db.expenses, e, db.expenses[e].(status := ExpenseStatus.Annulled), ExecutedWeight(a));
      case _ =>
    }
  }

  /** The reservation of a request is part of what its allocation has reserved. */
  lemma FulfillmentFits(db: Db, r: nat, a: nat)
    requires Inv(db) && r < |db.requests|
    ensures db.requests[r].allocation == a ==> Held(db.requests[r]) <= Reserved(db.requests, a)
  {
    forall k | 0 <= k < |db.requests| ensures 0 <= ReservedWeight(a)(db.requests[k]) {
      assert RequestOk(db, k);
    }
    SumMember(db.requests, r, ReservedWeight(a));
  }

  /** The executed total of an allocation never outgrows its amount, whichever service runs. */
  lemma ExecutedStaysBounded(db: Db, op: Op, a: nat)
    requires Inv(db) && Enabled(db, op) && a < |db.allocations|
    ensures Executed(Effect(db, op).expenses, a) <= AllocationsAfter(db, op)[a].amount
  {
    assert AllocationOk(db, a);
    ExecutedAfter(db, op, a);
    ReservedNonNegative(db, a);
    match op {
      case FulfillRequest(r, _, _) => FulfillmentFits(db, r, a);
      case UpdateExpense(e, _, _) => assert ExpenseOk(db, e);
      case AnnulExpense(e) => assert ExpenseOk(db, e);
      case _ =>
    }
  }

  lemma AllocationStaysOk(db: Db, op: Op, a: nat)
    requires Inv(db) && Enabled(db, op) && References(Effect(db, op)) && a < |Effect(db, op).allocations|
    ensures AllocationOk(Effect(db, op), a)
  {
    if a < |db.allocations| {
      assert AllocationOk(db, a);
      ExecutedStaysBounded(db, op, a);
    } else {
      NoExpenseYet(db.expenses, a);
    }
  }

  lemma KeepsAllocations(db: Db, op: Op)
    requires Inv(db) && Enabled(db, op)
    ensures var after := Effect(db, op);
      References(after) && forall a :: 0 <= a < |after.allocations| ==> AllocationOk(after, a)
  {
    KeepsReferences(db, op);
    forall a | 0 <= a < |Effect(db, op).allocations|
      ensures AllocationOk(Effect(db, op), a)
    {
      AllocationStaysOk(db, op, a);
    }
  }

  lemma KeepsExpenses(db: Db, op: Op)
    requires Inv(db) && Enabled(db, op)
    ensures var after := Effect(db, op);
      References(after) && forall e :: 0 <= e < |after.expenses| ==> ExpenseOk(after, e)
  {
    KeepsReferences(db, op);
    var after := Effect(db, op);
    forall e | 0 <= e < |after.expenses|
      ensures ExpenseOk(after, e)
    {
      assert e < |db.expenses| ==> ExpenseOk(db, e);
    }
  }

  lemma {:induction false} LogAfter(log: seq<Event>, events: seq<Event>)
    ensures |events| == 1 ==> log + events == log + [events[0]]
    ensures |events| == 2 ==> log + events == log + [events[0]] + [events[1]]
    ensures |events| == 3 ==> log + events == log + [events[0]] + [events[1]] + [events[2]]
  {
  }

  /** Appending one, two or three events, as every lifecycle service does. */
  lemma ReadAfter(log: seq<Event>, events: seq<Event>)
    requires 1 <= |events| <= 3
    ensures Read(log + events) ==
      var p1 := Step(Read(log), events[0].kind);
      var p2 := if |events| > 1 then Step(p1, events[1].kind) else p1;
      if |events| > 2 then Step(p2, events[2].kind) else p2
    ensures NetReserved(log + events) == NetReserved(log) + ReservationDelta(events[0])
      + (if |events| > 1 then ReservationDelta(events[1]) else 0)
      + (if |events| > 2 then ReservationDelta(events[2]) else 0)
  {
    LogAfter(log, events);
    ReadAppend(log, events[0]);
    if |events| > 1 {
      ReadAppend(log + [events[0]], events[1]);
    }
    if |events| > 2 {
      ReadAppend(log + [events[0]] + [events[1]], events[2]);
    }
  }

  function Step(p: Option<Phase>, k: EventType): Option<Phase> {
    if p.None? then None else Next(p.value, k)
  }

  /** An untouched request keeps its row, and its linked expense keeps its status. */
  lemma UntouchedStaysFaithful(db: Db, op: Op, r: nat)
    requires Inv(db) && Enabled(db, op) && r < |db.requests| && Touched(db, op) != Some(r)
    ensures Effect(db, op).requests[r] == db.requests[r]
    ensures Faithful(db.requests[r], Effect(db, op).expenses)
  {
    assert RequestOk(db, r);
    LinkedStatusStays(db, op, r);
    StatusIsEnough(db.requests[r], db.expenses, Effect(db, op).expenses);
  }

  lemma LinkedStatusStays(db: Db, op: Op, r: nat)
    requires References(db) && Enabled(db, op) && r < |db.requests| && Touched(db, op) != Some(r)
    requires LinksInjective(db)
    ensures db.requests[r].expense.Some? && db.requests[r].expense.value < |db.expenses| ==>
              db.requests[r].expense.value < |Effect(db, op).expenses|
              && Effect(db, op).expenses[db.requests[r].expense.value].status
                 == db.expenses[db.requests[r].expense.value].status
  {
    if op.AnnulExpense? && db.requests[r].expense == Some(op.e) {
      assert false;
    }
  }

  /** What a request's log must tell depends on the status of its linked expense alone. */
  lemma StatusIsEnough(r: Request, expenses: seq<Expense>, after: seq<Expense>)
    requires Faithful(r, expenses)
    requires r.expense.Some? && r.expense.value < |expenses| ==>
               r.expense.value < |after| && after[r.expense.value].status == expenses[r.expense.value].status
    ensures Faithful(r, after)
  {
  }

  lemma ClosingIsFaithful(r: Request, status: RequestStatus, kind: EventType, expenses: seq<Expense>)
    requires RequestClean(r) && Faithful(r, expenses) && r.status == PendingDecision
    requires || (status == RequestStatus.Withdrawn && kind == EventType.Withdrawn)
             || (status == RequestStatus.Denied && kind == EventType.Denied)
    ensures Faithful(Moved(r, status, [Plain(kind, status)]), expenses)
  {
    ReadAfter(r.log, [Plain(kind, status)]);
  }

  lemma UpdateIsFaithful(r: Request, a: nat, amount: int, expenses: seq<Expense>)
    requires RequestClean(r) && Faithful(r, expenses) && r.status == PendingDecision
    ensures Faithful(UpdatedRow(r, a, amount), expenses)
  {
    ReadAfter(r.log, [Plain(Updated, PendingDecision)]);
  }

  lemma ApprovalIsFaithful(r: Request, expenses: seq<Expense>)
    requires RequestClean(r) && Faithful(r, expenses) && r.status == PendingDecision
    ensures Faithful(ApprovedRow(r), expenses)
  {
    ReadAfter(r.log, ApprovalEvents(r.requested));
  }

  lemma FulfillmentIsFaithful(r: Request, amount: int, expenses: seq<Expense>, x: Expense)
    requires RequestClean(r) && Faithful(r, expenses) && r.status == ApprovedReserved
    requires amount <= Held(r) && x.status == ExpenseStatus.Registered
    ensures Faithful(FulfilledRow(r, |expenses|, amount), expenses + [x])
  {
    var reserved, events := Held(r), FulfillmentEvents(Held(r), amount);
    FulfillmentIsRead(r.log, reserved, amount, events);
    assert (expenses + [x])[|expenses|] == x;
  }

  lemma FulfillmentIsRead(log: seq<Event>, reserved: int, amount: int, events: seq<Event>)
    requires Read(log) == Some(Holding) && amount <= reserved && events == FulfillmentEvents(reserved, amount)
    ensures Read(log + events) in {Some(Consumed), Some(ConsumedInPart)}
    ensures NetReserved(log + events) == NetReserved(log) - reserved
    ensures events != [] && events[|events| - 1].toStatus == Fulfilled
  {
    ReadAfter(log, events);
  }

  lemma AnnulmentIsFaithful(r: Request, expenses: seq<Expense>)
    requires RequestClean(r) && Faithful(r, expenses) && Open(r)
    requires r.reserved.Some? ==> r.reserved.value > 0
    ensures Faithful(Moved(r, RequestStatus.Annulled, AnnulmentEvents(r)), expenses)
  {
    ReadAfter(r.log, AnnulmentEvents(r));
  }

  lemma ExpenseAnnulmentIsFaithful(r: Request, amount: int, expenses: seq<Expense>, after: seq<Expense>)
    requires RequestClean(r) && Faithful(r, expenses) && r.status == Fulfilled
    requires |after| == |expenses| && after[r.expense.value].status == ExpenseStatus.Annulled
    requires expenses[r.expense.value].status == ExpenseStatus.Registered
    ensures Faithful(Moved(r, Fulfilled, [ExpenseAnnulledEvent(amount)]), after)
  {
    ReadAfter(r.log, [ExpenseAnnulledEvent(amount)]);
  }

  /** A touched request gets events that fit its phase and account for its reservation. */
  lemma TouchedStaysFaithful(db: Db, op: Op, r: nat)
    requires Inv(db) && Enabled(db, op) && Touched(db, op) == Some(r)
    ensures Faithful(Effect(db, op).requests[r], Effect(db, op).expenses)
  {
    var before := db.requests[r];
    assert RequestOk(db, r);
    match op {
      case UpdateRequest(_, _, a, amount) => UpdateIsFaithful(before, a, amount, db.expenses);
      case WithdrawRequest(_, _) =>
        ClosingIsFaithful(before, RequestStatus.Withdrawn, EventType.Withdrawn, db.expenses);
      case DenyRequest(_, _) =>
        ClosingIsFaithful(before, RequestStatus.Denied, EventType.Denied, db.expenses);
      case ApproveRequest(_, _) => ApprovalIsFaithful(before, db.expenses);
      case FulfillRequest(_, locked, amount) =>
        FulfillmentIsFaithful(before, amount, db.expenses, Expense(locked, amount, ExpenseStatus.Registered));
      case AnnulRequest(_, _) => AnnulmentIsFaithful(before, db.expenses);
      case AnnulExpense(e) => LinkedStaysFaithful(db, e, r);
    }
  }

  lemma LinkedStaysFaithful(db: Db, e: nat, r: nat)
    requires Inv(db) && Enabled(db, AnnulExpense(e)) && LinkedRequest(db.requests, e) == Some(r)
    ensures Faithful(Effect(db, AnnulExpense(e)).requests[r], Effect(db, AnnulExpense(e)).expenses)
  {
    assert RequestOk(db, r);
    ExpenseAnnulmentIsFaithful(
      db.requests[r], db.expenses[e].amount, db.expenses, Effect(db, AnnulExpense(e)).expenses);
  }

  /** The rows a service writes to the request table keep telling the truth. */
  lemma KeepsFaithful(db: Db, op: Op, r: nat)
    requires Inv(db) && Enabled(db, op) && r < |Effect(db, op).requests|
    ensures Faithful(Effect(db, op).requests[r], Effect(db, op).expenses)
  {
    if r == |db.requests| {
      ReadAfter([], [Plain(Created, PendingDecision)]);
      assert [] + [Plain(Created, PendingDecision)] == [Plain(Created, PendingDecision)];
    } else if Touched(db, op) == Some(r) {
      TouchedStaysFaithful(db, op, r);
    } else {
      UntouchedStaysFaithful(db, op, r);
    }
  }

  /** No step finishes the allocation, or closes the project, of a request that stays open. */
  lemma ParentsStayOpen(db: Db, op: Op, r: nat)
    requires Inv(db) && Enabled(db, op) && r < |db.requests| && Open(db.requests[r])
    ensures var after := Effect(db, op);
      var a := db.requests[r].allocation;
      a < |after.allocations| && after.allocations[a].project < |after.projects|
      && after.allocations[a].status != Finished
      && after.projects[after.allocations[a].project].status == ProjectStatus.Active
  {
    assert RequestOk(db, r);
  }

  /** A linked expense never leaves the allocation of its request. */
  lemma LinkedExpenseStays(db: Db, op: Op, r: nat)
    requires Inv(db) && Enabled(db, op) && r < |db.requests| && db.requests[r].expense.Some?
    ensures var e, after := db.requests[r].expense.value, Effect(db, op).expenses;
      e < |after| && after[e].allocation == db.requests[r].allocation
  {
    assert RequestOk(db, r);
  }

  lemma RequestStaysOk(db: Db, op: Op, r: nat)
    requires Inv(db) && Enabled(db, op) && References(Effect(db, op)) && r < |Effect(db, op).requests|
    ensures RequestOk(Effect(db, op), r)
  {
    KeepsFaithful(db, op, r);
    if r < |db.requests| {
      assert RequestOk(db, r);
      if Open(db.requests[r]) {
        ParentsStayOpen(db, op, r);
      }
      if db.requests[r].expense.Some? {
        LinkedExpenseStays(db, op, r);
      }
      if Touched(db, op) != Some(r) {
        UntouchedStaysFaithful(db, op, r);
      }
    }
  }

  lemma KeepsRequests(db: Db, op: Op)
    requires Inv(db) && Enabled(db, op)
    ensures var after := Effect(db, op);
      References(after) && forall r :: 0 <= r < |after.requests| ==> RequestOk(after, r)
  {
    KeepsReferences(db, op);
    forall r | 0 <= r < |Effect(db, op).requests|
      ensures RequestOk(Effect(db, op), r)
    {
      RequestStaysOk(db, op, r);
    }
  }

  lemma KeepsLinks(db: Db, op: Op)
    requires Inv(db) && Enabled(db, op)
    ensures LinksInjective(Effect(db, op))
  {
    forall r | 0 <= r < |db.requests|
      ensures db.requests[r].expense.Some? ==> db.requests[r].expense.value < |db.expenses|
    {
      assert RequestOk(db, r);
    }
    var after := Effect(db, op);
    forall r, q | 0 <= r < |after.requests| && 0 <= q < |after.requests| && r != q && after.requests[r].expense.Some?
      ensures after.requests[r].expense != after.requests[q].expense
    {
    }
  }

  /** Every service keeps the invariant of the whole ledger. */
  lemma StepKeepsInvariant(db: Db, op: Op)
    requires Inv(db)
    ensures Inv(Apply(db, op))
  {
    if Enabled(db, op) {
      KeepsDonations(db, op);
      KeepsProjects(db, op);
      KeepsAllocations(db, op);
      KeepsExpenses(db, op);
      KeepsRequests(db, op);
      KeepsLinks(db, op);
    }
  }
}
