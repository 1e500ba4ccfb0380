/**
 Whether the locks of a service cover what it does: the rows it changes, the code sequence of a row it makes, and the
 parents whose state it relies on, where relying is meant semantically: another row there would get it refused.
 */
module LockCoverage {
  import opened Wrappers
  import opened Sums
  import opened LedgerModel
  import opened LedgerRules
  import opened LedgerInvariant
  import opened Reservations
  import opened LockOrder

  /** The locks a service takes when its reads all see this ledger. */
  function LocksOf(db: Db, op: Op, donor: nat): seq<Lock> { Plan(db, db, op, donor) }

  // ---- Rows that change -----------------------------------------------------------------

  lemma ChangedDonationIsLocked(db: Db, op: Op, donor: nat, d: nat)
    requires References(db) && Enabled(db, op) && d < |db.donations|
    ensures |db.donations| <= |Effect(db, op).donations|
    ensures Effect(db, op).donations[d] != db.donations[d] ==> Lock(Donations, d) in LocksOf(db, op, donor)
  {
  }

  lemma ChangedProjectIsLocked(db: Db, op: Op, donor: nat, p: nat)
    requires References(db) && Enabled(db, op) && p < |db.projects|
    ensures |db.projects| <= |Effect(db, op).projects|
    ensures Effect(db, op).projects[p] != db.projects[p] ==> Lock(Projects, p) in LocksOf(db, op, donor)
  {
  }

  lemma ChangedAllocationIsLocked(db: Db, op: Op, donor: nat, a: nat)
    requires References(db) && Enabled(db, op) && a < |db.allocations|
    ensures |db.allocations| <= |Effect(db, op).allocations|
    ensures Effect(db, op).allocations[a] != db.allocations[a] ==> Lock(Allocations, a) in LocksOf(db, op, donor)
  {
    match op {
      case UpdateAllocation(x, _, _, _) =>
        if x == a { assert LocksOf(db, op, donor)[0] == Lock(Allocations, a); }
      case FinishAllocation(x) =>
        if x == a { assert LocksOf(db, op, donor)[1] == Lock(Allocations, a); }
      case AnnulAllocation(x) =>
        if x == a { assert LocksOf(db, op, donor)[1] == Lock(Allocations, a); }
      case _ =>
    }
  }

  lemma ChangedRequestIsLocked(db: Db, op: Op, donor: nat, r: nat)
    requires References(db) && Enabled(db, op) && r < |db.requests|
    ensures |db.requests| <= |Effect(db, op).requests|
    ensures Effect(db, op).requests[r] != db.requests[r] ==> Lock(Requests, r) in LocksOf(db, op, donor)
  {
    if Touched(db, op) == Some(r) {
      var locks := LocksOf(db, op, donor);
      if op.FulfillRequest? {
        assert locks[3] == Lock(Requests, r);
      } else {
        assert locks[|locks| - 1] == Lock(Requests, r);
      }
    }
  }

  lemma ChangedExpenseIsLocked(db: Db, op: Op, donor: nat, e: nat)
    requires References(db) && Enabled(db, op) && e < |db.expenses|
    ensures |db.expenses| <= |Effect(db, op).expenses|
    ensures Effect(db, op).expenses[e] != db.expenses[e] ==> Lock(Expenses, e) in LocksOf(db, op, donor)
  {
    if op.UpdateExpense? && op.e == e {
      assert Lock(Expenses, e) in [Lock(Expenses, e)];
    } else if op.AnnulExpense? && op.e == e {
      assert LocksOf(db, op, donor)[2] == Lock(Expenses, e);
    }
  }

  /** Whatever row a service changes, in any table, it holds the lock of. */
  lemma ChangedRowsAreLocked(db: Db, op: Op, donor: nat)
    requires References(db) && Enabled(db, op)
    ensures var after, locks := Effect(db, op), LocksOf(db, op, donor);
      && |db.donations| <= |after.donations| && |db.projects| <= |after.projects|
      && |db.allocations| <= |after.allocations| && |db.requests| <= |after.requests|
      && |db.expenses| <= |after.expenses|
      && (forall d :: 0 <= d < |db.donations| && after.donations[d] != db.donations[d] ==> Lock(Donations, d) in locks)
      && (forall p :: 0 <= p < |db.projects| && after.projects[p] != db.projects[p] ==> Lock(Projects, p) in locks)
      && (forall a :: 0 <= a < |db.allocations| && after.allocations[a] != db.allocations[a] ==>
            Lock(Allocations, a) in locks)
      && (forall r :: 0 <= r < |db.requests| && after.requests[r] != db.requests[r] ==> Lock(Requests, r) in locks)
      && (forall e :: 0 <= e < |db.expenses| && after.expenses[e] != db.expenses[e] ==> Lock(Expenses, e) in locks)
  {
    TablesOnlyGrow(db, op);
    forall d | 0 <= d < |db.donations| && Effect(db, op).donations[d] != db.donations[d]
      ensures Lock(Donations, d) in LocksOf(db, op, donor)
    {
      ChangedDonationIsLocked(db, op, donor, d);
    }
    forall p | 0 <= p < |db.projects| && Effect(db, op).projects[p] != db.projects[p]
      ensures Lock(Projects, p) in LocksOf(db, op, donor)
    {
      ChangedProjectIsLocked(db, op, donor, p);
    }
    forall a | 0 <= a < |db.allocations| && Effect(db, op).allocations[a] != db.allocations[a]
      ensures Lock(Allocations, a) in LocksOf(db, op, donor)
    {
      ChangedAllocationIsLocked(db, op, donor, a);
    }
    forall r | 0 <= r < |db.requests| && Effect(db, op).requests[r] != db.requests[r]
      ensures Lock(Requests, r) in LocksOf(db, op, donor)
    {
      ChangedRequestIsLocked(db, op, donor, r);
    }
    forall e | 0 <= e < |db.expenses| && Effect(db, op).expenses[e] != db.expenses[e]
      ensures Lock(Expenses, e) in LocksOf(db, op, donor)
    {
      ChangedExpenseIsLocked(db, op, donor, e);
    }
  }

  lemma TablesOnlyGrow(db: Db, op: Op)
    requires References(db) && Enabled(db, op)
    ensures var after := Effect(db, op);
      && |db.donations| <= |after.donations| && |db.projects| <= |after.projects|
      && |db.allocations| <= |after.allocations| && |db.requests| <= |after.requests|
      && |db.expenses| <= |after.expenses|
  {
  }

  lemma MakersNumber(db: Db, op: Op, donor: nat)
    ensures var locks := LocksOf(db, op, donor);
      && (op.CreateDonation? ==> DONATION_CODES in locks) && (op.CreateProject? ==> PROJECT_CODES in locks)
      && (op.CreateAllocation? ==> ALLOCATION_CODES in locks) && (op.CreateRequest? ==> REQUEST_CODES in locks)
      && (op.FulfillRequest? || op.CreateLegacyExpense? ==> EXPENSE_CODES in locks)
  {
    var locks := LocksOf(db, op, donor);
    if op.CreateRequest? {
      assert locks[3] == REQUEST_CODES;
    } else if op.FulfillRequest? {
      assert locks[4] == EXPENSE_CODES;
    } else if op.CreateLegacyExpense? {
      assert locks[3] == EXPENSE_CODES;
    }
  }

  /** A service that makes a row holds the code sequence of its table. */
  lemma NewRowsAreNumbered(db: Db, op: Op, donor: nat)
    requires References(db) && Enabled(db, op)
    ensures var after, locks := Effect(db, op), LocksOf(db, op, donor);
      && (|after.donations| > |db.donations| ==> DONATION_CODES in locks)
      && (|after.projects| > |db.projects| ==> PROJECT_CODES in locks)
      && (|after.allocations| > |db.allocations| ==> ALLOCATION_CODES in locks)
      && (|after.requests| > |db.requests| ==> REQUEST_CODES in locks)
      && (|after.expenses| > |db.expenses| ==> EXPENSE_CODES in locks)
  {
    MakersNumber(db, op, donor);
  }

  // ---- Totals that change ---------------------------------------------------------------

  lemma ChangedAssignedIsLocked(db: Db, op: Op, donor: nat, d: nat)
    requires References(db) && Enabled(db, op) && d < |db.donations|
    ensures Assigned(AllocationsAfter(db, op), d) != Assigned(db.allocations, d) ==>
              Lock(Donations, d) in LocksOf(db, op, donor)
  {
    AssignedAfter(db, op, d);
    if op.UpdateAllocation? {
      SumWithout(db.allocations, op.a, AssignedWeight(d));
      if d == op.d || d == DonationOf(db, op.a) {
        InOrderHas(Donations, {DonationOf(db, op.a), op.d}, |db.donations|, d);
      }
    } else if op.AnnulAllocation? {
      assert LocksOf(db, op, donor)[0] == Lock(Donations, DonationOf(db, op.a));
    }
  }

  lemma ChangedReservedIsLocked(db: Db, op: Op, donor: nat, a: nat)
    requires References(db) && Enabled(db, op) && a < |db.allocations|
    ensures Reserved(RequestsAfter(db, op), a) != Reserved(db.requests, a) ==>
              Lock(Allocations, a) in LocksOf(db, op, donor)
  {
    ReservedAfter(db, op, a);
    if op.ApproveRequest? || op.FulfillRequest? || op.AnnulRequest? {
      assert LocksOf(db, op, donor)[1] == Lock(Allocations, op.locked);
    }
  }

  lemma ChangedExecutedIsLocked(db: Db, op: Op, donor: nat, a: nat)
    requires References(db) && Enabled(db, op) && a < |db.allocations|
    ensures Executed(ExpensesAfter(db, op), a) != Executed(db.expenses, a) ==>
              Lock(Allocations, a) in LocksOf(db, op, donor)
  {
    ExecutedAfter(db, op, a);
    if op.FulfillRequest? {
      assert LocksOf(db, op, donor)[1] == Lock(Allocations, op.locked);
    } else if op.CreateLegacyExpense? {
      assert LocksOf(db, op, donor)[1] == Lock(Allocations, op.a);
    } else if op.AnnulExpense? {
      assert LocksOf(db, op, donor)[1] == Lock(Allocations, db.expenses[op.e].allocation);
    } else if op.UpdateExpense? {
      var xs := {db.expenses[op.e].allocation, op.a};
      if a in xs { InOrderHas(Allocations, xs, |db.allocations|, a); }
    }
  }

  /** Balances are guarded: a service that changes the assigned total of a donation, or the executed or reserved
      total of an allocation, holds the lock of that row, when its unlocked reads are current. */
  lemma ChangedTotalsAreLocked(db: Db, op: Op, donor: nat)
    requires References(db) && Enabled(db, op)
    ensures var after, locks := Effect(db, op), LocksOf(db, op, donor);
      && (forall d: nat :: d < |db.donations| && Assigned(after.allocations, d) != Assigned(db.allocations, d) ==>
            Lock(Donations, d) in locks)
      && (forall a: nat :: a < |db.allocations| && Reserved(after.requests, a) != Reserved(db.requests, a) ==>
            Lock(Allocations, a) in locks)
      && (forall a: nat :: a < |db.allocations| && Executed(after.expenses, a) != Executed(db.expenses, a) ==>
            Lock(Allocations, a) in locks)
  {
    var after, locks := Effect(db, op), LocksOf(db, op, donor);
    forall d: nat | d < |db.donations| && Assigned(after.allocations, d) != Assigned(db.allocations, d)
      ensures Lock(Donations, d) in locks
    {
      ChangedAssignedIsLocked(db, op, donor, d);
    }
    forall a: nat | a < |db.allocations|
      ensures Reserved(after.requests, a) != Reserved(db.requests, a) ==> Lock(Allocations, a) in locks
      ensures Executed(after.expenses, a) != Executed(db.expenses, a) ==> Lock(Allocations, a) in locks
    {
      ChangedReservedIsLocked(db, op, donor, a);
      ChangedExecutedIsLocked(db, op, donor, a);
    }
  }

  // ---- Parents a service relies on ------------------------------------------------------

  lemma ParentsHave(db: Db, a: nat)
    requires a < |db.allocations|
    ensures Lock(Donations, db.allocations[a].donation) in Parents(db, db, a)
    ensures Lock(Projects, db.allocations[a].project) in Parents(db, db, a)
  {
    assert Parents(db, db, a)[0] == Lock(Donations, db.allocations[a].donation);
    assert Parents(db, db, a)[2] == Lock(Projects, db.allocations[a].project);
  }

  /** Services that need an operational allocation hold the locks of its donation and its project. */
  predicate NeedsOperational(db: Db, op: Op, a: nat) {
    match op
    case CreateRequest(x, _) => x == a
    case UpdateRequest(_, _, x, _) => x == a
    case ApproveRequest(_, x) => x == a
    case FulfillRequest(_, x, _) => x == a
    case CreateLegacyExpense(x, _) => x == a
    case UpdateExpense(e, x, _) => x == a && e < |db.expenses| && db.expenses[e].allocation != a
    case _ => false
  }

  lemma OperationalParentsAreLocked(db: Db, op: Op, donor: nat, a: nat)
    requires References(db) && NeedsOperational(db, op, a) && a < |db.allocations|
    ensures Lock(Donations, db.allocations[a].donation) in LocksOf(db, op, donor)
    ensures Lock(Projects, db.allocations[a].project) in LocksOf(db, op, donor)
  {
    var d, p := db.allocations[a].donation, db.allocations[a].project;
    ParentsHave(db, a);
    if op.UpdateRequest? {
      var xs := {op.reference, a};
      assert DonationOf(db, a) in DonationsOf(db, xs) && ProjectOf(db, a) in ProjectsOf(db, xs);
      InOrderHas(Donations, DonationsOf(db, xs), |db.donations|, d);
      InOrderHas(Projects, ProjectsOf(db, xs), |db.projects|, p);
    } else if op.UpdateExpense? {
      var xs := {AllocationOfExpense(db, op.e), a};
      assert DonationOf(db, a) in DonationsOf(db, xs) && ProjectOf(db, a) in ProjectsOf(db, xs);
      InOrderHas(Donations, DonationsOf(db, xs), |db.donations|, d);
      InOrderHas(Projects, ProjectsOf(db, xs), |db.projects|, p);
    }
  }

  predicate NamesProject(op: Op, p: nat) {
    match op
    case FinishProject(x) => x == p
    case PublishProject(x) => x == p
    case UnpublishProject(x) => x == p
    case CreateAllocation(_, x, _) => x == p
    case UpdateAllocation(_, _, x, _) => x == p
    case _ => false
  }

  lemma NamedProjectIsLocked(db: Db, op: Op, donor: nat, p: nat)
    requires NamesProject(op, p)
    ensures Lock(Projects, p) in LocksOf(db, op, donor)
  {
    if op.FinishProject? || op.UpdateAllocation? { assert Lock(Projects, p) in [Lock(Projects, p)]; }
  }

  lemma ProjectMatters(db: Db, op: Op, p: nat, row: Project)
    requires References(db) && Enabled(db, op) && p < |db.projects|
    requires !Enabled(db.(projects := db.projects[p := row]), op)
    ensures NamesProject(op, p)
            || exists a: nat :: a < |db.allocations| && NeedsOperational(db, op, a) && db.allocations[a].project == p
  {
  }

  /** If another project row in its place would get the service refused, the service holds the project's lock. */
  lemma ReliedProjectIsLocked(db: Db, op: Op, donor: nat, p: nat, row: Project)
    requires References(db) && Enabled(db, op) && p < |db.projects|
    requires !Enabled(db.(projects := db.projects[p := row]), op)
    ensures Lock(Projects, p) in LocksOf(db, op, donor)
  {
    ProjectMatters(db, op, p, row);
    if NamesProject(op, p) {
      NamedProjectIsLocked(db, op, donor, p);
    } else {
      var a: nat :| a < |db.allocations| && NeedsOperational(db, op, a) && db.allocations[a].project == p;
      OperationalParentsAreLocked(db, op, donor, a);
    }
  }

  predicate NamesDonation(op: Op, d: nat) {
    match op
    case UpdateDonation(x, _, _) => x == d
    case ReceiveDonation(x) => x == d
    case AnnulDonation(x) => x == d
    case CreateAllocation(x, _, _) => x == d
    case UpdateAllocation(_, x, _, _) => x == d
    case _ => false
  }

  lemma NamedDonationIsLocked(db: Db, op: Op, donor: nat, d: nat)
    requires NamesDonation(op, d) && d < |db.donations|
    ensures Lock(Donations, d) in LocksOf(db, op, donor)
  {
    if op.UpdateAllocation? { InOrderHas(Donations, {DonationOf(db, op.a), op.d}, |db.donations|, d); }
  }

  lemma DonationMatters(db: Db, op: Op, d: nat, row: Donation)
    requires References(db) && Enabled(db, op) && d < |db.donations|
    requires !Enabled(db.(donations := db.donations[d := row]), op)
    ensures NamesDonation(op, d)
            || exists a: nat :: a < |db.allocations| && NeedsOperational(db, op, a) && db.allocations[a].donation == d
  {
  }

  /** The same for donations. */
  lemma ReliedDonationIsLocked(db: Db, op: Op, donor: nat, d: nat, row: Donation)
    requires References(db) && Enabled(db, op) && d < |db.donations|
    requires !Enabled(db.(donations := db.donations[d := row]), op)
    ensures Lock(Donations, d) in LocksOf(db, op, donor)
  {
    DonationMatters(db, op, d, row);
    if NamesDonation(op, d) {
      NamedDonationIsLocked(db, op, donor, d);
    } else {
      var a: nat :| a < |db.allocations| && NeedsOperational(db, op, a) && db.allocations[a].donation == d;
      OperationalParentsAreLocked(db, op, donor, a);
    }
  }

  /** An allocation row the service relies on is locked, or its donation or its new project is: an update of the
      row takes all of these. */
  lemma ReliedAllocationIsLocked(db: Db, op: Op, donor: nat, a: nat, row: Allocation)
    requires References(db) && Enabled(db, op) && a < |db.allocations|
    requires row.donation < |db.donations| && row.project < |db.projects|
    requires !Enabled(db.(allocations := db.allocations[a := row]), op)
    ensures var locks := LocksOf(db, op, donor);
      || Lock(Allocations, a) in locks
      || Lock(Donations, db.allocations[a].donation) in locks || Lock(Donations, row.donation) in locks
      || Lock(Projects, row.project) in locks
  {
    var locks := LocksOf(db, op, donor);
    if op.FinishProject? {
      RelyingFinish(db, op.p, donor, a, row);
    } else if op.UpdateAllocation? && op.a != a {
      RelyingUpdate(db, op, donor, a, row);
    } else if op.UpdateDonation? || op.CreateAllocation? {
      SumUpdate(db.allocations, a, row, AssignedWeight(op.d));
    } else if NeedsOperational(db, op, a) {
      OperationalIsLocked(db, op, donor, a);
    } else if IsCalledFor(op, a) {
      CalledForIsLocked(db, op, donor, a);
    }
  }

  lemma RelyingFinish(db: Db, p: nat, donor: nat, a: nat, row: Allocation)
    requires References(db) && Enabled(db, FinishProject(p)) && a < |db.allocations|
    requires row.donation < |db.donations| && row.project < |db.projects|
    ensures var locks := LocksOf(db, FinishProject(p), donor);
      (db.allocations[a].project == p ==> Lock(Allocations, a) in locks) && Lock(Projects, p) in locks
    ensures !Enabled(db.(allocations := db.allocations[a := row]), FinishProject(p)) ==>
              row.project == p || db.allocations[a].project == p
  {
    var xs := AllocationsOf(db, p);
    if db.allocations[a].project == p { InOrderHas(Allocations, xs, |db.allocations|, a); }
    assert Lock(Projects, p) in [Lock(Projects, p)];
  }

  lemma RelyingUpdate(db: Db, op: Op, donor: nat, a: nat, row: Allocation)
    requires References(db) && op.UpdateAllocation? && Enabled(db, op) && a < |db.allocations| && op.a != a
    requires row.donation < |db.donations| && row.project < |db.projects|
    requires !Enabled(db.(allocations := db.allocations[a := row]), op)
    ensures var locks := LocksOf(db, op, donor);
      Lock(Donations, db.allocations[a].donation) in locks || Lock(Donations, row.donation) in locks
  {
    InOrderHas(Donations, {DonationOf(db, op.a), op.d}, |db.donations|, op.d);
    var now := db.allocations[a := row];
    SumWithout(db.allocations, op.a, AssignedWeight(op.d));
    SumWithout(now, op.a, AssignedWeight(op.d));
    SumUpdate(db.allocations, a, row, AssignedWeight(op.d));
  }

  lemma OperationalIsLocked(db: Db, op: Op, donor: nat, a: nat)
    requires References(db) && NeedsOperational(db, op, a) && a < |db.allocations|
    ensures Lock(Allocations, a) in LocksOf(db, op, donor)
  {
    if op.UpdateRequest? {
      InOrderHas(Allocations, {op.reference, a}, |db.allocations|, a);
    } else if op.UpdateExpense? {
      InOrderHas(Allocations, {AllocationOfExpense(db, op.e), a}, |db.allocations|, a);
    } else {
      assert Parents(db, db, a)[1] == Lock(Allocations, a);
    }
  }

  /** The services that work on an allocation without asking whether it is operational. */
  predicate IsCalledFor(op: Op, a: nat) {
    match op
    case UpdateAllocation(x, _, _, _) => x == a
    case FinishAllocation(x) => x == a
    case AnnulAllocation(x) => x == a
    case AnnulRequest(_, x) => x == a
    case UpdateExpense(_, x, _) => x == a
    case _ => false
  }

  lemma CalledForIsLocked(db: Db, op: Op, donor: nat, a: nat)
    requires a < |db.allocations| && IsCalledFor(op, a)
    ensures Lock(Allocations, a) in LocksOf(db, op, donor)
  {
    if op.UpdateExpense? {
      InOrderHas(Allocations, {AllocationOfExpense(db, op.e), a}, |db.allocations|, a);
    } else if op.UpdateAllocation? {
      assert LocksOf(db, op, donor)[0] == Lock(Allocations, a);
    } else {
      assert LocksOf(db, op, donor)[1] == Lock(Allocations, a);
    }
  }
}
