/**
 When a service refuses, said without its guard: by the calls that committed before, for everything that depends on
 the state of rows, and by the bound that accepting would break, for everything that depends on money.
 */
module LedgerGuards {
  import opened Wrappers
  import opened Sums
  import opened LedgerModel
  import opened LedgerRules
  import opened LedgerInvariant
  import opened LedgerHistory
  import opened LedgerLifecycles

  // ---- What the past of a row still admits ----------------------------------------------

  predicate IsOn(terms: Option<(nat, int)>, a: nat) { terms.Some? && terms.value.0 == a }

  predicate IsFundedBy(terms: Option<(nat, nat, int)>, d: nat) { terms.Some? && terms.value.0 == d }

  predicate IsFor(terms: Option<(nat, nat, int)>, p: nat) { terms.Some? && terms.value.1 == p }

  predicate Closed(calls: seq<Op>, a: nat) { FinishAllocation(a) in calls || Op.AnnulAllocation(a) in calls }

  /** An allocation is operational exactly until it is closed: its donation and its project stay live that long. */
  lemma OperationalExactly(calls: seq<Op>, db: Db, a: nat)
    requires Reached(calls, db) && References(db)
    ensures Operational(db, a) <==> a < Made(calls, AllocationMade) && !Closed(calls, a)
  {
    ReachedCounted(calls, db);
    ReachedInv(calls, db);
    AllocationLifecycle(calls, db, a);
    if a < |db.allocations| { assert AllocationOk(db, a); }
  }

  /** Requests are created, for any positive amount, exactly on operational allocations; no money is looked at. */
  lemma CreateRequestExactly(calls: seq<Op>, db: Db, a: nat, amount: int)
    requires Reached(calls, db) && References(db)
    ensures Enabled(db, CreateRequest(a, amount)) <==>
              amount > 0 && a < Made(calls, AllocationMade) && !Closed(calls, a)
  {
    OperationalExactly(calls, db, a);
  }

  /** A request is updated, to any positive amount, exactly while undecided, if it was last put on one of the two
      allocations locked and the new one is operational. */
  lemma UpdateRequestExactly(calls: seq<Op>, db: Db, r: nat, reference: nat, a: nat, amount: int)
    requires Reached(calls, db) && References(db)
    ensures Enabled(db, UpdateRequest(r, reference, a, amount)) <==>
      && amount > 0 && a < Made(calls, AllocationMade) && !Closed(calls, a)
      && r < Made(calls, RequestMade) && Undecided(calls, r) && !Had(calls, r, Approval)
      && (IsOn(Latest(calls, RequestTerms(r)), reference) || IsOn(Latest(calls, RequestTerms(r)), a))
  {
    OperationalExactly(calls, db, a);
    ReachedCounted(calls, db);
    if r < |db.requests| {
      OpenExactly(calls, db, r);
      RequestRowIs(calls, db, r, a);
      RequestRowIs(calls, db, r, reference);
    }
  }

  /** A donation funds new allocations of a project from its reception to its annulment, until the project ends. */
  lemma CanFundExactly(calls: seq<Op>, db: Db, d: nat, p: nat)
    requires Reached(calls, db)
    ensures CanFund(db, d, p) <==>
      && ReceiveDonation(d) in calls && Op.AnnulDonation(d) !in calls
      && p < Made(calls, ProjectMade) && FinishProject(p) !in calls
  {
    ReachedCounted(calls, db);
    DonationLifecycle(calls, db, d);
    ProjectLifecycle(calls, db, p);
  }

  /** A request can be withdrawn, denied or updated exactly while nothing decided it. */
  lemma RequestAdmitsExactly(calls: seq<Op>, db: Db, r: nat, locked: nat)
    requires Reached(calls, db) && References(db)
    ensures var waits := r < Made(calls, RequestMade) && Undecided(calls, r) && !Had(calls, r, Approval);
      && (Enabled(db, WithdrawRequest(r, locked)) <==> waits && locked < Made(calls, AllocationMade))
      && (Enabled(db, DenyRequest(r, locked)) <==> waits && locked < Made(calls, AllocationMade))
      && (waits && locked < Made(calls, AllocationMade) ==> Enabled(db, AnnulRequest(r, locked)))
  {
    ReachedCounted(calls, db);
    RequestLifecycle(calls, db, r);
    if r < |db.requests| { OpenExactly(calls, db, r); }
  }


  /** An allocation can be finished exactly while it is neither finished nor annulled and no request on it is open. */
  lemma FinishAllocationExactly(calls: seq<Op>, db: Db, a: nat)
    requires Reached(calls, db) && References(db)
    ensures Enabled(db, FinishAllocation(a)) <==>
      && a < Made(calls, AllocationMade) && FinishAllocation(a) !in calls && Op.AnnulAllocation(a) !in calls
      && forall r: nat :: r < Made(calls, RequestMade) && IsOn(Latest(calls, RequestTerms(r)), a) ==>
           !Undecided(calls, r)
  {
    ReachedCounted(calls, db);
    AllocationLifecycle(calls, db, a);
    forall r: nat | r < |db.requests|
      ensures Open(db.requests[r]) <==> Undecided(calls, r)
      ensures IsOn(Latest(calls, RequestTerms(r)), a) <==> db.requests[r].allocation == a
    {
      RequestRowIs(calls, db, r, a);
    }
  }

  /** An allocation can be annulled exactly while it is neither and every expense last put on it was annulled. */
  lemma AnnulAllocationExactly(calls: seq<Op>, db: Db, a: nat)
    requires Reached(calls, db) && References(db)
    ensures Enabled(db, Op.AnnulAllocation(a)) <==>
      && a < Made(calls, AllocationMade) && FinishAllocation(a) !in calls && Op.AnnulAllocation(a) !in calls
      && forall e: nat :: e < Made(calls, ExpenseMade) && IsOn(Latest(calls, ExpenseTerms(e)), a) ==>
           Op.AnnulExpense(e) in calls
  {
    ReachedCounted(calls, db);
    AllocationLifecycle(calls, db, a);
    forall e: nat | e < |db.expenses|
      ensures db.expenses[e].status == ExpenseStatus.Annulled <==> Op.AnnulExpense(e) in calls
      ensures IsOn(Latest(calls, ExpenseTerms(e)), a) <==> db.expenses[e].allocation == a
    {
      ExpenseRowIs(calls, db, e, a);
    }
  }

  lemma ExpenseRowIs(calls: seq<Op>, db: Db, e: nat, a: nat)
    requires Reached(calls, db) && e < |db.expenses|
    ensures db.expenses[e].status == ExpenseStatus.Annulled <==> Op.AnnulExpense(e) in calls
    ensures IsOn(Latest(calls, ExpenseTerms(e)), a) <==> db.expenses[e].allocation == a
  {
    ExpenseLifecycle(calls, db, e);
    CallsTellTheLedger(calls, db);
    assert ExpenseTold(calls, e, db.expenses[e]);
  }

  lemma RequestRowIs(calls: seq<Op>, db: Db, r: nat, a: nat)
    requires Reached(calls, db) && r < |db.requests|
    ensures Open(db.requests[r]) <==> Undecided(calls, r)
    ensures IsOn(Latest(calls, RequestTerms(r)), a) <==> db.requests[r].allocation == a
  {
    OpenExactly(calls, db, r);
    CallsTellTheLedger(calls, db);
    assert RequestTold(calls, r, db.requests[r]);
  }

  lemma AllocationRowIs(calls: seq<Op>, db: Db, a: nat)
    requires Reached(calls, db) && a < |db.allocations|
    ensures Latest(calls, AllocationTerms(a))
            == Some((db.allocations[a].donation, db.allocations[a].project, db.allocations[a].amount))
    ensures db.allocations[a].status != AllocationStatus.Active <==> Closed(calls, a)
    ensures db.allocations[a].status == AllocationStatus.Annulled <==> Op.AnnulAllocation(a) in calls
  {
    AllocationLifecycle(calls, db, a);
    CallsTellTheLedger(calls, db);
    assert AllocationTold(calls, a, db.allocations[a]);
  }

  /** A donation can be received exactly once, while it is not annulled, and if it was last given a date. */
  lemma ReceiveDonationExactly(calls: seq<Op>, db: Db, d: nat)
    requires Reached(calls, db) && References(db)
    ensures Enabled(db, ReceiveDonation(d)) <==>
      && d < Made(calls, DonationMade) && ReceiveDonation(d) !in calls && Op.AnnulDonation(d) !in calls
      && Latest(calls, DonationTerms(d)).Some? && Latest(calls, DonationTerms(d)).value.1
  {
    CallsTellTheLedger(calls, db);
    DonationLifecycle(calls, db, d);
    if d < |db.donations| { assert DonationTold(calls, d, db.donations[d]); }
  }

  /** A donation can be annulled exactly once, when every allocation last funded by it was annulled. */
  lemma AnnulDonationExactly(calls: seq<Op>, db: Db, d: nat)
    requires Reached(calls, db) && References(db)
    ensures Enabled(db, Op.AnnulDonation(d)) <==>
      && d < Made(calls, DonationMade) && Op.AnnulDonation(d) !in calls
      && forall a: nat :: a < Made(calls, AllocationMade) && IsFundedBy(Latest(calls, AllocationTerms(a)), d) ==>
           Op.AnnulAllocation(a) in calls
  {
    ReachedCounted(calls, db);
    DonationLifecycle(calls, db, d);
    forall a: nat | a < |db.allocations|
      ensures IsFundedBy(Latest(calls, AllocationTerms(a)), d) <==> db.allocations[a].donation == d
      ensures db.allocations[a].status == AllocationStatus.Annulled <==> Op.AnnulAllocation(a) in calls
    {
      AllocationRowIs(calls, db, a);
    }
  }

  /** A project that was not finished can be published exactly when it was not, or no longer, and the reverse. */
  lemma PublishExactly(calls: seq<Op>, db: Db, p: nat)
    requires Reached(calls, db) && References(db)
    ensures Enabled(db, PublishProject(p)) <==>
              FinishProject(p) !in calls && Latest(calls, Publicity(p)) == Some(false) && p < Made(calls, ProjectMade)
    ensures Enabled(db, UnpublishProject(p)) <==>
              FinishProject(p) !in calls && Latest(calls, Publicity(p)) == Some(true) && p < Made(calls, ProjectMade)
  {
    CallsTellTheLedger(calls, db);
    ProjectLifecycle(calls, db, p);
    if p < |db.projects| { assert ProjectTold(calls, p, db.projects[p]); }
  }

  /** The project request r last belonged to, by its allocation. */
  predicate BelongsTo(calls: seq<Op>, r: nat, p: nat) {
    var terms := Latest(calls, RequestTerms(r));
    terms.Some? && IsFor(Latest(calls, AllocationTerms(terms.value.0)), p)
  }

  /** A project can be finished exactly once, when every allocation last made for it is closed and every request on
      one of those is decided. */
  lemma FinishProjectExactly(calls: seq<Op>, db: Db, p: nat)
    requires Reached(calls, db) && References(db)
    ensures Enabled(db, FinishProject(p)) <==>
      && p < Made(calls, ProjectMade) && FinishProject(p) !in calls
      && (forall a: nat :: a < Made(calls, AllocationMade) && IsFor(Latest(calls, AllocationTerms(a)), p) ==>
            Closed(calls, a))
      && (forall r: nat :: r < Made(calls, RequestMade) && BelongsTo(calls, r, p) ==> !Undecided(calls, r))
  {
    ReachedCounted(calls, db);
    ProjectLifecycle(calls, db, p);
    forall a: nat | a < |db.allocations|
      ensures IsFor(Latest(calls, AllocationTerms(a)), p) <==> db.allocations[a].project == p
      ensures db.allocations[a].status != AllocationStatus.Active <==> Closed(calls, a)
    {
      AllocationRowIs(calls, db, a);
    }
    forall r: nat | r < |db.requests|
      ensures Open(db.requests[r]) <==> Undecided(calls, r)
      ensures BelongsTo(calls, r, p) <==> db.allocations[db.requests[r].allocation].project == p
    {
      RequestBelongs(calls, db, r, p);
    }
  }

  lemma RequestBelongs(calls: seq<Op>, db: Db, r: nat, p: nat)
    requires Reached(calls, db) && References(db) && r < |db.requests|
    ensures Open(db.requests[r]) <==> Undecided(calls, r)
    ensures BelongsTo(calls, r, p) <==> db.allocations[db.requests[r].allocation].project == p
  {
    OpenExactly(calls, db, r);
    CallsTellTheLedger(calls, db);
    assert RequestTold(calls, r, db.requests[r]);
    AllocationRowIs(calls, db, db.requests[r].allocation);
  }

  /** An expense can be annulled exactly once. */
  lemma AnnulExpenseExactly(calls: seq<Op>, db: Db, e: nat)
    requires Reached(calls, db) && References(db)
    ensures Enabled(db, Op.AnnulExpense(e)) <==> e < Made(calls, ExpenseMade) && Op.AnnulExpense(e) !in calls
  {
    ReachedCounted(calls, db);
    ExpenseLifecycle(calls, db, e);
  }

  // ---- Money is refused only where a bound would break ----------------------------------

  /** On an operational allocation a direct expense is refused exactly if it is not positive or would over-reserve. */
  lemma DirectExpenseExactly(db: Db, a: nat, amount: int)
    requires References(db) && Operational(db, a)
    ensures Enabled(db, CreateLegacyExpense(a, amount)) <==>
      amount > 0 && 0 <= Free(db.(expenses := db.expenses + [Expense(a, amount, ExpenseStatus.Registered)]), a)
  {
    SumAppend(db.expenses, Expense(a, amount, ExpenseStatus.Registered), ExecutedWeight(a));
  }

  /** So is the update of an effective expense that may stand on its new allocation. */
  lemma ExpenseUpdateExactly(db: Db, e: nat, a: nat, amount: int)
    requires References(db) && e < |db.expenses| && db.expenses[e].status == ExpenseStatus.Registered
    requires a < |db.allocations|
    requires a != db.expenses[e].allocation ==> Operational(db, a) && LinkedRequest(db.requests, e).None?
    ensures Enabled(db, Op.UpdateExpense(e, a, amount)) <==>
      amount > 0 && 0 <= Free(db.(expenses := db.expenses[e := Expense(a, amount, ExpenseStatus.Registered)]), a)
  {
    SumUpdate(db.expenses, e, Expense(a, amount, ExpenseStatus.Registered), ExecutedWeight(a));
  }

  /** The approval of a pending request on its operational allocation is refused exactly if it would over-reserve. */
  lemma ApprovalExactly(db: Db, r: nat)
    requires Inv(db) && r < |db.requests| && db.requests[r].status == PendingDecision
    requires Operational(db, db.requests[r].allocation)
    ensures var x := db.requests[r];
      Enabled(db, ApproveRequest(r, x.allocation)) <==>
      0 <= Free(db.(requests := db.requests[r := x.(status := ApprovedReserved, reserved := Some(x.requested))]),
                x.allocation)
  {
    var x := db.requests[r];
    SumUpdate(db.requests, r, x.(status := ApprovedReserved, reserved := Some(x.requested)),
              ReservedWeight(x.allocation));
  }

  /** A donation that was not annulled takes any positive amount that covers what is assigned from it. */
  lemma UpdateDonationExactly(calls: seq<Op>, db: Db, d: nat, amount: int, dated: bool)
    requires Reached(calls, db) && References(db)
    ensures Enabled(db, Op.UpdateDonation(d, amount, dated)) <==>
      && d < Made(calls, DonationMade) && Op.AnnulDonation(d) !in calls
      && amount > 0 && Assigned(db.allocations, d) <= amount
  {
    ReachedCounted(calls, db);
    DonationLifecycle(calls, db, d);
  }

  /** A new allocation is refused exactly if it is not positive or would assign more than was donated. */
  lemma NewAllocationExactly(db: Db, d: nat, p: nat, amount: int)
    requires References(db) && CanFund(db, d, p)
    ensures Enabled(db, CreateAllocation(d, p, amount)) <==>
      && amount > 0
      && Assigned(db.allocations + [Allocation(d, p, amount, AllocationStatus.Active)], d) <= db.donations[d].amount
  {
    SumAppend(db.allocations, Allocation(d, p, amount, AllocationStatus.Active), AssignedWeight(d));
  }

  /** The update of an active allocation is refused exactly if it is not positive, would assign more than was donated,
      or would leave less than is executed; what is reserved does not count. */
  lemma AllocationUpdateExactly(db: Db, a: nat, d: nat, p: nat, amount: int)
    requires References(db) && CanFund(db, d, p)
    requires a < |db.allocations| && db.allocations[a].status == AllocationStatus.Active
    ensures Enabled(db, UpdateAllocation(a, d, p, amount)) <==>
      && amount > 0
      && Assigned(db.allocations[a := Allocation(d, p, amount, AllocationStatus.Active)], d) <= db.donations[d].amount
      && Executed(db.expenses, a) <= amount
  {
    ResizedAssigned(db.allocations, a, Allocation(d, p, amount, AllocationStatus.Active), d);
  }
}
