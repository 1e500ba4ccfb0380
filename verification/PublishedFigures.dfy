/**
 Which money the published totals count. The portal counts exactly the live allocations of active public projects,
 project by project, and nothing about any other project has an influence on it; the dashboard's totals change by
 exactly what each service moves.
 */
module PublishedFigures {
  import opened Wrappers
  import opened Sums
  import opened LedgerModel
  import opened LedgerRules
  import opened LedgerInvariant
  import opened LedgerRuns
  import opened Selectors
  import opened Totals

  /** The project is on the portal. */
  predicate Shown(db: Db, p: nat) {
    p < |db.projects| && db.projects[p].isPublic && db.projects[p].status == ProjectStatus.Active
  }

  function AssignedTo(db: Db, project: Option<nat>): int
    requires References(db)
  {
    TotalAssigned(db, PublicScope(db, project))
  }

  function ExecutedOn(db: Db, project: Option<nat>): int
    requires References(db)
  {
    TotalExecuted(db, PublicScope(db, project))
  }

  function ReceivedFor(db: Db, project: Option<nat>): int
    requires References(db)
  {
    TotalReceived(db, Funders(db, PublicScope(db, project)))
  }

  // ---- One project ----------------------------------------------------------------------

  predicate FundsLive(db: Db, d: nat, p: nat) {
    exists a: nat :: a < |db.allocations| && LiveOf(db, a, p) && db.allocations[a].donation == d
  }

  /** The whole amount of a donation that funds a live allocation of the project, however many it funds. */
  function FunderOf(db: Db, p: nat): nat -> int {
    (d: nat) => if d < |db.donations| && FundsLive(db, d, p) then db.donations[d].amount else 0
  }

  lemma ShownScope(db: Db, p: nat)
    requires Inv(db) && Shown(db, p)
    ensures forall a: nat :: a in PublicScope(db, Some(p)) <==> LiveOf(db, a, p)
  {
    forall a: nat | LiveOf(db, a, p) ensures a in PublicScope(db, Some(p)) {
      assert AllocationOk(db, a);
    }
  }

  lemma ShownReceived(db: Db, p: nat)
    requires Inv(db) && Shown(db, p)
    ensures ReceivedFor(db, Some(p)) == SumTo(|db.donations|, FunderOf(db, p))
  {
    var funders := Funders(db, PublicScope(db, Some(p)));
    ShownScope(db, p);
    forall d: nat | d < |db.donations| ensures FunderAmount(db, funders)(d) == FunderOf(db, p)(d) {
      if FundsLive(db, d, p) {
        var a: nat :| a < |db.allocations| && LiveOf(db, a, p) && db.allocations[a].donation == d;
        assert AllocationOk(db, a);
        assert a in PublicScope(db, Some(p)) && d in funders;
      } else {
        assert d !in funders;
      }
    }
    SumToEqual(|db.donations|, FunderAmount(db, funders), FunderOf(db, p));
  }

  /** What the portal says of a project on it: its live allocations, their expenses, and the donations behind them. */
  lemma ShownTotals(db: Db, p: nat)
    requires Inv(db) && Shown(db, p)
    ensures AssignedTo(db, Some(p)) == ListedFunded(db, p) == SumTo(|db.allocations|, LiveAmountAt(db, p))
    ensures ExecutedOn(db, Some(p)) == ListedProjectExecuted(db, p) == SumTo(|db.allocations|, LiveExecutedAt(db, p))
    ensures ReceivedFor(db, Some(p)) == SumTo(|db.donations|, FunderOf(db, p))
  {
    var scope := PublicScope(db, Some(p));
    ShownScope(db, p);
    FundedByAllocation(db, p);
    SumToEqual(|db.allocations|, ScopeAmount(db, scope), LiveAmountAt(db, p));
    ExecutedByAllocation(db, p);
    SubquerySum(db.expenses, ProjectExpense(db, p), ExpenseAmount(), ScopeExpense(scope));
    ShownReceived(db, p);
  }

  /** Of any other project it says nothing. */
  lemma NotShownTotals(db: Db, p: nat)
    requires References(db) && !Shown(db, p)
    ensures AssignedTo(db, Some(p)) == ExecutedOn(db, Some(p)) == ReceivedFor(db, Some(p)) == 0
  {
    var scope := PublicScope(db, Some(p));
    assert scope == {};
    SumToZero(|db.allocations|, ScopeAmount(db, scope));
    SumEqual(db.expenses, ScopeExpense(scope), (_: Expense) => 0);
    SumZero(db.expenses);
    SumToZero(|db.donations|, FunderAmount(db, Funders(db, scope)));
  }

  /** Unpublishing or finishing a project takes all its money off the portal; publishing it puts it there. */
  lemma PublicationCounts(db: Db, op: Op, p: nat)
    requires Inv(db) && Enabled(db, op)
    requires op == PublishProject(p) || op == UnpublishProject(p) || op == FinishProject(p)
    ensures var after := Effect(db, op);
      && Inv(after)
      && AssignedTo(after, Some(p)) == (if op.PublishProject? then ListedFunded(db, p) else 0)
      && ExecutedOn(after, Some(p)) == (if op.PublishProject? then ListedProjectExecuted(db, p) else 0)
      && (!op.PublishProject? ==> ReceivedFor(after, Some(p)) == 0)
  {
    var after := Effect(db, op);
    StepKeepsInvariant(db, op);
    if op.PublishProject? {
      ShownTotals(after, p);
      SameListing(db, after, p);
    } else {
      NotShownTotals(after, p);
    }
  }

  lemma SameListing(db: Db, after: Db, p: nat)
    requires References(db) && References(after) && p < |db.projects| == |after.projects|
    requires after.allocations == db.allocations && after.expenses == db.expenses
    ensures ListedFunded(after, p) == ListedFunded(db, p)
    ensures ListedProjectExecuted(after, p) == ListedProjectExecuted(db, p)
  {
    SubquerySum(db.expenses, ProjectExpense(db, p), ExpenseAmount(), ProjectExpenseWeight(db, p));
    SubquerySum(db.expenses, ProjectExpense(after, p), ExpenseAmount(), ProjectExpenseWeight(db, p));
  }

  // ---- All projects ---------------------------------------------------------------------

  function AssignedByProject(db: Db): nat -> int {
    (p: nat) => if References(db) then AssignedTo(db, Some(p)) else 0
  }

  function ExecutedByProject(db: Db): nat -> int {
    (p: nat) => if References(db) then ExecutedOn(db, Some(p)) else 0
  }

  /** What an allocation adds to the portal, as far as its row and its project tell. */
  function PublicWeight(db: Db): Allocation -> int {
    (x: Allocation) => if Shown(db, x.project) && x.status != AllocationStatus.Annulled then x.amount else 0
  }

  lemma AssignedByWeight(db: Db)
    requires Inv(db)
    ensures AssignedTo(db, None) == SumBy(db.allocations, PublicWeight(db))
  {
    var scope := PublicScope(db, None);
    forall a: nat | a < |db.allocations|
      ensures ScopeAmount(db, scope)(a) == PublicWeight(db)(db.allocations[a])
    {
      assert AllocationOk(db, a);
    }
    SumByIndex(db.allocations, PublicWeight(db), ScopeAmount(db, scope));
  }

  lemma ProjectAssignedByWeight(db: Db, p: nat)
    requires Inv(db)
    ensures AssignedTo(db, Some(p)) == SumBy(db.allocations, InGroup(ProjectKey(), PublicWeight(db), p))
  {
    var scope := PublicScope(db, Some(p));
    var weight := InGroup(ProjectKey(), PublicWeight(db), p);
    forall a: nat | a < |db.allocations| ensures ScopeAmount(db, scope)(a) == weight(db.allocations[a]) {
      assert AllocationOk(db, a);
      assert PublicWeight(db)(db.allocations[a]) == if Shown(db, db.allocations[a].project)
        && db.allocations[a].status != AllocationStatus.Annulled then db.allocations[a].amount else 0;
    }
    SumByIndex(db.allocations, weight, ScopeAmount(db, scope));
  }

  function ExpenseProject(db: Db): Expense -> nat {
    (e: Expense) => if e.allocation < |db.allocations| then db.allocations[e.allocation].project else 0
  }

  lemma ProjectExecutedByWeight(db: Db, p: nat)
    requires References(db)
    ensures ExecutedOn(db, Some(p))
            == SumBy(db.expenses, InGroup(ExpenseProject(db), ScopeExpense(PublicScope(db, None)), p))
  {
    var all, one := PublicScope(db, None), PublicScope(db, Some(p));
    var weight := InGroup(ExpenseProject(db), ScopeExpense(all), p);
    forall e | 0 <= e < |db.expenses| ensures ScopeExpense(one)(db.expenses[e]) == weight(db.expenses[e]) {
      assert ScopeExpense(all)(db.expenses[e])
          == if db.expenses[e].status == ExpenseStatus.Registered && db.expenses[e].allocation in all
             then db.expenses[e].amount else 0;
    }
    SumEqual(db.expenses, ScopeExpense(one), weight);
  }

  /** Assigned and executed totals of all projects are the sums of those of each. */
  lemma PortalAddsUp(db: Db)
    requires Inv(db)
    ensures AssignedTo(db, None) == SumTo(|db.projects|, AssignedByProject(db))
    ensures ExecutedOn(db, None) == SumTo(|db.projects|, ExecutedByProject(db))
  {
    var n := |db.projects|;
    AssignedByWeight(db);
    GroupBy(db.allocations, ProjectKey(), PublicWeight(db), n);
    var given := GroupTotal(db.allocations, ProjectKey(), PublicWeight(db));
    forall p: nat | p < n ensures given(p) == AssignedByProject(db)(p) { ProjectAssignedByWeight(db, p); }
    SumToEqual(n, given, AssignedByProject(db));
    GroupBy(db.expenses, ExpenseProject(db), ScopeExpense(PublicScope(db, None)), n);
    var spent := GroupTotal(db.expenses, ExpenseProject(db), ScopeExpense(PublicScope(db, None)));
    forall p: nat | p < n ensures spent(p) == ExecutedByProject(db)(p) { ProjectExecutedByWeight(db, p); }
    SumToEqual(n, spent, ExecutedByProject(db));
  }

  predicate FundsShown(db: Db, d: nat) {
    exists p :: 0 <= p < |db.projects| && Shown(db, p) && FundsLive(db, d, p)
  }

  function ShownFunder(db: Db): nat -> int {
    (d: nat) => if d < |db.donations| && FundsShown(db, d) then db.donations[d].amount else 0
  }

  /** A donation counts once for all projects together, if it funds any of those on the portal. */
  lemma PortalReceived(db: Db)
    requires Inv(db)
    ensures ReceivedFor(db, None) == SumTo(|db.donations|, ShownFunder(db))
  {
    var scope := PublicScope(db, None);
    var funders := Funders(db, scope);
    forall d: nat | d < |db.donations| ensures FunderAmount(db, funders)(d) == ShownFunder(db)(d) {
      if FundsShown(db, d) {
        var p :| 0 <= p < |db.projects| && Shown(db, p) && FundsLive(db, d, p);
        var a: nat :| a < |db.allocations| && LiveOf(db, a, p) && db.allocations[a].donation == d;
        assert AllocationOk(db, a);
        assert a in scope && d in funders;
      } else if d in funders {
        var a :| a in scope && a < |db.allocations| && db.allocations[a].donation == d;
        assert LiveOf(db, a, db.allocations[a].project);
        assert FundsLive(db, d, db.allocations[a].project);
        assert false;
      }
    }
    SumToEqual(|db.donations|, FunderAmount(db, funders), ShownFunder(db));
  }

  // ---- No other project has an influence ------------------------------------------------

  predicate OnShown(db: Db, a: nat) { a < |db.allocations| && Shown(db, db.allocations[a].project) }

  predicate PaidFromShown(db: Db, e: nat) { e < |db.expenses| && OnShown(db, db.expenses[e].allocation) }

  /** The two ledgers agree on the projects of the portal, their allocations, the expenses and donations of those.
      Everything else, and how much of it there is, may differ. */
  ghost predicate SameShown(x: Db, y: Db)
    requires References(x) && References(y)
  {
    && (forall p: nat :: Shown(x, p) <==> Shown(y, p))
    && (forall a: nat :: OnShown(x, a) || OnShown(y, a) ==>
          && OnShown(x, a) && OnShown(y, a) && x.allocations[a] == y.allocations[a]
          && x.donations[x.allocations[a].donation] == y.donations[y.allocations[a].donation])
    && (forall e: nat :: PaidFromShown(x, e) || PaidFromShown(y, e) ==>
          PaidFromShown(x, e) && PaidFromShown(y, e) && x.expenses[e] == y.expenses[e])
  }

  lemma {:induction false} SumToBeyond(n: nat, m: nat, f: nat -> int)
    requires n <= m && forall k: nat :: n <= k < m ==> f(k) == 0
    ensures SumTo(m, f) == SumTo(n, f)
    decreases m
  {
    if n < m { SumToBeyond(n, m - 1, f); }
  }

  /** Sums over tables of different lengths, of weights that agree and vanish beyond each. */
  lemma SameSums(n: nat, m: nat, f: nat -> int, g: nat -> int)
    requires forall k: nat :: f(k) == g(k)
    requires (forall k: nat :: n <= k ==> f(k) == 0) && forall k: nat :: m <= k ==> g(k) == 0
    ensures SumTo(n, f) == SumTo(m, g)
  {
    var most := if n < m then m else n;
    SumToBeyond(n, most, f);
    SumToBeyond(m, most, g);
    SumToEqual(most, f, g);
  }

  function ScopeExpenseAt(db: Db, scope: set<nat>): nat -> int {
    (e: nat) => if e < |db.expenses| then ScopeExpense(scope)(db.expenses[e]) else 0
  }

  lemma SameScope(x: Db, y: Db, project: Option<nat>)
    requires References(x) && References(y) && SameShown(x, y)
    ensures PublicScope(x, project) == PublicScope(y, project)
  {
    forall a: nat ensures a in PublicScope(x, project) <==> a in PublicScope(y, project) {
      assert OnShown(x, a) || OnShown(y, a) ==> x.allocations[a] == y.allocations[a];
    }
  }

  lemma SameExecuted(x: Db, y: Db, project: Option<nat>)
    requires References(x) && References(y) && SameShown(x, y)
    ensures ExecutedOn(x, project) == ExecutedOn(y, project)
  {
    SameScope(x, y, project);
    var scope := PublicScope(x, project);
    var f, g := ScopeExpenseAt(x, scope), ScopeExpenseAt(y, scope);
    forall e: nat ensures f(e) == g(e) {
      assert f(e) == if e < |x.expenses| then ScopeExpense(scope)(x.expenses[e]) else 0;
      assert g(e) == if e < |y.expenses| then ScopeExpense(scope)(y.expenses[e]) else 0;
      if PaidFromShown(x, e) || PaidFromShown(y, e) { assert x.expenses[e] == y.expenses[e]; }
    }
    SumByIndex(x.expenses, ScopeExpense(scope), f);
    SumByIndex(y.expenses, ScopeExpense(scope), g);
    SameSums(|x.expenses|, |y.expenses|, f, g);
  }

  /** What is not on the portal has no influence on it. */
  lemma NothingElseIsPublished(x: Db, y: Db, project: Option<nat>)
    requires References(x) && References(y) && SameShown(x, y)
    ensures AssignedTo(x, project) == AssignedTo(y, project)
    ensures ExecutedOn(x, project) == ExecutedOn(y, project)
    ensures ReceivedFor(x, project) == ReceivedFor(y, project)
  {
    SameScope(x, y, project);
    SameExecuted(x, y, project);
    var scope := PublicScope(x, project);
    forall a: nat ensures ScopeAmount(x, scope)(a) == ScopeAmount(y, scope)(a) {
      if a in scope { assert OnShown(x, a); }
    }
    SameSums(|x.allocations|, |y.allocations|, ScopeAmount(x, scope), ScopeAmount(y, scope));
    SameFunders(x, y, scope);
  }

  lemma SameFunders(x: Db, y: Db, scope: set<nat>)
    requires References(x) && References(y) && SameShown(x, y)
    requires forall a :: a in scope ==> OnShown(x, a)
    ensures TotalReceived(x, Funders(x, scope)) == TotalReceived(y, Funders(y, scope))
  {
    var fx, fy := Funders(x, scope), Funders(y, scope);
    forall d: nat ensures d in fx <==> d in fy {
      forall a: nat | a in scope ensures OnShown(x, a) && OnShown(y, a) && x.allocations[a] == y.allocations[a] {}
    }
    forall d: nat ensures FunderAmount(x, fx)(d) == FunderAmount(y, fy)(d) {
      if d in fx {
        var a :| a in scope && a < |x.allocations| && x.allocations[a].donation == d;
        assert OnShown(x, a) && x.donations[d] == y.donations[d];
      }
    }
    SameSums(|x.donations|, |y.donations|, FunderAmount(x, fx), FunderAmount(y, fy));
  }

  // ---- The dashboard --------------------------------------------------------------------

  /** How a step changes what the dashboard shows as received. */
  lemma DashboardReceivedAfter(db: Db, op: Op)
    requires References(db) && Enabled(db, op)
    ensures SumBy(DonationsAfter(db, op), ReceivedAmount()) - SumBy(db.donations, ReceivedAmount()) ==
      match op
      case ReceiveDonation(d) => db.donations[d].amount
      case UpdateDonation(d, amount, _) =>
        if db.donations[d].status == Received then amount - db.donations[d].amount else 0
      case AnnulDonation(d) => if db.donations[d].status == Received then -db.donations[d].amount else 0
      case _ => 0
  {
    match op {
      case CreateDonation(amount, dated) =>
        SumAppend(db.donations, Donation(DonationStatus.Registered, amount, dated), ReceivedAmount());
      case UpdateDonation(d, amount, dated) =>
        SumUpdate(db.donations, d, db.donations[d].(amount := amount, hasReceivedDate := dated), ReceivedAmount());
      case ReceiveDonation(d) =>
        SumUpdate(db.donations, d, db.donations[d].(status := Received), ReceivedAmount());
      case AnnulDonation(d) =>
        SumUpdate(db.donations, d, db.donations[d].(status := DonationStatus.Annulled), ReceivedAmount());
      case _ =>
    }
  }

  /** How a step changes what it shows as assigned. */
  lemma DashboardAssignedAfter(db: Db, op: Op)
    requires References(db) && Enabled(db, op)
    ensures SumBy(AllocationsAfter(db, op), LiveAmount()) - SumBy(db.allocations, LiveAmount()) ==
      match op
      case CreateAllocation(_, _, amount) => amount
      case UpdateAllocation(a, _, _, amount) => amount - db.allocations[a].amount
      case AnnulAllocation(a) => -db.allocations[a].amount
      case _ => 0
  {
    match op {
      case CreateAllocation(d, p, amount) =>
        SumAppend(db.allocations, Allocation(d, p, amount, AllocationStatus.Active), LiveAmount());
      case UpdateAllocation(a, d, p, amount) =>
        SumUpdate(db.allocations, a, Allocation(d, p, amount, AllocationStatus.Active), LiveAmount());
      case FinishAllocation(a) =>
        SumUpdate(db.allocations, a, db.allocations[a].(status := Finished), LiveAmount());
      case AnnulAllocation(a) =>
        SumUpdate(db.allocations, a, db.allocations[a].(status := AllocationStatus.Annulled), LiveAmount());
      case _ =>
    }
  }

  /** How a step changes what it shows as executed. */
  lemma DashboardExecutedAfter(db: Db, op: Op)
    requires References(db) && Enabled(db, op)
    ensures SumBy(ExpensesAfter(db, op), NotAnnulled()) - SumBy(db.expenses, NotAnnulled()) ==
      match op
      case FulfillRequest(_, _, amount) => amount
      case CreateLegacyExpense(_, amount) => amount
      case UpdateExpense(e, _, amount) => amount - db.expenses[e].amount
      case AnnulExpense(e) => -db.expenses[e].amount
      case _ => 0
  {
    match op {
      case FulfillRequest(_, a, amount) =>
        SumAppend(db.expenses, Expense(a, amount, ExpenseStatus.Registered), NotAnnulled());
      case CreateLegacyExpense(a, amount) =>
        SumAppend(db.expenses, Expense(a, amount, ExpenseStatus.Registered), NotAnnulled());
      case UpdateExpense(e, a, amount) =>
        SumUpdate(db.expenses, e, Expense(a, amount, ExpenseStatus.Registered), NotAnnulled());
      case AnnulExpense(e) =>
        SumUpdate(db.expenses, e, db.expenses[e].(status := ExpenseStatus.Annulled), NotAnnulled());
      case _ =>
    }
  }
}
