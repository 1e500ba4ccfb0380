/**
 Published totals: the dashboard and the public portal add up allocations, expenses and donations over a
 scope of allocations. In every state that keeps the ledger invariant the three totals are ordered.
 */
module Totals {
  import opened Wrappers
  import opened Sums
  import opened LedgerModel
  import opened LedgerRules
  import opened LedgerInvariant
  import opened LedgerRuns

  /** Amount of an allocation of the scope, by primary key. */
  function ScopeAmount(db: Db, scope: set<nat>): nat -> int {
    (a: nat) => if a < |db.allocations| && a in scope then db.allocations[a].amount else 0
  }

  /** Donations that fund the scope, each once. */
  function Funders(db: Db, scope: set<nat>): set<nat> {
    set a | a in scope && a < |db.allocations| :: db.allocations[a].donation
  }

  function FunderAmount(db: Db, funders: set<nat>): nat -> int {
    (d: nat) =>
      if d < |db.donations| && d in funders && db.donations[d].status == Received then db.donations[d].amount else 0
  }

  function ScopeExpense(scope: set<nat>): Expense -> int {
    (e: Expense) => if e.status == ExpenseStatus.Registered && e.allocation in scope then e.amount else 0
  }

  function TotalAssigned(db: Db, scope: set<nat>): int { SumTo(|db.allocations|, ScopeAmount(db, scope)) }

  function TotalExecuted(db: Db, scope: set<nat>): int { SumBy(db.expenses, ScopeExpense(scope)) }

  function TotalReceived(db: Db, funders: set<nat>): int { SumTo(|db.donations|, FunderAmount(db, funders)) }

  predicate Live(db: Db, scope: set<nat>) {
    forall a :: a in scope ==> a < |db.allocations| && db.allocations[a].status != AllocationStatus.Annulled
  }

  lemma ExecutedWithinAssigned(db: Db, scope: set<nat>)
    requires Inv(db) && Live(db, scope)
    ensures TotalExecuted(db, scope) <= TotalAssigned(db, scope)
  {
    var groups := GroupTotal(db.expenses, AllocationOf(), ScopeExpense(scope));
    GroupBy(db.expenses, AllocationOf(), ScopeExpense(scope), |db.allocations|);
    forall a: nat | a < |db.allocations| ensures groups(a) <= ScopeAmount(db, scope)(a) {
      var weight := InGroup(AllocationOf(), ScopeExpense(scope), a);
      assert AllocationOk(db, a);
      if a in scope {
        SumEqual(db.expenses, weight, ExecutedWeight(a));
        assert SumBy(db.expenses, weight) == Executed(db.expenses, a);
      } else {
        SumEqual(db.expenses, weight, (_: Expense) => 0);
        SumZero(db.expenses);
      }
    }
    SumToMonotone(|db.allocations|, groups, ScopeAmount(db, scope));
  }

  // ---- Assigned within received ---------------------------------------------------------

  /** Each allocation as (donation, amount it adds to the scope). */
  function Entries(db: Db, scope: set<nat>): (rows: seq<(nat, int)>)
    ensures |rows| == |db.allocations|
    ensures forall a: nat :: a < |rows| ==> rows[a] == (db.allocations[a].donation, ScopeAmount(db, scope)(a))
  {
    seq(|db.allocations|, (a: nat) requires a < |db.allocations| =>
      (db.allocations[a].donation, ScopeAmount(db, scope)(a)))
  }

  function EntryDonation(): ((nat, int)) -> nat { (x: (nat, int)) => x.0 }

  function EntryAmount(): ((nat, int)) -> int { (x: (nat, int)) => x.1 }

  function AssignedEntry(db: Db, d: nat): nat -> int {
    (a: nat) => if a < |db.allocations| then AssignedWeight(d)(db.allocations[a]) else 0
  }

  function GroupEntry(db: Db, scope: set<nat>, d: nat): nat -> int {
    (a: nat) =>
      if a < |db.allocations| && db.allocations[a].donation == d && a in scope then db.allocations[a].amount else 0
  }

  lemma ScopeOutsideFunders(db: Db, scope: set<nat>, d: nat)
    requires d !in Funders(db, scope)
    ensures SumTo(|db.allocations|, GroupEntry(db, scope, d)) == 0
  {
    forall k: nat | k < |db.allocations| ensures GroupEntry(db, scope, d)(k) == 0 {
      assert db.allocations[k].donation == d && k in scope ==> d in Funders(db, scope);
    }
    SumToZero(|db.allocations|, GroupEntry(db, scope, d));
  }

  lemma ScopeWithinAssigned(db: Db, scope: set<nat>, d: nat)
    requires Inv(db) && Live(db, scope)
    ensures SumTo(|db.allocations|, GroupEntry(db, scope, d)) <= Assigned(db.allocations, d)
  {
    forall k: nat | k < |db.allocations| ensures GroupEntry(db, scope, d)(k) <= AssignedEntry(db, d)(k) {
      assert AllocationOk(db, k) && AssignedEntry(db, d)(k) == AssignedWeight(d)(db.allocations[k]);
    }
    SumToMonotone(|db.allocations|, GroupEntry(db, scope, d), AssignedEntry(db, d));
    SumByIndex(db.allocations, AssignedWeight(d), AssignedEntry(db, d));
  }

  /** What the scope takes from one donation is part of what that donation has assigned. */
  lemma ScopeWithinDonation(db: Db, scope: set<nat>, d: nat)
    requires Inv(db) && Live(db, scope) && d < |db.donations|
    ensures GroupTotal(Entries(db, scope), EntryDonation(), EntryAmount())(d)
            <= FunderAmount(db, Funders(db, scope))(d)
  {
    var rows := Entries(db, scope);
    var weight := InGroup(EntryDonation(), EntryAmount(), d);
    assert GroupTotal(rows, EntryDonation(), EntryAmount())(d) == SumBy(rows, weight);
    forall a: nat | a < |rows| ensures GroupEntry(db, scope, d)(a) == weight(rows[a]) {
      assert rows[a] == (db.allocations[a].donation, ScopeAmount(db, scope)(a));
    }
    SumByIndex(rows, weight, GroupEntry(db, scope, d));
    if d in Funders(db, scope) {
      var a :| a in scope && a < |db.allocations| && db.allocations[a].donation == d;
      assert AllocationOk(db, a) && DonationOk(db, d);
      ScopeWithinAssigned(db, scope, d);
    } else {
      ScopeOutsideFunders(db, scope, d);
    }
  }

  lemma AssignedWithinReceived(db: Db, scope: set<nat>)
    requires Inv(db) && Live(db, scope)
    ensures TotalAssigned(db, scope) <= TotalReceived(db, Funders(db, scope))
  {
    var rows := Entries(db, scope);
    SumByIndex(rows, EntryAmount(), ScopeAmount(db, scope));
    GroupBy(rows, EntryDonation(), EntryAmount(), |db.donations|);
    var groups := GroupTotal(rows, EntryDonation(), EntryAmount());
    forall d: nat | d < |db.donations| ensures groups(d) <= FunderAmount(db, Funders(db, scope))(d) {
      ScopeWithinDonation(db, scope, d);
    }
    SumToMonotone(|db.donations|, groups, FunderAmount(db, Funders(db, scope)));
  }

  // ---- The two published scopes ---------------------------------------------------------

  /** Live allocations of public active projects whose donation is not annulled, of one project or of all. */
  function PublicScope(db: Db, project: Option<nat>): set<nat>
    requires References(db)
  {
    set a | 0 <= a < |db.allocations|
            && db.projects[db.allocations[a].project].isPublic
            && db.projects[db.allocations[a].project].status == ProjectStatus.Active
            && db.allocations[a].status != AllocationStatus.Annulled
            && db.donations[db.allocations[a].donation].status != DonationStatus.Annulled
            && (project.Some? ==> db.allocations[a].project == project.value)
  }

  function DashboardScope(db: Db): set<nat> {
    set a | 0 <= a < |db.allocations| && db.allocations[a].status != AllocationStatus.Annulled
  }

  /** The portal's totals, for one project or all: executed <= assigned <= received, each linked donation
      counted once however many allocations it funds; so "assigned - executed" is never clamped. */
  lemma PublicTotalsOrdered(db: Db, project: Option<nat>)
    requires Inv(db)
    ensures var scope := PublicScope(db, project);
      && TotalExecuted(db, scope) <= TotalAssigned(db, scope) <= TotalReceived(db, Funders(db, scope))
      && Max(TotalAssigned(db, scope) - TotalExecuted(db, scope), 0)
         == TotalAssigned(db, scope) - TotalExecuted(db, scope)
  {
    ExecutedWithinAssigned(db, PublicScope(db, project));
    AssignedWithinReceived(db, PublicScope(db, project));
  }

  /** Rows as the dashboard counts them: received donations, live allocations, expenses not annulled. */
  function ReceivedAmount(): Donation -> int {
    (d: Donation) => if d.status == Received then d.amount else 0
  }

  function LiveAmount(): Allocation -> int {
    (a: Allocation) => if a.status != AllocationStatus.Annulled then a.amount else 0
  }

  function NotAnnulled(): Expense -> int {
    (e: Expense) => if e.status != ExpenseStatus.Annulled then e.amount else 0
  }

  function ReceivedAt(db: Db): nat -> int {
    (d: nat) => if d < |db.donations| then ReceivedAmount()(db.donations[d]) else 0
  }

  lemma DashboardSpent(db: Db)
    requires Inv(db)
    ensures SumBy(db.expenses, NotAnnulled()) == TotalExecuted(db, DashboardScope(db))
  {
    var scope := DashboardScope(db);
    forall e | 0 <= e < |db.expenses| ensures NotAnnulled()(db.expenses[e]) == ScopeExpense(scope)(db.expenses[e]) {
      assert ExpenseOk(db, e);
    }
    SumEqual(db.expenses, NotAnnulled(), ScopeExpense(scope));
  }

  lemma DashboardAssigned(db: Db)
    ensures SumBy(db.allocations, LiveAmount()) == TotalAssigned(db, DashboardScope(db))
  {
    SumByIndex(db.allocations, LiveAmount(), ScopeAmount(db, DashboardScope(db)));
  }

  lemma DashboardReceived(db: Db, funders: set<nat>)
    requires Inv(db)
    ensures TotalReceived(db, funders) <= SumBy(db.donations, ReceivedAmount())
  {
    forall d: nat | d < |db.donations| ensures FunderAmount(db, funders)(d) <= ReceivedAt(db)(d) {
      assert DonationOk(db, d) && ReceivedAt(db)(d) == ReceivedAmount()(db.donations[d]);
    }
    SumToMonotone(|db.donations|, FunderAmount(db, funders), ReceivedAt(db));
    SumByIndex(db.donations, ReceivedAmount(), ReceivedAt(db));
  }

  /** The dashboard's totals are ordered too; its expenses ignore the status of their allocation, which is the
      same because an annulled allocation keeps no effective expense. */
  lemma DashboardTotalsOrdered(db: Db)
    requires Inv(db)
    ensures var spent, given, received :=
        SumBy(db.expenses, NotAnnulled()), SumBy(db.allocations, LiveAmount()), SumBy(db.donations, ReceivedAmount());
      && spent <= given <= received
      && Max(received - given, 0) == received - given
  {
    var scope := DashboardScope(db);
    DashboardSpent(db);
    DashboardAssigned(db);
    DashboardReceived(db, Funders(db, scope));
    ExecutedWithinAssigned(db, scope);
    AssignedWithinReceived(db, scope);
  }

  /** In every state any run reaches. */
  lemma PublishedTotalsOrdered(ops: seq<Op>, project: Option<nat>)
    ensures Inv(EMPTY)
    ensures var db := Run(EMPTY, ops);
      var scope := PublicScope(db, project);
      && TotalExecuted(db, scope) <= TotalAssigned(db, scope) <= TotalReceived(db, Funders(db, scope))
      && SumBy(db.expenses, NotAnnulled()) <= SumBy(db.allocations, LiveAmount())
         <= SumBy(db.donations, ReceivedAmount())
  {
    EmptyLedger();
    PublicTotalsOrdered(Run(EMPTY, ops), project);
    DashboardTotalsOrdered(Run(EMPTY, ops));
  }
}
