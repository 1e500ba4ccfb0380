/**
 Listing metrics. The list queries compute totals in bulk: a LEFT JOIN grouped by the outer row, with
 correlated subqueries for the tables that would multiply the join. They are proved equal to the balance
 properties computed row by row, and the project balance is compared with its allocations' balances.
 */
module Selectors {
  import opened Wrappers
  import opened Sums
  import opened LedgerModel
  import opened LedgerInvariant
  import opened LedgerRuns

  // ---- LEFT JOIN ... GROUP BY -----------------------------------------------------------

  /** The columns of an inner row that the query uses: the foreign key, and what it contributes to the sum. */
  datatype Row = Row(key: nat, amount: int)

  /** A joined row: the outer primary key and the inner row, or nulls when the outer row has no match. */
  datatype Joined = Matched(outer: nat, inner: Row) | Unmatched(outer: nat)

  function Columns<T>(rows: seq<T>, key: T -> nat, weight: T -> int): seq<Row> {
    if rows == [] then []
    else Columns(rows[..|rows| - 1], key, weight) + [Row(key(rows[|rows| - 1]), weight(rows[|rows| - 1]))]
  }

  /** The joined rows of outer row k that have a match. */
  function Matches(rows: seq<Row>, k: nat): seq<Joined> {
    if rows == [] then []
    else
      var last := rows[|rows| - 1];
      Matches(rows[..|rows| - 1], k) + if last.key == k then [Matched(k, last)] else []
  }

  /** The joined rows of one outer row: its matches, or a single null row. */
  function JoinOne(rows: seq<Row>, k: nat): seq<Joined> {
    var matches := Matches(rows, k);
    if |matches| == 0 then [Unmatched(k)] else matches
  }

  function Concat(groups: nat -> seq<Joined>, n: nat): seq<Joined> {
    if n == 0 then [] else Concat(groups, n - 1) + groups(n - 1)
  }

  function JoinedWith(rows: seq<Row>): nat -> seq<Joined> { (k: nat) => JoinOne(rows, k) }

  /** The join of outer rows 0 .. n - 1. */
  function LeftJoin(rows: seq<Row>, n: nat): seq<Joined> { Concat(JoinedWith(rows), n) }

  /** SUM over one group of the join; a null inner row adds nothing. */
  function GroupSum(joined: seq<Joined>, k: nat): int {
    if joined == [] then 0
    else
      var last := joined[|joined| - 1];
      GroupSum(joined[..|joined| - 1], k) + if last.outer == k && last.Matched? then last.inner.amount else 0
  }

  /** The total of the rows with this key, without any join. */
  function OwnSum(rows: seq<Row>, k: nat): int {
    if rows == [] then 0
    else
      var last := rows[|rows| - 1];
      OwnSum(rows[..|rows| - 1], k) + if last.key == k then last.amount else 0
  }

  lemma {:induction false} OwnSumOfColumns<T>(rows: seq<T>, key: T -> nat, weight: T -> int, k: nat)
    ensures OwnSum(Columns(rows, key, weight), k) == SumBy(rows, InGroup(key, weight, k))
  {
    if rows != [] {
      var init, columns := rows[..|rows| - 1], Columns(rows, key, weight);
      OwnSumOfColumns(init, key, weight, k);
      assert columns[..|columns| - 1] == Columns(init, key, weight);
    }
  }

  lemma {:induction false} GroupSumSplit(left: seq<Joined>, right: seq<Joined>, joined: seq<Joined>, k: nat)
    requires joined == left + right
    ensures GroupSum(joined, k) == GroupSum(left, k) + GroupSum(right, k)
    decreases |right|
  {
    if right == [] {
      assert joined == left;
    } else {
      var init := right[..|right| - 1];
      assert joined[..|joined| - 1] == left + init;
      GroupSumSplit(left, init, left + init, k);
    }
  }

  lemma {:induction false} MatchesSum(rows: seq<Row>, j: nat, k: nat)
    ensures GroupSum(Matches(rows, j), k) == if j == k then OwnSum(rows, k) else 0
  {
    if rows != [] {
      var init, last := rows[..|rows| - 1], rows[|rows| - 1];
      MatchesSum(init, j, k);
      if last.key == j {
        GroupSumSplit(Matches(init, j), [Matched(j, last)], Matches(rows, j), k);
        assert [Matched(j, last)][..0] == [];
      } else {
        assert Matches(rows, j) == Matches(init, j);
      }
    }
  }

  lemma JoinOneSum(rows: seq<Row>, j: nat, k: nat)
    ensures GroupSum(JoinOne(rows, j), k) == if j == k then OwnSum(rows, k) else 0
  {
    MatchesSum(rows, j, k);
  }

  lemma {:induction false} ConcatSum(groups: nat -> seq<Joined>, n: nat, k: nat, own: int)
    requires forall j: nat :: GroupSum(groups(j), k) == if j == k then own else 0
    ensures GroupSum(Concat(groups, n), k) == if k < n then own else 0
  {
    if n > 0 {
      ConcatSum(groups, n - 1, k, own);
      GroupSumSplit(Concat(groups, n - 1), groups(n - 1), Concat(groups, n), k);
    }
  }

  /** Grouping the left join gives each outer row the total of its own inner rows: no row is lost, and none is
      counted twice. */
  lemma JoinSum(rows: seq<Row>, n: nat, k: nat)
    ensures GroupSum(LeftJoin(rows, n), k) == if k < n then OwnSum(rows, k) else 0
  {
    forall j: nat ensures GroupSum(JoinedWith(rows)(j), k) == if j == k then OwnSum(rows, k) else 0 {
      JoinOneSum(rows, j, k);
    }
    ConcatSum(JoinedWith(rows), n, k, OwnSum(rows, k));
  }

  /** The listing query: the grouped sum over a table joined to n outer rows. */
  function Listed<T>(rows: seq<T>, key: T -> nat, weight: T -> int, n: nat, k: nat): int {
    GroupSum(LeftJoin(Columns(rows, key, weight), n), k)
  }

  lemma ListedExactly<T>(rows: seq<T>, key: T -> nat, weight: T -> int, n: nat, k: nat)
    requires k < n
    ensures Listed(rows, key, weight, n, k) == SumBy(rows, InGroup(key, weight, k))
  {
    JoinSum(Columns(rows, key, weight), n, k);
    OwnSumOfColumns(rows, key, weight, k);
  }

  // ---- Correlated subquery --------------------------------------------------------------

  /** `.values(key).annotate(total=Sum(...)).values('total')[:1]`: no row at all when nothing matches. */
  function Subquery<T>(rows: seq<T>, matches: T -> bool, weight: T -> int): Option<int> {
    if exists i :: 0 <= i < |rows| && matches(rows[i])
    then Some(SumBy(rows, (x: T) => if matches(x) then weight(x) else 0))
    else None
  }

  function Coalesce(x: Option<int>): int {
    if x.Some? then x.value else 0
  }

  lemma SubquerySum<T>(rows: seq<T>, matches: T -> bool, weight: T -> int, expected: T -> int)
    requires forall i :: 0 <= i < |rows| ==> expected(rows[i]) == if matches(rows[i]) then weight(rows[i]) else 0
    ensures Coalesce(Subquery(rows, matches, weight)) == SumBy(rows, expected)
  {
    SumEqual(rows, expected, (x: T) => if matches(x) then weight(x) else 0);
    if !exists i :: 0 <= i < |rows| && matches(rows[i]) {
      SumEqual(rows, expected, (_: T) => 0);
      SumZero(rows);
    }
  }

  // ---- Donation and allocation listings -------------------------------------------------

  function DonationKey(): Allocation -> nat { (x: Allocation) => x.donation }

  function ProjectKey(): Allocation -> nat { (x: Allocation) => x.project }

  function LiveAllocation(): Allocation -> int {
    (x: Allocation) => if x.status != AllocationStatus.Annulled then x.amount else 0
  }

  function EffectiveExpense(): Expense -> int {
    (e: Expense) => if e.status == ExpenseStatus.Registered then e.amount else 0
  }

  function ActiveReservationOn(a: nat): Request -> bool {
    (r: Request) => r.allocation == a && r.status == ApprovedReserved
  }

  function ReservedColumn(): Request -> int {
    (r: Request) => if r.reserved.Some? then r.reserved.value else 0
  }

  function ListedAssigned(db: Db, d: nat): int {
    Listed(db.allocations, DonationKey(), LiveAllocation(), |db.donations|, d)
  }

  function ListedExecuted(db: Db, a: nat): int {
    Listed(db.expenses, AllocationOf(), EffectiveExpense(), |db.allocations|, a)
  }

  function ListedReserved(db: Db, a: nat): int {
    Coalesce(Subquery(db.requests, ActiveReservationOn(a), ReservedColumn()))
  }

  /** Donation listing: assigned and available agree with the row's own properties. */
  lemma DonationListingExact(db: Db, d: nat)
    requires d < |db.donations|
    ensures ListedAssigned(db, d) == Assigned(db.allocations, d)
    ensures Max(db.donations[d].amount - ListedAssigned(db, d), 0) == DonationAvailable(db, d)
  {
    ListedExactly(db.allocations, DonationKey(), LiveAllocation(), |db.donations|, d);
    SumEqual(db.allocations, InGroup(DonationKey(), LiveAllocation(), d), AssignedWeight(d));
  }

  /** Allocation listing: executed, reserved and available agree with the row's own properties. */
  lemma AllocationListingExact(db: Db, a: nat)
    requires a < |db.allocations|
    ensures ListedExecuted(db, a) == Executed(db.expenses, a)
    ensures ListedReserved(db, a) == Reserved(db.requests, a)
    ensures Max(db.allocations[a].amount - ListedExecuted(db, a) - ListedReserved(db, a), 0)
            == AvailableBalance(db, a, None)
  {
    ListedExactly(db.expenses, AllocationOf(), EffectiveExpense(), |db.allocations|, a);
    SumEqual(db.expenses, InGroup(AllocationOf(), EffectiveExpense(), a), ExecutedWeight(a));
    SubquerySum(db.requests, ActiveReservationOn(a), ReservedColumn(), ReservedWeight(a));
  }

  // ---- Project listing ------------------------------------------------------------------

  predicate Of(db: Db, a: nat, p: nat) {
    a < |db.allocations| && db.allocations[a].project == p
  }

  predicate LiveOf(db: Db, a: nat, p: nat) {
    Of(db, a, p) && db.allocations[a].status != AllocationStatus.Annulled
  }

  function ProjectExpense(db: Db, p: nat): Expense -> bool {
    (e: Expense) => e.status == ExpenseStatus.Registered && LiveOf(db, e.allocation, p)
  }

  function ExpenseAmount(): Expense -> int { (e: Expense) => e.amount }

  function ProjectReservation(db: Db, p: nat): Request -> bool {
    (r: Request) => r.status == ApprovedReserved && Of(db, r.allocation, p)
  }

  function ListedFunded(db: Db, p: nat): int {
    Listed(db.allocations, ProjectKey(), LiveAllocation(), |db.projects|, p)
  }

  function ListedProjectExecuted(db: Db, p: nat): int {
    Coalesce(Subquery(db.expenses, ProjectExpense(db, p), ExpenseAmount()))
  }

  function ListedProjectReserved(db: Db, p: nat): int {
    Coalesce(Subquery(db.requests, ProjectReservation(db, p), ReservedColumn()))
  }

  function ListedAvailable(db: Db, p: nat): int {
    Max(ListedFunded(db, p) - ListedProjectExecuted(db, p) - ListedProjectReserved(db, p), 0)
  }

  // The same totals, allocation by allocation.

  function LiveAmountAt(db: Db, p: nat): nat -> int {
    (a: nat) => if LiveOf(db, a, p) then db.allocations[a].amount else 0
  }

  function LiveExecutedAt(db: Db, p: nat): nat -> int {
    (a: nat) => if LiveOf(db, a, p) then Executed(db.expenses, a) else 0
  }

  function ReservedAt(db: Db, p: nat): nat -> int {
    (a: nat) => if Of(db, a, p) then Reserved(db.requests, a) else 0
  }

  function FundedWeight(p: nat): Allocation -> int {
    (x: Allocation) => if x.project == p && x.status != AllocationStatus.Annulled then x.amount else 0
  }

  lemma FundedByAllocation(db: Db, p: nat)
    requires p < |db.projects|
    ensures ListedFunded(db, p) == SumTo(|db.allocations|, LiveAmountAt(db, p))
  {
    ListedExactly(db.allocations, ProjectKey(), LiveAllocation(), |db.projects|, p);
    SumEqual(db.allocations, InGroup(ProjectKey(), LiveAllocation(), p), FundedWeight(p));
    SumByIndex(db.allocations, FundedWeight(p), LiveAmountAt(db, p));
  }

  function ProjectExpenseWeight(db: Db, p: nat): Expense -> int {
    (e: Expense) => if e.status == ExpenseStatus.Registered && LiveOf(db, e.allocation, p) then e.amount else 0
  }

  lemma ExecutedByAllocation(db: Db, p: nat)
    requires References(db)
    ensures ListedProjectExecuted(db, p) == SumTo(|db.allocations|, LiveExecutedAt(db, p))
  {
    var weight := ProjectExpenseWeight(db, p);
    SubquerySum(db.expenses, ProjectExpense(db, p), ExpenseAmount(), weight);
    GroupBy(db.expenses, AllocationOf(), weight, |db.allocations|);
    forall a: nat | a < |db.allocations|
      ensures GroupTotal(db.expenses, AllocationOf(), weight)(a) == LiveExecutedAt(db, p)(a)
    {
      var group := InGroup(AllocationOf(), weight, a);
      assert GroupTotal(db.expenses, AllocationOf(), weight)(a) == SumBy(db.expenses, group);
      if LiveOf(db, a, p) {
        SumEqual(db.expenses, group, ExecutedWeight(a));
      } else {
        SumEqual(db.expenses, group, (_: Expense) => 0);
        SumZero(db.expenses);
      }
    }
    SumToEqual(|db.allocations|, GroupTotal(db.expenses, AllocationOf(), weight), LiveExecutedAt(db, p));
  }

  function AllocationOfRequest(): Request -> nat { (r: Request) => r.allocation }

  function ProjectReservedWeight(db: Db, p: nat): Request -> int {
    (r: Request) => if Of(db, r.allocation, p) then Held(r) else 0
  }

  lemma ReservedByAllocation(db: Db, p: nat)
    requires References(db)
    ensures ListedProjectReserved(db, p) == SumTo(|db.allocations|, ReservedAt(db, p))
  {
    var weight := ProjectReservedWeight(db, p);
    SubquerySum(db.requests, ProjectReservation(db, p), ReservedColumn(), weight);
    GroupBy(db.requests, AllocationOfRequest(), weight, |db.allocations|);
    forall a: nat | a < |db.allocations|
      ensures GroupTotal(db.requests, AllocationOfRequest(), weight)(a) == ReservedAt(db, p)(a)
    {
      var group := InGroup(AllocationOfRequest(), weight, a);
      assert GroupTotal(db.requests, AllocationOfRequest(), weight)(a) == SumBy(db.requests, group);
      if Of(db, a, p) {
        SumEqual(db.requests, group, ReservedWeight(a));
      } else {
        SumEqual(db.requests, group, (_: Request) => 0);
        SumZero(db.requests);
      }
    }
    SumToEqual(|db.allocations|, GroupTotal(db.requests, AllocationOfRequest(), weight), ReservedAt(db, p));
  }

  /** What each live allocation of p shows as available. */
  function SurplusAt(db: Db, p: nat): nat -> int {
    (a: nat) => if LiveOf(db, a, p) then Max(Free(db, a), 0) else 0
  }

  /** What the clamps hide: over-reservation of live allocations. */
  function DeficitAt(db: Db, p: nat): nat -> int {
    (a: nat) => if LiveOf(db, a, p) then Max(-Free(db, a), 0) else 0
  }

  /** Reservations that outlived their annulled allocation. */
  function StrayAt(db: Db, p: nat): nat -> int {
    (a: nat) => if Of(db, a, p) && !LiveOf(db, a, p) then Reserved(db.requests, a) else 0
  }

  lemma {:induction false} SumToBalance(n: nat, f: nat -> int, g: nat -> int, h: nat -> int,
                                        x: nat -> int, y: nat -> int, z: nat -> int)
    requires forall k: nat :: k < n ==> f(k) - g(k) - h(k) == x(k) - y(k) - z(k)
    ensures SumTo(n, f) - SumTo(n, g) - SumTo(n, h) == SumTo(n, x) - SumTo(n, y) - SumTo(n, z)
  {
    if n > 0 {
      SumToBalance(n - 1, f, g, h, x, y, z);
    }
  }

  lemma ProjectBalance(db: Db, p: nat)
    requires Inv(db) && p < |db.projects|
    ensures ListedFunded(db, p) - ListedProjectExecuted(db, p) - ListedProjectReserved(db, p)
            == SumTo(|db.allocations|, SurplusAt(db, p)) - SumTo(|db.allocations|, DeficitAt(db, p))
               - SumTo(|db.allocations|, StrayAt(db, p))
  {
    FundedByAllocation(db, p);
    ExecutedByAllocation(db, p);
    ReservedByAllocation(db, p);
    SumToBalance(|db.allocations|, LiveAmountAt(db, p), LiveExecutedAt(db, p), ReservedAt(db, p),
                 SurplusAt(db, p), DeficitAt(db, p), StrayAt(db, p));
  }

  /**
   A project's available balance is the sum of its live allocations' available balances exactly when no live
   allocation is over-reserved and no annulled one carries a reservation, or nothing is available at all.
   */
  lemma ProjectAvailableExact(db: Db, p: nat)
    requires Inv(db) && p < |db.projects|
    ensures ListedAvailable(db, p) == SumTo(|db.allocations|, SurplusAt(db, p)) <==>
            || (&& (forall a: nat :: LiveOf(db, a, p) ==> 0 <= Free(db, a))
                && (forall a: nat :: Of(db, a, p) && !LiveOf(db, a, p) ==> Reserved(db.requests, a) == 0))
            || (forall a: nat :: LiveOf(db, a, p) ==> AvailableBalance(db, a, None) == 0)
  {
    var n := |db.allocations|;
    ProjectBalance(db, p);
    forall a: nat | a < n ensures 0 <= StrayAt(db, p)(a) {
      StrayNonNegative(db, p, a);
    }
    SumToZeroExact(n, SurplusAt(db, p));
    SumToZeroExact(n, DeficitAt(db, p));
    SumToZeroExact(n, StrayAt(db, p));
    SurplusZero(db, p);
    DeficitZero(db, p);
    StrayZero(db, p);
  }

  lemma StrayNonNegative(db: Db, p: nat, a: nat)
    requires Inv(db)
    ensures 0 <= StrayAt(db, p)(a)
  {
    if Of(db, a, p) {
      ReservedNonNegative(db, a);
    }
  }

  lemma SurplusZero(db: Db, p: nat)
    ensures (forall a: nat :: a < |db.allocations| ==> SurplusAt(db, p)(a) == 0) <==>
            (forall a: nat :: LiveOf(db, a, p) ==> AvailableBalance(db, a, None) == 0)
  {
    forall a: nat | LiveOf(db, a, p) ensures SurplusAt(db, p)(a) == AvailableBalance(db, a, None) {}
  }

  lemma DeficitZero(db: Db, p: nat)
    ensures (forall a: nat :: a < |db.allocations| ==> DeficitAt(db, p)(a) == 0) <==>
            (forall a: nat :: LiveOf(db, a, p) ==> 0 <= Free(db, a))
  {
    forall a: nat | LiveOf(db, a, p) ensures DeficitAt(db, p)(a) == Max(-Free(db, a), 0) {}
  }

  lemma StrayZero(db: Db, p: nat)
    ensures (forall a: nat :: a < |db.allocations| ==> StrayAt(db, p)(a) == 0) <==>
            (forall a: nat :: Of(db, a, p) && !LiveOf(db, a, p) ==> Reserved(db.requests, a) == 0)
  {
    forall a: nat | Of(db, a, p) && !LiveOf(db, a, p) ensures StrayAt(db, p)(a) == Reserved(db.requests, a) {}
  }
}
