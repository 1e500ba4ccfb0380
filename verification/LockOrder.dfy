/**
 The order in which the services take row locks. Every service but one climbs the same ladder of tables,
 and each table in primary-key order, so waiting can never close a cycle.
 */
module LockOrder {
  import opened LedgerModel
  import opened LedgerRules

  datatype Table = Donations | Allocations | Expenses | Projects | Requests | Institutions | CodeSequences

  datatype Lock = Lock(table: Table, pk: nat)

  function Rank(t: Table): nat {
    match t
    case Donations => 0
    case Allocations => 1
    case Expenses => 2
    case Projects => 3
    case Requests => 4
    case Institutions => 5
    case CodeSequences => 6
  }

  predicate Before(x: Lock, y: Lock) {
    Rank(x.table) < Rank(y.table) || (x.table == y.table && x.pk < y.pk)
  }

  predicate Increasing(plan: seq<Lock>) {
    forall i, j :: 0 <= i < j < |plan| ==> Before(plan[i], plan[j])
  }

  /** `select_for_update().filter(pk__in=ids).order_by('pk')` on a table of n rows. */
  function InOrder(t: Table, ids: set<nat>, n: nat): seq<Lock> {
    if n == 0 then [] else InOrder(t, ids, n - 1) + if n - 1 in ids then [Lock(t, n - 1)] else []
  }

  lemma {:induction false} InOrderIncreases(t: Table, ids: set<nat>, n: nat)
    ensures Increasing(InOrder(t, ids, n))
    ensures forall i :: 0 <= i < |InOrder(t, ids, n)| ==>
              InOrder(t, ids, n)[i].table == t && InOrder(t, ids, n)[i].pk < n
  {
    if n > 0 {
      InOrderIncreases(t, ids, n - 1);
    }
  }

  // ---- What each service locks ----------------------------------------------------------

  function DonationOf(db: Db, a: nat): nat { if a < |db.allocations| then db.allocations[a].donation else 0 }

  function ProjectOf(db: Db, a: nat): nat { if a < |db.allocations| then db.allocations[a].project else 0 }

  function AllocationOfExpense(db: Db, e: nat): nat { if e < |db.expenses| then db.expenses[e].allocation else 0 }

  /** Donation, allocation, project: the donation id is read before any lock, the project id after two. */
  function Parents(early: Db, late: Db, a: nat): seq<Lock> {
    [Lock(Donations, DonationOf(early, a)), Lock(Allocations, a), Lock(Projects, ProjectOf(late, a))]
  }

  function AllocationsOf(db: Db, p: nat): set<nat> {
    set a | 0 <= a < |db.allocations| && db.allocations[a].project == p
  }

  function OpenRequestsOn(db: Db, allocations: set<nat>): set<nat> {
    set r | 0 <= r < |db.requests| && db.requests[r].allocation in allocations && Open(db.requests[r])
  }

  function DonationsOf(db: Db, allocations: set<nat>): set<nat> {
    set a | a in allocations :: DonationOf(db, a)
  }

  function ProjectsOf(db: Db, allocations: set<nat>): set<nat> {
    set a | a in allocations :: ProjectOf(db, a)
  }

  /** Code sequence rows, one a namespace. */
  const DONATION_CODES := Lock(CodeSequences, 0)
  const PROJECT_CODES := Lock(CodeSequences, 1)
  const ALLOCATION_CODES := Lock(CodeSequences, 2)
  const EXPENSE_CODES := Lock(CodeSequences, 3)
  const REQUEST_CODES := Lock(CodeSequences, 4)

  /** The locks a service takes, in the order it takes them. `early` is the ledger its unlocked reads saw,
      `late` the ledger its reads under lock saw, `donor` the institution of a donation. */
  function Plan(early: Db, late: Db, op: Op, donor: nat): seq<Lock> {
    match op
    case CreateDonation(_, _) => [Lock(Institutions, donor), DONATION_CODES]
    case UpdateDonation(d, _, _) => [Lock(Donations, d), Lock(Institutions, donor)]
    case ReceiveDonation(d) => [Lock(Donations, d)]
    case AnnulDonation(d) => [Lock(Donations, d)]
    case CreateProject => [PROJECT_CODES]
    case FinishProject(p) =>
      InOrder(Donations, DonationsOf(early, AllocationsOf(early, p)), |early.donations|)
      + InOrder(Allocations, AllocationsOf(early, p), |early.allocations|)
      + [Lock(Projects, p)]
      + InOrder(Requests, OpenRequestsOn(late, AllocationsOf(late, p)), |late.requests|)
    case PublishProject(p) => [Lock(Projects, p)]
    case UnpublishProject(p) => [Lock(Projects, p)]
    case CreateAllocation(d, p, _) => [Lock(Donations, d), Lock(Projects, p), ALLOCATION_CODES]
    case UpdateAllocation(a, d, p, _) =>
      [Lock(Allocations, a)] + InOrder(Donations, {DonationOf(late, a), d}, |late.donations|) + [Lock(Projects, p)]
    case FinishAllocation(a) =>
      Parents(early, late, a) + InOrder(Requests, OpenRequestsOn(late, {a}), |late.requests|)
    case AnnulAllocation(a) => [Lock(Donations, DonationOf(early, a)), Lock(Allocations, a)]
    case CreateRequest(a, _) => Parents(early, late, a) + [REQUEST_CODES]
    case UpdateRequest(r, reference, a, _) =>
      InOrder(Donations, DonationsOf(early, {reference, a}), |early.donations|)
      + InOrder(Allocations, {reference, a}, |early.allocations|)
      + InOrder(Projects, ProjectsOf(late, {reference, a}), |late.projects|)
      + [Lock(Requests, r)]
    case WithdrawRequest(r, locked) => Parents(early, late, locked) + [Lock(Requests, r)]
    case DenyRequest(r, locked) => Parents(early, late, locked) + [Lock(Requests, r)]
    case ApproveRequest(r, locked) => Parents(early, late, locked) + [Lock(Requests, r)]
    case FulfillRequest(r, locked, _) => Parents(early, late, locked) + [Lock(Requests, r), EXPENSE_CODES]
    case AnnulRequest(r, locked) => Parents(early, late, locked) + [Lock(Requests, r)]
    case CreateLegacyExpense(a, _) => Parents(early, late, a) + [EXPENSE_CODES]
    case UpdateExpense(e, a, _) =>
      var allocations := {AllocationOfExpense(early, e), a};
      InOrder(Donations, DonationsOf(early, allocations), |early.donations|)
      + InOrder(Allocations, allocations, |early.allocations|)
      + [Lock(Expenses, e)]
      + InOrder(Projects, ProjectsOf(late, allocations), |late.projects|)
    case AnnulExpense(e) =>
      [Lock(Donations, DonationOf(early, AllocationOfExpense(early, e))),
       Lock(Allocations, AllocationOfExpense(early, e)), Lock(Expenses, e)]
      + var linked := LinkedRequest(late.requests, e);
        if linked.Some? then [Lock(Requests, linked.value)] else []
  }

  predicate Below(x: seq<Lock>, y: seq<Lock>) {
    forall i, j :: 0 <= i < |x| && 0 <= j < |y| ==> Before(x[i], y[j])
  }

  lemma Stack(x: seq<Lock>, y: seq<Lock>)
    requires Increasing(x) && Increasing(y) && Below(x, y)
    ensures Increasing(x + y)
  {
  }

  /** Four groups of locks, each above the one before. */
  lemma Tower(x: seq<Lock>, y: seq<Lock>, z: seq<Lock>, w: seq<Lock>)
    requires Increasing(x) && Increasing(y) && Increasing(z) && Increasing(w)
    requires Below(x, y) && Below(x, z) && Below(x, w) && Below(y, z) && Below(y, w) && Below(z, w)
    ensures Increasing(x + y + z + w)
  {
    Stack(x, y);
    Stack(x + y, z);
    Stack(x + y + z, w);
  }

  lemma FinishProjectClimbs(early: Db, late: Db, p: nat, donor: nat)
    ensures Increasing(Plan(early, late, FinishProject(p), donor))
  {
    var xs := AllocationsOf(early, p);
    var rs := OpenRequestsOn(late, AllocationsOf(late, p));
    InOrderIncreases(Donations, DonationsOf(early, xs), |early.donations|);
    InOrderIncreases(Allocations, xs, |early.allocations|);
    InOrderIncreases(Requests, rs, |late.requests|);
    Tower(InOrder(Donations, DonationsOf(early, xs), |early.donations|),
          InOrder(Allocations, xs, |early.allocations|),
          [Lock(Projects, p)],
          InOrder(Requests, rs, |late.requests|));
  }

  lemma UpdateRequestClimbs(early: Db, late: Db, r: nat, reference: nat, a: nat, amount: int, donor: nat)
    ensures Increasing(Plan(early, late, UpdateRequest(r, reference, a, amount), donor))
  {
    var xs := {reference, a};
    InOrderIncreases(Donations, DonationsOf(early, xs), |early.donations|);
    InOrderIncreases(Allocations, xs, |early.allocations|);
    InOrderIncreases(Projects, ProjectsOf(late, xs), |late.projects|);
    Tower(InOrder(Donations, DonationsOf(early, xs), |early.donations|),
          InOrder(Allocations, xs, |early.allocations|),
          InOrder(Projects, ProjectsOf(late, xs), |late.projects|),
          [Lock(Requests, r)]);
  }

  lemma UpdateExpenseClimbs(early: Db, late: Db, e: nat, a: nat, amount: int, donor: nat)
    ensures Increasing(Plan(early, late, UpdateExpense(e, a, amount), donor))
  {
    var xs := {AllocationOfExpense(early, e), a};
    InOrderIncreases(Donations, DonationsOf(early, xs), |early.donations|);
    InOrderIncreases(Allocations, xs, |early.allocations|);
    InOrderIncreases(Projects, ProjectsOf(late, xs), |late.projects|);
    Tower(InOrder(Donations, DonationsOf(early, xs), |early.donations|),
          InOrder(Allocations, xs, |early.allocations|),
          [Lock(Expenses, e)],
          InOrder(Projects, ProjectsOf(late, xs), |late.projects|));
  }

  lemma FinishAllocationClimbs(early: Db, late: Db, a: nat, donor: nat)
    ensures Increasing(Plan(early, late, FinishAllocation(a), donor))
  {
    InOrderIncreases(Requests, OpenRequestsOn(late, {a}), |late.requests|);
    Stack(Parents(early, late, a), InOrder(Requests, OpenRequestsOn(late, {a}), |late.requests|));
  }

  predicate LocksParents(op: Op) {
    || op.CreateRequest? || op.WithdrawRequest? || op.DenyRequest? || op.ApproveRequest? || op.FulfillRequest?
    || op.AnnulRequest? || op.CreateLegacyExpense?
  }

  /** The services that lock the parents of one allocation, then a fixed list. */
  lemma ParentPlansClimb(early: Db, late: Db, op: Op, donor: nat)
    requires LocksParents(op)
    ensures Increasing(Plan(early, late, op, donor))
  {
  }

  lemma AnnulExpenseClimbs(early: Db, late: Db, e: nat, donor: nat)
    ensures Increasing(Plan(early, late, AnnulExpense(e), donor))
  {
  }

  /** The services that lock a fixed list of rows. */
  lemma FixedPlansClimb(early: Db, late: Db, op: Op, donor: nat)
    requires !op.UpdateAllocation? && !op.FinishProject? && !op.FinishAllocation?
    requires !op.UpdateRequest? && !op.UpdateExpense? && !op.AnnulExpense? && !LocksParents(op)
    ensures Increasing(Plan(early, late, op, donor))
  {
  }

  /** Whatever the unlocked and the locked reads saw, every service but the allocation update climbs. */
  lemma PlansIncrease(early: Db, late: Db, op: Op, donor: nat)
    requires !op.UpdateAllocation?
    ensures Increasing(Plan(early, late, op, donor))
  {
    match op {
      case FinishProject(p) => FinishProjectClimbs(early, late, p, donor);
      case FinishAllocation(a) => FinishAllocationClimbs(early, late, a, donor);
      case UpdateRequest(r, reference, a, amount) => UpdateRequestClimbs(early, late, r, reference, a, amount, donor);
      case UpdateExpense(e, a, amount) => UpdateExpenseClimbs(early, late, e, a, amount, donor);
      case AnnulExpense(e) => AnnulExpenseClimbs(early, late, e, donor);
      case _ =>
        if LocksParents(op) {
          ParentPlansClimb(early, late, op, donor);
        } else {
          FixedPlansClimb(early, late, op, donor);
        }
    }
  }

  lemma {:induction false} InOrderHas(t: Table, ids: set<nat>, n: nat, k: nat)
    requires k in ids && k < n
    ensures Lock(t, k) in InOrder(t, ids, n)
  {
    if k < n - 1 {
      InOrderHas(t, ids, n - 1, k);
    }
  }

  /** The allocation update takes its allocation before the donation it is funded by, so it never climbs. */
  lemma AllocationUpdateDescends(early: Db, late: Db, a: nat, d: nat, p: nat, amount: int, donor: nat)
    requires d < |late.donations|
    ensures !Increasing(Plan(early, late, UpdateAllocation(a, d, p, amount), donor))
  {
    var ds := InOrder(Donations, {DonationOf(late, a), d}, |late.donations|);
    InOrderHas(Donations, {DonationOf(late, a), d}, |late.donations|, d);
    var i :| 0 <= i < |ds| && ds[i] == Lock(Donations, d);
    var plan := Plan(early, late, UpdateAllocation(a, d, p, amount), donor);
    assert plan[0] == Lock(Allocations, a) && plan[1 + i] == Lock(Donations, d);
  }
}
