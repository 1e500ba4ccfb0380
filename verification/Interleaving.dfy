/**
 Ledger transactions interleaved step by step. A transaction peeks at the allocation of its request
 without a lock, takes row locks it keeps until it ends, reads rows and aggregates one query at a
 time, writes, re-reads the aggregates with its own uncommitted rows in view, and commits or aborts.
 Any number of transactions run, in any interleaving. The committed ledger is proved to be the one
 obtained by running the committed services atomically, in commit order.
 */
module Interleaving {
  import opened Wrappers
  import opened Sums
  import opened LedgerModel
  import opened LedgerRules
  import opened LedgerInvariant
  import opened Reservations

  datatype Job =
    | Approve(r: nat)
    | Fulfill(r: nat, amount: int)
    | Annul(r: nat)
    | Retarget(r: nat, a: nat, amount: int)
    | Legacy(a: nat, amount: int)
    | Resize(a: nat, d: nat, p: nat, amount: int)

  /** Rows that `select_for_update` locks. No job writes a project or a donation row itself. */
  datatype Row = DonationRow(d: nat) | AllocationRow(a: nat) | RequestRow(r: nat)

  datatype Query =
    | AllocationQuery(a: nat)
    | OperationalQuery(a: nat)
    | RequestQuery(r: nat)
    | ExecutedQuery(a: nat)
    | ReservedQuery(a: nat)
    | OthersQuery(r: nat, a: nat)
    | UnassignedQuery(d: nat, a: nat)
    | FundableQuery(d: nat, p: nat)

  datatype Answer = AllocationIs(allocation: Allocation) | RequestIs(request: Request) | Number(n: int) | Flag(b: bool)

  type Answers = map<Query, Answer>

  predicate Answerable(db: Db, q: Query) {
    match q
    case AllocationQuery(a) => a < |db.allocations|
    case OperationalQuery(a) => References(db) && a < |db.allocations|
    case RequestQuery(r) => r < |db.requests|
    case ExecutedQuery(a) => a < |db.allocations|
    case ReservedQuery(a) => a < |db.allocations|
    case OthersQuery(r, a) => r < |db.requests| && a < |db.allocations|
    case UnassignedQuery(d, a) => d < |db.donations| && a < |db.allocations|
    case FundableQuery(_, _) => true
  }

  function Ask(db: Db, q: Query): Answer
    requires Answerable(db, q)
  {
    match q
    case AllocationQuery(a) => AllocationIs(db.allocations[a])
    case OperationalQuery(a) => Flag(Operational(db, a))
    case RequestQuery(r) => RequestIs(db.requests[r])
    case ExecutedQuery(a) => Number(Executed(db.expenses, a))
    case ReservedQuery(a) => Number(Reserved(db.requests, a))
    case OthersQuery(r, a) => Number(ReservedByOthers(db, r, a))
    case UnassignedQuery(d, a) => Number(UnassignedWithout(db, d, a))
    case FundableQuery(d, p) => Flag(CanFund(db, d, p))
  }

  /** The row whose lock a transaction holds when it asks. */
  function Guard(q: Query): Row {
    match q
    case AllocationQuery(a) => AllocationRow(a)
    case OperationalQuery(a) => AllocationRow(a)
    case RequestQuery(r) => RequestRow(r)
    case ExecutedQuery(a) => AllocationRow(a)
    case ReservedQuery(a) => AllocationRow(a)
    case OthersQuery(_, a) => AllocationRow(a)
    case UnassignedQuery(d, _) => DonationRow(d)
    case FundableQuery(d, _) => DonationRow(d)
  }

  // ---- What a transaction decides, from its own answers ---------------------------------

  function Needs(job: Job, locked: nat): set<Query> {
    match job
    case Approve(r) =>
      {AllocationQuery(locked), OperationalQuery(locked), RequestQuery(r), ExecutedQuery(locked),
       OthersQuery(r, locked)}
    case Fulfill(r, _) =>
      {AllocationQuery(locked), OperationalQuery(locked), RequestQuery(r), ExecutedQuery(locked),
       ReservedQuery(locked), OthersQuery(r, locked)}
    case Annul(r) => {AllocationQuery(locked), RequestQuery(r), ExecutedQuery(locked), ReservedQuery(locked)}
    case Retarget(r, a, _) => {RequestQuery(r), OperationalQuery(a)}
    case Legacy(a, _) => {AllocationQuery(a), OperationalQuery(a), ExecutedQuery(a), ReservedQuery(a)}
    case Resize(a, d, p, _) => {AllocationQuery(a), ExecutedQuery(a), UnassignedQuery(d, a), FundableQuery(d, p)}
  }

  function NumberOf(s: Answers, q: Query): int {
    if q in s && s[q].Number? then s[q].n else 0
  }

  predicate FlagOf(s: Answers, q: Query) {
    q in s && s[q].Flag? && s[q].b
  }

  function AmountOf(s: Answers, a: nat): int {
    var q := AllocationQuery(a);
    if q in s && s[q].AllocationIs? then s[q].allocation.amount else 0
  }

  predicate RequestSeen(s: Answers, r: nat) {
    RequestQuery(r) in s && s[RequestQuery(r)].RequestIs?
  }

  function RequestOf(s: Answers, r: nat): Request
    requires RequestSeen(s, r)
  {
    s[RequestQuery(r)].request
  }

  /** Clamped balance before the write: approval leaves its own request out of the reserved total. */
  function BalanceBefore(job: Job, locked: nat, s: Answers): int {
    var reserved := if job.Approve? then OthersQuery(job.r, locked) else ReservedQuery(locked);
    Max(AmountOf(s, locked) - NumberOf(s, ExecutedQuery(locked)) - NumberOf(s, reserved), 0)
  }

  /** Validation before the write. */
  predicate Accepts(job: Job, locked: nat, s: Answers) {
    match job
    case Approve(r) =>
      && RequestSeen(s, r) && RequestOf(s, r).status == PendingDecision && FlagOf(s, OperationalQuery(locked))
      && RequestOf(s, r).requested <= BalanceBefore(job, locked, s)
    case Fulfill(r, amount) =>
      && RequestSeen(s, r) && RequestOf(s, r).status == ApprovedReserved && FlagOf(s, OperationalQuery(locked))
      && 0 < amount <= Held(RequestOf(s, r))
      && var spare := AmountOf(s, locked) - NumberOf(s, ExecutedQuery(locked));
         && amount <= spare - NumberOf(s, ReservedQuery(locked)) + Held(RequestOf(s, r))
         && amount <= Max(spare - NumberOf(s, OthersQuery(r, locked)), 0)
    case Annul(r) => RequestSeen(s, r) && Open(RequestOf(s, r))
    case Retarget(r, a, amount) =>
      && RequestSeen(s, r) && RequestOf(s, r).status == PendingDecision && FlagOf(s, OperationalQuery(a))
      && amount > 0 && RequestOf(s, r).allocation in {locked, a}
    case Legacy(a, amount) =>
      && FlagOf(s, OperationalQuery(a))
      && 0 < amount <= AmountOf(s, a) - NumberOf(s, ExecutedQuery(a)) - NumberOf(s, ReservedQuery(a))
    case Resize(a, d, p, amount) =>
      && AllocationQuery(a) in s && s[AllocationQuery(a)].AllocationIs?
      && s[AllocationQuery(a)].allocation.status == AllocationStatus.Active
      && FlagOf(s, FundableQuery(d, p))
      && 0 < amount <= NumberOf(s, UnassignedQuery(d, a)) && NumberOf(s, ExecutedQuery(a)) <= amount
  }

  /** Jobs that re-read the balance after writing, and the change they insist on seeing. */
  predicate Rechecks(job: Job) { job.Approve? || job.Fulfill? || job.Annul? }

  function ExpectedChange(job: Job, s: Answers): int
    requires Rechecks(job) && RequestSeen(s, job.r)
  {
    match job
    case Approve(r) => -RequestOf(s, r).requested
    case Fulfill(r, amount) => Held(RequestOf(s, r)) - amount
    case Annul(r) => Held(RequestOf(s, r))
  }

  predicate Consolidated(job: Job, locked: nat, s: Answers, after: Answers)
    requires Rechecks(job) ==> RequestSeen(s, job.r)
  {
    Rechecks(job) ==>
      Max(AmountOf(s, locked) - NumberOf(after, ExecutedQuery(locked)) - NumberOf(after, ReservedQuery(locked)), 0)
      == BalanceBefore(job, locked, s) + ExpectedChange(job, s)
  }

  /** The committed ledger with the transaction's uncommitted rows over it. */
  function Overlay(db: Db, job: Job, locked: nat, s: Answers): Db
    requires Rechecks(job) && RequestSeen(s, job.r) && job.r < |db.requests|
  {
    match job
    case Approve(r) => SetRequest(db, r, Reserve(RequestOf(s, r)))
    case Fulfill(r, amount) =>
      SetRequest(db, r, Link(RequestOf(s, r), |db.expenses|))
        .(expenses := db.expenses + [Expense(locked, amount, ExpenseStatus.Registered)])
    case Annul(r) => SetRequest(db, r, Cancel(RequestOf(s, r)))
  }

  /** What a commit installs, computed from the rows the transaction read. */
  function Publish(db: Db, job: Job, locked: nat, s: Answers): Db
    requires (!job.Legacy? && !job.Resize?) ==> RequestSeen(s, job.r) && job.r < |db.requests|
    requires job.Resize? ==> job.a < |db.allocations|
  {
    match job
    case Approve(r) => SetRequest(db, r, ApprovedRow(RequestOf(s, r)))
    case Fulfill(r, amount) =>
      SetRequest(db, r, FulfilledRow(RequestOf(s, r), |db.expenses|, amount))
        .(expenses := db.expenses + [Expense(locked, amount, ExpenseStatus.Registered)])
    case Annul(r) => SetRequest(db, r, AnnulledRow(RequestOf(s, r)))
    case Retarget(r, a, amount) => SetRequest(db, r, UpdatedRow(RequestOf(s, r), a, amount))
    case Legacy(a, amount) => db.(expenses := db.expenses + [Expense(a, amount, ExpenseStatus.Registered)])
    case Resize(a, d, p, amount) =>
      db.(allocations := db.allocations[a := Allocation(d, p, amount, AllocationStatus.Active)])
  }

  /** The atomic service a transaction stands for, given the allocation it locked. */
  function Atomic(job: Job, locked: nat): Op {
    match job
    case Approve(r) => ApproveRequest(r, locked)
    case Fulfill(r, amount) => FulfillRequest(r, locked, amount)
    case Annul(r) => AnnulRequest(r, locked)
    case Retarget(r, a, amount) => UpdateRequest(r, locked, a, amount)
    case Legacy(a, amount) => CreateLegacyExpense(a, amount)
    case Resize(a, d, p, amount) => UpdateAllocation(a, d, p, amount)
  }

  /** Rows an atomic service must hold the lock of, because what they guard changes. */
  function Writes(db: Db, job: Job, locked: nat): set<Row> {
    match job
    case Approve(r) => {AllocationRow(locked), RequestRow(r)}
    case Fulfill(r, _) => {AllocationRow(locked), RequestRow(r)}
    case Annul(r) => {AllocationRow(locked), RequestRow(r)}
    case Retarget(r, _, _) => {RequestRow(r)}
    case Legacy(a, _) => {AllocationRow(a)}
    case Resize(a, d, _, _) =>
      {AllocationRow(a), DonationRow(d)}
      + if a < |db.allocations| then {DonationRow(db.allocations[a].donation)} else {}
  }

  // ---- Locks protect answers ------------------------------------------------------------

  lemma RowAnswerIsStable(db: Db, job: Job, locked: nat, q: Query)
    requires Inv(db) && Enabled(db, Atomic(job, locked))
    requires Guard(q) !in Writes(db, job, locked)
    requires Answerable(db, q) && (q.AllocationQuery? || q.RequestQuery?)
    ensures var after := Effect(db, Atomic(job, locked));
      Answerable(after, q) && Ask(after, q) == Ask(db, q)
  {
  }

  lemma FlagAnswerIsStable(db: Db, job: Job, locked: nat, q: Query)
    requires Inv(db) && Enabled(db, Atomic(job, locked))
    requires Guard(q) !in Writes(db, job, locked)
    requires Answerable(db, q) && (q.OperationalQuery? || q.FundableQuery?)
    ensures var after := Effect(db, Atomic(job, locked));
      Answerable(after, q) && Ask(after, q) == Ask(db, q)
  {
    KeepsReferences(db, Atomic(job, locked));
  }

  lemma TotalAnswerIsStable(db: Db, job: Job, locked: nat, q: Query)
    requires Inv(db) && Enabled(db, Atomic(job, locked))
    requires Guard(q) !in Writes(db, job, locked)
    requires Answerable(db, q) && (q.ExecutedQuery? || q.ReservedQuery? || q.OthersQuery? || q.UnassignedQuery?)
    ensures var after := Effect(db, Atomic(job, locked));
      Answerable(after, q) && Ask(after, q) == Ask(db, q)
  {
    TablesGrow(db, Atomic(job, locked));
    match q {
      case ExecutedQuery(a) => ExecutedStable(db, job, locked, a);
      case ReservedQuery(a) => ReservedStable(db, job, locked, a);
      case OthersQuery(r, a) => OthersStable(db, job, locked, r, a);
      case UnassignedQuery(d, a) => UnassignedStable(db, job, locked, d, a);
    }
  }

  lemma TablesGrow(db: Db, op: Op)
    requires References(db) && Enabled(db, op)
    ensures var after := Effect(db, op);
      && |db.donations| <= |after.donations| && |db.allocations| <= |after.allocations|
      && |db.requests| <= |after.requests|
  {
  }

  /** A committed service does not change the answer to a query whose guard it does not hold. In particular a
      reservation total changes only under the lock of that very allocation, although the services lock the
      allocation they peeked at: the balance re-check refuses every other one. */
  lemma AnswerIsStable(db: Db, job: Job, locked: nat, q: Query)
    requires Inv(db) && Enabled(db, Atomic(job, locked))
    requires Guard(q) !in Writes(db, job, locked)
    requires Answerable(db, q)
    ensures var after := Effect(db, Atomic(job, locked));
      Answerable(after, q) && Ask(after, q) == Ask(db, q)
  {
    if q.AllocationQuery? || q.RequestQuery? {
      RowAnswerIsStable(db, job, locked, q);
    } else if q.OperationalQuery? || q.FundableQuery? {
      FlagAnswerIsStable(db, job, locked, q);
    } else {
      TotalAnswerIsStable(db, job, locked, q);
    }
  }

  lemma ExecutedStable(db: Db, job: Job, locked: nat, a: nat)
    requires Inv(db) && Enabled(db, Atomic(job, locked))
    requires AllocationRow(a) !in Writes(db, job, locked)
    ensures Executed(Effect(db, Atomic(job, locked)).expenses, a) == Executed(db.expenses, a)
  {
    ExecutedAfter(db, Atomic(job, locked), a);
  }

  lemma ReservedStable(db: Db, job: Job, locked: nat, a: nat)
    requires Inv(db) && Enabled(db, Atomic(job, locked))
    requires AllocationRow(a) !in Writes(db, job, locked)
    ensures Reserved(Effect(db, Atomic(job, locked)).requests, a) == Reserved(db.requests, a)
  {
    ReservedAfter(db, Atomic(job, locked), a);
  }

  lemma OthersStable(db: Db, job: Job, locked: nat, r: nat, a: nat)
    requires Inv(db) && Enabled(db, Atomic(job, locked))
    requires AllocationRow(a) !in Writes(db, job, locked)
    requires r < |db.requests|
    ensures ReservedByOthers(Effect(db, Atomic(job, locked)), r, a) == ReservedByOthers(db, r, a)
  {
    var op := Atomic(job, locked);
    ReservedAfter(db, op, a);
    SumWithout(db.requests, r, ReservedWeight(a));
    SumWithout(RequestsAfter(db, op), r, ReservedWeight(a));
  }

  lemma UnassignedStable(db: Db, job: Job, locked: nat, d: nat, a: nat)
    requires Inv(db) && Enabled(db, Atomic(job, locked))
    requires DonationRow(d) !in Writes(db, job, locked)
    requires d < |db.donations| && a < |db.allocations|
    ensures UnassignedWithout(Effect(db, Atomic(job, locked)), d, a) == UnassignedWithout(db, d, a)
  {
    if job.Resize? {
      var row := Allocation(job.d, job.p, job.amount, AllocationStatus.Active);
      SumWithout(db.allocations, a, AssignedWeight(d));
      SumWithout(db.allocations[job.a := row], a, AssignedWeight(d));
      SumUpdate(db.allocations, job.a, row, AssignedWeight(d));
    }
  }

  // ---- Where the locks do not protect answers -------------------------------------------

  predicate ChangesExpense(op: Op) { op.UpdateExpense? || op.AnnulExpense? }

  /** What the update or annulment of an expense locks: `locked` is the allocation the expense was peeked on, which
      is never compared with the one it is on once its own row is locked. */
  function ExpenseLocks(db: Db, op: Op, locked: nat): set<Row>
    requires ChangesExpense(op)
  {
    {AllocationRow(locked)}
    + (if op.UpdateExpense? then {AllocationRow(op.a)} else {})
    + (if Touched(db, op).Some? then {RequestRow(Touched(db, op).value)} else {})
  }

  /** Every answer under a lock not held is the same after the service. */
  ghost predicate KeepsUnheldAnswers(db: Db, after: Db, held: set<Row>) {
    forall q :: Answerable(db, q) && Guard(q) !in held ==> Answerable(after, q) && Ask(after, q) == Ask(db, q)
  }

  lemma ExpenseChangeKeepsRows(db: Db, op: Op, locked: nat, q: Query)
    requires Inv(db) && Enabled(db, op) && ChangesExpense(op) && Answerable(db, q)
    requires Guard(q) !in ExpenseLocks(db, op, locked)
    requires !q.ExecutedQuery? && !q.ReservedQuery? && !q.OthersQuery?
    ensures Answerable(Effect(db, op), q) && Ask(Effect(db, op), q) == Ask(db, q)
  {
    KeepsReferences(db, op);
  }

  lemma ExpenseChangeKeepsTotals(db: Db, op: Op, locked: nat, q: Query)
    requires Inv(db) && Enabled(db, op) && ChangesExpense(op) && Answerable(db, q)
    requires Guard(q) !in ExpenseLocks(db, op, locked)
    requires AllocationRow(db.expenses[op.e].allocation) in ExpenseLocks(db, op, locked)
    requires q.ExecutedQuery? || q.ReservedQuery? || q.OthersQuery?
    ensures Answerable(Effect(db, op), q) && Ask(Effect(db, op), q) == Ask(db, q)
  {
    TablesGrow(db, op);
    ExecutedAfter(db, op, q.a);
    ReservedAfter(db, op, q.a);
    if q.OthersQuery? {
      SumWithout(db.requests, q.r, ReservedWeight(q.a));
      SumWithout(RequestsAfter(db, op), q.r, ReservedWeight(q.a));
    }
  }

  /** The update or annulment of an expense keeps the answers it holds no lock on exactly when the allocation the
      expense is on is among the rows it locked: not when another update moved the expense after the peek. */
  lemma ExpenseChangeIsGuardedExactly(db: Db, op: Op, locked: nat)
    requires Inv(db) && Enabled(db, op) && ChangesExpense(op)
    ensures KeepsUnheldAnswers(db, Effect(db, op), ExpenseLocks(db, op, locked)) <==>
            AllocationRow(db.expenses[op.e].allocation) in ExpenseLocks(db, op, locked)
  {
    var after, held, own := Effect(db, op), ExpenseLocks(db, op, locked), db.expenses[op.e].allocation;
    if AllocationRow(own) in held {
      forall q | Answerable(db, q) && Guard(q) !in held ensures Answerable(after, q) && Ask(after, q) == Ask(db, q) {
        if q.ExecutedQuery? || q.ReservedQuery? || q.OthersQuery? {
          ExpenseChangeKeepsTotals(db, op, locked, q);
        } else {
          ExpenseChangeKeepsRows(db, op, locked, q);
        }
      }
    } else {
      assert ExpenseOk(db, op.e) && Answerable(db, ExecutedQuery(own));
      ExecutedAfter(db, op, own);
    }
  }

  // ---- A transaction whose answers are still true decides as the rule does ---------------

  predicate Truthful(db: Db, s: Answers) {
    forall q :: q in s ==> Answerable(db, q) && s[q] == Ask(db, q)
  }

  function RecheckQueries(locked: nat): set<Query> {
    {ExecutedQuery(locked), ReservedQuery(locked)}
  }

  /** The re-read answers are those of the committed ledger under the transaction's own rows. */
  predicate TruthfulAfter(db: Db, job: Job, locked: nat, s: Answers, after: Answers)
    requires Rechecks(job) && RequestSeen(s, job.r) && job.r < |db.requests|
  {
    forall q :: q in after ==>
      && q in RecheckQueries(locked)
      && Answerable(Overlay(db, job, locked, s), q) && after[q] == Ask(Overlay(db, job, locked, s), q)
  }

  /** Answers that are complete: everything validation asks for has been read. */
  predicate Complete(job: Job, locked: nat, s: Answers) {
    Needs(job, locked) <= s.Keys
  }

  lemma Answered(db: Db, s: Answers, q: Query)
    requires Truthful(db, s) && q in s
    ensures Answerable(db, q) && s[q] == Ask(db, q)
    ensures Ask(db, q).Number? ==> NumberOf(s, q) == Ask(db, q).n
    ensures Ask(db, q).Flag? ==> FlagOf(s, q) == Ask(db, q).b
  {
  }

  lemma ApproveDecides(db: Db, r: nat, locked: nat, s: Answers)
    requires Inv(db) && Truthful(db, s) && Complete(Approve(r), locked, s)
    ensures RequestSeen(s, r) && r < |db.requests| && RequestOf(s, r) == db.requests[r]
    ensures locked < |db.allocations| && AmountOf(s, locked) == db.allocations[locked].amount
    ensures BalanceBefore(Approve(r), locked, s) == AvailableBalance(db, locked, Some(r))
    ensures FlagOf(s, OperationalQuery(locked)) == Operational(db, locked)
  {
    Answered(db, s, RequestQuery(r));
    Answered(db, s, AllocationQuery(locked));
    Answered(db, s, OperationalQuery(locked));
    Answered(db, s, ExecutedQuery(locked));
    Answered(db, s, OthersQuery(r, locked));
  }

  lemma FulfillDecides(db: Db, r: nat, amount: int, locked: nat, s: Answers)
    requires Inv(db) && Truthful(db, s) && Complete(Fulfill(r, amount), locked, s)
    ensures RequestSeen(s, r) && r < |db.requests| && RequestOf(s, r) == db.requests[r]
    ensures locked < |db.allocations| && AmountOf(s, locked) == db.allocations[locked].amount
    ensures BalanceBefore(Fulfill(r, amount), locked, s) == AvailableBalance(db, locked, None)
    ensures FlagOf(s, OperationalQuery(locked)) == Operational(db, locked)
    ensures NumberOf(s, ExecutedQuery(locked)) == Executed(db.expenses, locked)
    ensures NumberOf(s, ReservedQuery(locked)) == Reserved(db.requests, locked)
    ensures NumberOf(s, OthersQuery(r, locked)) == ReservedByOthers(db, r, locked)
  {
    Answered(db, s, RequestQuery(r));
    Answered(db, s, AllocationQuery(locked));
    Answered(db, s, OperationalQuery(locked));
    Answered(db, s, ExecutedQuery(locked));
    Answered(db, s, ReservedQuery(locked));
    Answered(db, s, OthersQuery(r, locked));
  }

  lemma AnnulDecides(db: Db, r: nat, locked: nat, s: Answers)
    requires Inv(db) && Truthful(db, s) && Complete(Annul(r), locked, s)
    ensures RequestSeen(s, r) && r < |db.requests| && RequestOf(s, r) == db.requests[r]
    ensures locked < |db.allocations| && AmountOf(s, locked) == db.allocations[locked].amount
    ensures BalanceBefore(Annul(r), locked, s) == AvailableBalance(db, locked, None)
  {
    Answered(db, s, RequestQuery(r));
    Answered(db, s, AllocationQuery(locked));
    Answered(db, s, ExecutedQuery(locked));
    Answered(db, s, ReservedQuery(locked));
  }

  lemma RetargetDecides(db: Db, r: nat, a: nat, amount: int, locked: nat, s: Answers)
    requires Inv(db) && Truthful(db, s) && Complete(Retarget(r, a, amount), locked, s)
    ensures Accepts(Retarget(r, a, amount), locked, s) <==> Enabled(db, UpdateRequest(r, locked, a, amount))
    ensures RequestSeen(s, r) && r < |db.requests| && RequestOf(s, r) == db.requests[r]
  {
    Answered(db, s, RequestQuery(r));
    Answered(db, s, OperationalQuery(a));
  }

  lemma LegacyDecides(db: Db, a: nat, amount: int, locked: nat, s: Answers)
    requires Inv(db) && Truthful(db, s) && Complete(Legacy(a, amount), locked, s)
    ensures Accepts(Legacy(a, amount), locked, s) <==> Enabled(db, CreateLegacyExpense(a, amount))
  {
    Answered(db, s, AllocationQuery(a));
    Answered(db, s, OperationalQuery(a));
    Answered(db, s, ExecutedQuery(a));
    Answered(db, s, ReservedQuery(a));
  }

  lemma ResizeDecides(db: Db, a: nat, d: nat, p: nat, amount: int, locked: nat, s: Answers)
    requires Inv(db) && Truthful(db, s) && Complete(Resize(a, d, p, amount), locked, s)
    ensures Accepts(Resize(a, d, p, amount), locked, s) <==> Enabled(db, UpdateAllocation(a, d, p, amount))
  {
    Answered(db, s, AllocationQuery(a));
    Answered(db, s, ExecutedQuery(a));
    Answered(db, s, UnassignedQuery(d, a));
    Answered(db, s, FundableQuery(d, p));
  }

  /** Jobs that do not re-read the balance: validation alone is the rule. */
  lemma PlainDecides(db: Db, job: Job, locked: nat, s: Answers)
    requires Inv(db) && Truthful(db, s) && Complete(job, locked, s) && !Rechecks(job)
    ensures Accepts(job, locked, s) <==> Enabled(db, Atomic(job, locked))
  {
    match job {
      case Retarget(r, a, amount) => RetargetDecides(db, r, a, amount, locked, s);
      case Legacy(a, amount) => LegacyDecides(db, a, amount, locked, s);
      case Resize(a, d, p, amount) => ResizeDecides(db, a, d, p, amount, locked, s);
    }
  }

  lemma RefusedApproval(db: Db, r: nat, locked: nat, s: Answers)
    requires Inv(db) && Truthful(db, s) && Complete(Approve(r), locked, s)
    requires !Accepts(Approve(r), locked, s)
    ensures !Enabled(db, Atomic(Approve(r), locked))
  {
    ApproveDecides(db, r, locked, s);
    SumWithout(db.requests, r, ReservedWeight(locked));
  }

  lemma RefusedFulfillment(db: Db, r: nat, amount: int, locked: nat, s: Answers)
    requires Inv(db) && Truthful(db, s) && Complete(Fulfill(r, amount), locked, s)
    requires !Accepts(Fulfill(r, amount), locked, s)
    ensures !Enabled(db, Atomic(Fulfill(r, amount), locked))
  {
    FulfillAccepts(db, r, amount, locked, s);
    if HasStatus(r, ApprovedReserved, db) {
      FulfillChecksExact(db, r, locked, amount);
    }
  }

  /** A transaction that validation turns away would be turned away atomically too. */
  lemma RefusalIsRule(db: Db, job: Job, locked: nat, s: Answers)
    requires Inv(db) && Truthful(db, s) && Complete(job, locked, s)
    requires !Accepts(job, locked, s)
    ensures !Enabled(db, Atomic(job, locked))
  {
    match job {
      case Approve(r) => RefusedApproval(db, r, locked, s);
      case Fulfill(r, amount) => RefusedFulfillment(db, r, amount, locked, s);
      case Annul(r) => AnnulDecides(db, r, locked, s);
      case _ => PlainDecides(db, job, locked, s);
    }
  }

  lemma AnsweredAfter(db: Db, job: Job, locked: nat, s: Answers, after: Answers)
    requires Rechecks(job) && RequestSeen(s, job.r) && job.r < |db.requests| && locked < |db.allocations|
    requires TruthfulAfter(db, job, locked, s, after) && RecheckQueries(locked) <= after.Keys
    ensures var mine := Overlay(db, job, locked, s);
      && NumberOf(after, ExecutedQuery(locked)) == Executed(mine.expenses, locked)
      && NumberOf(after, ReservedQuery(locked)) == Reserved(mine.requests, locked)
  {
    assert ExecutedQuery(locked) in RecheckQueries(locked) && ReservedQuery(locked) in RecheckQueries(locked);
    assert ExecutedQuery(locked) in after && ReservedQuery(locked) in after;
  }

  /** The balance re-read after the write is the service's balance over the uncommitted rows. */
  lemma BalanceAfter(db: Db, job: Job, locked: nat, s: Answers, after: Answers)
    requires Rechecks(job) && RequestSeen(s, job.r) && job.r < |db.requests| && locked < |db.allocations|
    requires AmountOf(s, locked) == db.allocations[locked].amount
    requires TruthfulAfter(db, job, locked, s, after) && RecheckQueries(locked) <= after.Keys
    ensures Consolidated(job, locked, s, after) <==>
            AvailableBalance(Overlay(db, job, locked, s), locked, None)
            == BalanceBefore(job, locked, s) + ExpectedChange(job, s)
  {
    AnsweredAfter(db, job, locked, s, after);
  }

  /** Validation of a fulfilment is the sequence of checks the sequential service makes before it writes. */
  lemma FulfillAccepts(db: Db, r: nat, amount: int, locked: nat, s: Answers)
    requires Inv(db) && Truthful(db, s) && Complete(Fulfill(r, amount), locked, s)
    ensures r < |db.requests| && locked < |db.allocations|
    ensures Accepts(Fulfill(r, amount), locked, s) <==>
            && HasStatus(r, ApprovedReserved, db) && Operational(db, locked)
            && 0 < amount <= Held(db.requests[r])
            && ExpenseFits(db, locked, amount, None, Held(db.requests[r]))
            && ExpenseClean(db, None, locked, amount, ReservedByOthers(db, r, locked))
  {
    FulfillDecides(db, r, amount, locked, s);
  }

  lemma ApproveRecheck(db: Db, r: nat, locked: nat, s: Answers, after: Answers)
    requires Inv(db) && Truthful(db, s) && Complete(Approve(r), locked, s)
    requires Accepts(Approve(r), locked, s) && r < |db.requests|
    requires TruthfulAfter(db, Approve(r), locked, s, after) && RecheckQueries(locked) <= after.Keys
    ensures Consolidated(Approve(r), locked, s, after) <==> Enabled(db, ApproveRequest(r, locked))
  {
    ApproveDecides(db, r, locked, s);
    BalanceAfter(db, Approve(r), locked, s, after);
    ApproveChecksExact(db, r, locked);
  }

  lemma FulfillRecheck(db: Db, r: nat, amount: int, locked: nat, s: Answers, after: Answers)
    requires Inv(db) && Truthful(db, s) && Complete(Fulfill(r, amount), locked, s)
    requires Accepts(Fulfill(r, amount), locked, s) && r < |db.requests|
    requires TruthfulAfter(db, Fulfill(r, amount), locked, s, after) && RecheckQueries(locked) <= after.Keys
    ensures Consolidated(Fulfill(r, amount), locked, s, after) <==> Enabled(db, FulfillRequest(r, locked, amount))
  {
    FulfillAccepts(db, r, amount, locked, s);
    FulfillBalanceMatches(db, r, amount, locked, s, after);
    FulfillChecksExact(db, r, locked, amount);
  }

  lemma FulfillBalanceMatches(db: Db, r: nat, amount: int, locked: nat, s: Answers, after: Answers)
    requires Inv(db) && Truthful(db, s) && Complete(Fulfill(r, amount), locked, s)
    requires r < |db.requests| && locked < |db.allocations|
    requires TruthfulAfter(db, Fulfill(r, amount), locked, s, after) && RecheckQueries(locked) <= after.Keys
    ensures Consolidated(Fulfill(r, amount), locked, s, after) <==>
              AvailableBalance(LinkedDb(db, r, locked, amount), locked, None)
              == AvailableBalance(db, locked, None) + (Held(db.requests[r]) - amount)
  {
    FulfillDecides(db, r, amount, locked, s);
    BalanceAfter(db, Fulfill(r, amount), locked, s, after);
    assert Overlay(db, Fulfill(r, amount), locked, s) == LinkedDb(db, r, locked, amount);
  }

  lemma AnnulRecheck(db: Db, r: nat, locked: nat, s: Answers, after: Answers)
    requires Inv(db) && Truthful(db, s) && Complete(Annul(r), locked, s)
    requires Accepts(Annul(r), locked, s) && r < |db.requests|
    requires TruthfulAfter(db, Annul(r), locked, s, after) && RecheckQueries(locked) <= after.Keys
    ensures Consolidated(Annul(r), locked, s, after) <==> Enabled(db, AnnulRequest(r, locked))
  {
    AnnulDecides(db, r, locked, s);
    BalanceAfter(db, Annul(r), locked, s, after);
    AnnulChecksExact(db, r, locked);
  }

  /** A validated transaction that re-reads the balance agrees with the checks of the sequential service. */
  lemma RecheckIsRule(db: Db, job: Job, locked: nat, s: Answers, after: Answers)
    requires Inv(db) && Truthful(db, s) && Complete(job, locked, s)
    requires Rechecks(job) && Accepts(job, locked, s) && job.r < |db.requests|
    requires TruthfulAfter(db, job, locked, s, after) && RecheckQueries(locked) <= after.Keys
    ensures Consolidated(job, locked, s, after) <==> Enabled(db, Atomic(job, locked))
  {
    match job {
      case Approve(r) => ApproveRecheck(db, r, locked, s, after);
      case Fulfill(r, amount) => FulfillRecheck(db, r, amount, locked, s, after);
      case Annul(r) => AnnulRecheck(db, r, locked, s, after);
    }
  }
}
