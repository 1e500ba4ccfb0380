/**
 The ledger as its history tells it. Every field of every row is what the latest committed call that speaks of the
 field said, and every log is what the calls on its request entered, one after the other. The rows are thereby
 determined by the text of the committed calls alone, without any reference to what a service computes.
 */
module LedgerHistory {
  import opened Wrappers
  import opened LedgerModel
  import opened LedgerRules
  import opened LedgerInvariant
  import opened LedgerRuns

  // ---- Committed calls ------------------------------------------------------------------

  /** The calls of a run that committed, in order. */
  function Committed(db: Db, ops: seq<Op>): (calls: seq<Op>)
    requires Inv(db)
    decreases |ops|
  {
    if ops == [] then []
    else
      var init, last := ops[..|ops| - 1], ops[|ops| - 1];
      Committed(db, init) + if Enabled(Run(db, init), last) then [last] else []
  }

  /** Refused calls leave nothing behind: a run ends where its committed calls lead. */
  lemma {:induction false} RunIsItsCommittedCalls(db: Db, ops: seq<Op>)
    requires Inv(db)
    ensures AllCommitted(db, Committed(db, ops)) && Run(db, Committed(db, ops)) == Run(db, ops)
    decreases |ops|
  {
    if ops != [] {
      var init, last := ops[..|ops| - 1], ops[|ops| - 1];
      RunIsItsCommittedCalls(db, init);
      if Enabled(Run(db, init), last) {
        RunAppend(db, Committed(db, init), last);
      } else {
        assert Committed(db, init) + [] == Committed(db, init);
      }
    }
  }

  /** Call k commits, from one ledger to the next. */
  predicate Commits(states: seq<Db>, ops: seq<Op>, k: nat) {
    && k < |ops| && k + 1 < |states|
    && Inv(states[k]) && Enabled(states[k], ops[k]) && states[k + 1] == Effect(states[k], ops[k])
  }

  /** Every call of the run commits. */
  ghost predicate Traces(states: seq<Db>, ops: seq<Op>) {
    |states| == |ops| + 1 && forall k: nat :: k < |ops| ==> Commits(states, ops, k)
  }

  /** These calls committed one after the other, from the empty ledger, and led to db. */
  ghost predicate Reached(calls: seq<Op>, db: Db) {
    exists states :: Traces(states, calls) && states[0] == EMPTY && states[|calls|] == db
  }

  lemma TracePrefix(states: seq<Db>, calls: seq<Op>, k: nat, first: seq<Op>)
    requires Traces(states, calls) && states[0] == EMPTY && k <= |calls| && first == calls[..k]
    ensures Reached(first, states[k])
  {
    var shorter := states[..k + 1];
    forall i: nat | i < k ensures Commits(shorter, first, i) {
      assert Commits(states, calls, i);
    }
    assert Traces(shorter, first) && shorter[0] == EMPTY && shorter[|first|] == states[k];
  }

  /** The ledger before the last call. */
  lemma LastCall(calls: seq<Op>, db: Db) returns (before: Db)
    requires Reached(calls, db) && calls != []
    ensures Reached(calls[..|calls| - 1], before) && References(before)
    ensures Enabled(before, calls[|calls| - 1]) && db == Effect(before, calls[|calls| - 1])
  {
    var states :| Traces(states, calls) && states[0] == EMPTY && states[|calls|] == db;
    var k := |calls| - 1;
    TracePrefix(states, calls, k, calls[..k]);
    assert Commits(states, calls, k);
    before := states[k];
  }

  lemma NextCommits(calls: seq<Op>, db: Db, op: Op)
    requires Reached(calls, db) && Inv(db) && Enabled(db, op)
    ensures Reached(calls + [op], Effect(db, op))
  {
    var states :| Traces(states, calls) && states[0] == EMPTY && states[|calls|] == db;
    var longer, more := states + [Effect(db, op)], calls + [op];
    forall k: nat | k < |more| ensures Commits(longer, more, k) {
      if k < |calls| { assert Commits(states, calls, k); }
    }
    assert Traces(longer, more) && longer[0] == EMPTY && longer[|more|] == Effect(db, op);
  }

  /** Being reached by these calls is being where their run ends, with none of them refused. */
  lemma {:induction false} ReachedExactly(calls: seq<Op>, db: Db)
    ensures Inv(EMPTY)
    ensures Reached(calls, db) <==> AllCommitted(EMPTY, calls) && Run(EMPTY, calls) == db
    decreases |calls|
  {
    EmptyLedger();
    if calls == [] {
      assert db == EMPTY ==> Traces([EMPTY], calls) && [EMPTY][|calls|] == db;
    } else {
      var init := calls[..|calls| - 1];
      assert init + [calls[|init|]] == calls;
      if Reached(calls, db) {
        var before := LastCall(calls, db);
        ReachedExactly(init, before);
      }
      if AllCommitted(EMPTY, calls) && Run(EMPTY, calls) == db {
        ReachedExactly(init, Run(EMPTY, init));
        NextCommits(init, Run(EMPTY, init), calls[|init|]);
      }
    }
  }

  lemma ReachedInv(calls: seq<Op>, db: Db)
    requires Reached(calls, db)
    ensures Inv(db)
  {
    ReachedExactly(calls, db);
  }

  /** Every ledger a run comes to is reached by the calls of the run that committed. */
  lemma ReachedByRun(ops: seq<Op>)
    ensures Inv(EMPTY) && Reached(Committed(EMPTY, ops), Run(EMPTY, ops))
  {
    EmptyLedger();
    RunIsItsCommittedCalls(EMPTY, ops);
    ReachedExactly(Committed(EMPTY, ops), Run(EMPTY, ops));
  }

  /** The ledger at a call of the history, and after it. */
  lemma AtCall(calls: seq<Op>, db: Db, k: nat) returns (before: Db)
    requires Reached(calls, db) && k < |calls|
    ensures Reached(calls[..k], before) && References(before) && Enabled(before, calls[k])
    ensures Reached(calls[..k + 1], Effect(before, calls[k]))
  {
    var states :| Traces(states, calls) && states[0] == EMPTY && states[|calls|] == db;
    TracePrefix(states, calls, k, calls[..k]);
    TracePrefix(states, calls, k + 1, calls[..k + 1]);
    assert Commits(states, calls, k);
    before := states[k];
  }

  // ---- What calls say -------------------------------------------------------------------

  datatype Kind = DonationMade | ProjectMade | AllocationMade | RequestMade | ExpenseMade

  predicate Makes(op: Op, kind: Kind) {
    match kind
    case DonationMade => op.CreateDonation?
    case ProjectMade => op.CreateProject?
    case AllocationMade => op.CreateAllocation?
    case RequestMade => op.CreateRequest?
    case ExpenseMade => op.FulfillRequest? || op.CreateLegacyExpense?
  }

  /** How many rows of a kind the calls made; the next one made gets this primary key. */
  function Made(calls: seq<Op>, kind: Kind): nat
    decreases |calls|
  {
    if calls == [] then 0
    else Made(calls[..|calls| - 1], kind) + if Makes(calls[|calls| - 1], kind) then 1 else 0
  }

  /** What a call says of some field, given the calls before it; None when it does not speak of it. */
  type Saying<T> = (seq<Op>, Op) -> Option<T>

  /** What the latest call that speaks of the field said. */
  function Latest<T>(calls: seq<Op>, says: Saying<T>): Option<T>
    decreases |calls|
  {
    if calls == [] then None
    else
      var earlier, op := calls[..|calls| - 1], calls[|calls| - 1];
      if says(earlier, op).Some? then says(earlier, op) else Latest(earlier, says)
  }

  lemma LatestStep<T>(earlier: seq<Op>, op: Op, calls: seq<Op>, says: Saying<T>)
    requires calls == earlier + [op]
    ensures Latest(calls, says) == if says(earlier, op).Some? then says(earlier, op) else Latest(earlier, says)
  {
    assert calls[..|calls| - 1] == earlier;
  }

  lemma MadeStep(earlier: seq<Op>, op: Op, calls: seq<Op>, kind: Kind)
    requires calls == earlier + [op]
    ensures Made(calls, kind) == Made(earlier, kind) + if Makes(op, kind) then 1 else 0
  {
    assert calls[..|calls| - 1] == earlier;
  }

  /** The latest word is that of some call after which no other speaks. */
  lemma {:induction false} LatestIsLast<T>(calls: seq<Op>, says: Saying<T>, k: nat)
    requires k < |calls| && says(calls[..k], calls[k]).Some?
    requires forall i :: k < i < |calls| ==> says(calls[..i], calls[i]).None?
    ensures Latest(calls, says) == says(calls[..k], calls[k])
    decreases |calls|
  {
    var init := calls[..|calls| - 1];
    if k < |init| {
      assert init[..k] == calls[..k];
      forall i | k < i < |init| ensures says(init[..i], init[i]).None? {
        assert init[..i] == calls[..i];
      }
      LatestIsLast(init, says, k);
    }
  }

  /** And there is such a call whenever anything was said. */
  lemma {:induction false} LatestSpeaker<T>(calls: seq<Op>, says: Saying<T>) returns (k: nat)
    requires Latest(calls, says).Some?
    ensures k < |calls| && says(calls[..k], calls[k]) == Latest(calls, says)
    ensures forall i :: k < i < |calls| ==> says(calls[..i], calls[i]).None?
    decreases |calls|
  {
    var init := calls[..|calls| - 1];
    if says(init, calls[|init|]).Some? {
      k := |init|;
    } else {
      k := LatestSpeaker(init, says);
      assert init[..k] == calls[..k];
      forall i | k < i < |calls| ensures says(calls[..i], calls[i]).None? {
        if i < |init| { assert init[..i] == calls[..i]; }
      }
    }
  }

  function DonationTerms(d: nat): Saying<(int, bool)> {
    (earlier: seq<Op>, op: Op) =>
      match op
      case CreateDonation(amount, dated) => if Made(earlier, DonationMade) == d then Some((amount, dated)) else None
      case UpdateDonation(x, amount, dated) => if x == d then Some((amount, dated)) else None
      case _ => None
  }

  function DonationStanding(d: nat): Saying<DonationStatus> {
    (earlier: seq<Op>, op: Op) =>
      match op
      case CreateDonation(_, _) => if Made(earlier, DonationMade) == d then Some(DonationStatus.Registered) else None
      case ReceiveDonation(x) => if x == d then Some(Received) else None
      case AnnulDonation(x) => if x == d then Some(DonationStatus.Annulled) else None
      case _ => None
  }

  function ProjectStanding(p: nat): Saying<ProjectStatus> {
    (earlier: seq<Op>, op: Op) =>
      match op
      case CreateProject => if Made(earlier, ProjectMade) == p then Some(ProjectStatus.Active) else None
      case FinishProject(x) => if x == p then Some(Closed) else None
      case _ => None
  }

  function Publicity(p: nat): Saying<bool> {
    (earlier: seq<Op>, op: Op) =>
      match op
      case CreateProject => if Made(earlier, ProjectMade) == p then Some(false) else None
      case PublishProject(x) => if x == p then Some(true) else None
      case UnpublishProject(x) => if x == p then Some(false) else None
      case FinishProject(x) => if x == p then Some(false) else None
      case _ => None
  }

  /** Donation, project and amount of an allocation. */
  function AllocationTerms(a: nat): Saying<(nat, nat, int)> {
    (earlier: seq<Op>, op: Op) =>
      match op
      case CreateAllocation(d, p, amount) => if Made(earlier, AllocationMade) == a then Some((d, p, amount)) else None
      case UpdateAllocation(x, d, p, amount) => if x == a then Some((d, p, amount)) else None
      case _ => None
  }

  function AllocationStanding(a: nat): Saying<AllocationStatus> {
    (earlier: seq<Op>, op: Op) =>
      match op
      case CreateAllocation(_, _, _) =>
        if Made(earlier, AllocationMade) == a then Some(AllocationStatus.Active) else None
      case FinishAllocation(x) => if x == a then Some(Finished) else None
      case AnnulAllocation(x) => if x == a then Some(AllocationStatus.Annulled) else None
      case _ => None
  }

  /** Allocation and amount of a request. */
  function RequestTerms(r: nat): Saying<(nat, int)> {
    (earlier: seq<Op>, op: Op) =>
      match op
      case CreateRequest(a, amount) => if Made(earlier, RequestMade) == r then Some((a, amount)) else None
      case UpdateRequest(x, _, a, amount) => if x == r then Some((a, amount)) else None
      case _ => None
  }

  function RequestStanding(r: nat): Saying<RequestStatus> {
    (earlier: seq<Op>, op: Op) =>
      match op
      case CreateRequest(_, _) => if Made(earlier, RequestMade) == r then Some(PendingDecision) else None
      case WithdrawRequest(x, _) => if x == r then Some(RequestStatus.Withdrawn) else None
      case DenyRequest(x, _) => if x == r then Some(RequestStatus.Denied) else None
      case ApproveRequest(x, _) => if x == r then Some(ApprovedReserved) else None
      case FulfillRequest(x, _, _) => if x == r then Some(Fulfilled) else None
      case AnnulRequest(x, _) => if x == r then Some(RequestStatus.Annulled) else None
      case _ => None
  }

  /** Only an approval reserves, and what it reserves is the amount asked for at that moment. */
  function Reservation(r: nat): Saying<Option<int>> {
    (earlier: seq<Op>, op: Op) =>
      match op
      case CreateRequest(_, _) => if Made(earlier, RequestMade) == r then Some(None) else None
      case ApproveRequest(x, _) => if x == r then Some(Some(AskedBy(earlier, r))) else None
      case _ => None
  }

  /** Only a fulfilment links an expense, the one it makes. */
  function ExpenseLink(r: nat): Saying<Option<nat>> {
    (earlier: seq<Op>, op: Op) =>
      match op
      case CreateRequest(_, _) => if Made(earlier, RequestMade) == r then Some(None) else None
      case FulfillRequest(x, _, _) => if x == r then Some(Some(Made(earlier, ExpenseMade))) else None
      case _ => None
  }

  /** Allocation and amount of an expense. */
  function ExpenseTerms(e: nat): Saying<(nat, int)> {
    (earlier: seq<Op>, op: Op) =>
      match op
      case FulfillRequest(_, a, amount) => if Made(earlier, ExpenseMade) == e then Some((a, amount)) else None
      case CreateLegacyExpense(a, amount) => if Made(earlier, ExpenseMade) == e then Some((a, amount)) else None
      case UpdateExpense(x, a, amount) => if x == e then Some((a, amount)) else None
      case _ => None
  }

  function ExpenseStanding(e: nat): Saying<ExpenseStatus> {
    (earlier: seq<Op>, op: Op) =>
      match op
      case FulfillRequest(_, _, _) =>
        if Made(earlier, ExpenseMade) == e then Some(ExpenseStatus.Registered) else None
      case CreateLegacyExpense(_, _) =>
        if Made(earlier, ExpenseMade) == e then Some(ExpenseStatus.Registered) else None
      case AnnulExpense(x) => if x == e then Some(ExpenseStatus.Annulled) else None
      case _ => None
  }

  /** The amount the latest creation or update of a request asked for. */
  function AskedBy(calls: seq<Op>, r: nat): int {
    var terms := Latest(calls, RequestTerms(r));
    if terms.Some? then terms.value.1 else 0
  }

  function SpentBy(calls: seq<Op>, e: nat): int {
    var terms := Latest(calls, ExpenseTerms(e));
    if terms.Some? then terms.value.1 else 0
  }

  function IsApproved(calls: seq<Op>, r: nat): bool {
    Latest(calls, RequestStanding(r)) == Some(ApprovedReserved)
  }

  /** What a call enters in the log of request r. */
  function Entries(earlier: seq<Op>, op: Op, r: nat): seq<Event> {
    match op
    case CreateRequest(_, _) =>
      if Made(earlier, RequestMade) == r then [Event(Created, PendingDecision, None, None, None)] else []
    case UpdateRequest(x, _, _, _) => if x == r then [Event(Updated, PendingDecision, None, None, None)] else []
    case WithdrawRequest(x, _) =>
      if x == r then [Event(EventType.Withdrawn, RequestStatus.Withdrawn, None, None, None)] else []
    case DenyRequest(x, _) =>
      if x == r then [Event(EventType.Denied, RequestStatus.Denied, None, None, None)] else []
    case ApproveRequest(x, _) =>
      var asked := Some(AskedBy(earlier, r));
      if x != r then []
      else [Event(Approved, ApprovedReserved, asked, None, None),
            Event(ReservationCreated, ApprovedReserved, asked, None, None)]
    case FulfillRequest(x, _, amount) =>
      var reserved, rest := AskedBy(earlier, r), AskedBy(earlier, r) - amount;
      if x != r then []
      else [Event(ExpenseRegistered, Fulfilled, Some(reserved), Some(amount), Some(rest)),
            Event(ReservationConsumed, Fulfilled, Some(reserved), Some(amount), Some(rest))]
           + if rest == 0 then []
             else [Event(UnusedReservationReleased, Fulfilled, Some(reserved), Some(amount), Some(rest))]
    case AnnulRequest(x, _) =>
      var reserved := Some(AskedBy(earlier, r));
      if x != r then []
      else if IsApproved(earlier, r)
      then [Event(EventType.Annulled, RequestStatus.Annulled, reserved, None, reserved),
            Event(ReservationReleased, RequestStatus.Annulled, reserved, None, reserved)]
      else [Event(EventType.Annulled, RequestStatus.Annulled, None, None, None)]
    case AnnulExpense(e) =>
      var spent := Some(SpentBy(earlier, e));
      if Latest(earlier, ExpenseLink(r)) == Some(Some(e))
      then [Event(LinkedExpenseAnnulled, Fulfilled, None, spent, spent)] else []
    case _ => []
  }

  function LogOf(calls: seq<Op>, r: nat): seq<Event>
    decreases |calls|
  {
    if calls == [] then []
    else LogOf(calls[..|calls| - 1], r) + Entries(calls[..|calls| - 1], calls[|calls| - 1], r)
  }

  // ---- The rows are what the calls said -------------------------------------------------

  predicate DonationTold(calls: seq<Op>, d: nat, x: Donation) {
    && Latest(calls, DonationTerms(d)) == Some((x.amount, x.hasReceivedDate))
    && Latest(calls, DonationStanding(d)) == Some(x.status)
  }

  predicate ProjectTold(calls: seq<Op>, p: nat, x: Project) {
    && Latest(calls, ProjectStanding(p)) == Some(x.status)
    && Latest(calls, Publicity(p)) == Some(x.isPublic)
  }

  predicate AllocationTold(calls: seq<Op>, a: nat, x: Allocation) {
    && Latest(calls, AllocationTerms(a)) == Some((x.donation, x.project, x.amount))
    && Latest(calls, AllocationStanding(a)) == Some(x.status)
  }

  predicate ExpenseTold(calls: seq<Op>, e: nat, x: Expense) {
    && Latest(calls, ExpenseTerms(e)) == Some((x.allocation, x.amount))
    && Latest(calls, ExpenseStanding(e)) == Some(x.status)
  }

  predicate RequestTold(calls: seq<Op>, r: nat, x: Request) {
    && Latest(calls, RequestTerms(r)) == Some((x.allocation, x.requested))
    && Latest(calls, RequestStanding(r)) == Some(x.status)
    && Latest(calls, Reservation(r)) == Some(x.reserved)
    && Latest(calls, ExpenseLink(r)) == Some(x.expense)
    && LogOf(calls, r) == x.log
  }

  /** As many rows as were made. */
  predicate Counted(calls: seq<Op>, db: Db) {
    && |db.donations| == Made(calls, DonationMade)
    && |db.projects| == Made(calls, ProjectMade)
    && |db.allocations| == Made(calls, AllocationMade)
    && |db.requests| == Made(calls, RequestMade)
    && |db.expenses| == Made(calls, ExpenseMade)
  }

  /** Every field of every row is what the latest call about it said, and every log what the calls entered. */
  predicate Told(calls: seq<Op>, db: Db) {
    && Counted(calls, db)
    && (forall d :: 0 <= d < |db.donations| ==> DonationTold(calls, d, db.donations[d]))
    && (forall p :: 0 <= p < |db.projects| ==> ProjectTold(calls, p, db.projects[p]))
    && (forall a :: 0 <= a < |db.allocations| ==> AllocationTold(calls, a, db.allocations[a]))
    && (forall r :: 0 <= r < |db.requests| ==> RequestTold(calls, r, db.requests[r]))
    && (forall e :: 0 <= e < |db.expenses| ==> ExpenseTold(calls, e, db.expenses[e]))
  }

  lemma CountStep(earlier: seq<Op>, op: Op, calls: seq<Op>, before: Db)
    requires calls == earlier + [op] && References(before) && Enabled(before, op) && Counted(earlier, before)
    ensures Counted(calls, Effect(before, op))
  {
    forall kind ensures Made(calls, kind) == Made(earlier, kind) + if Makes(op, kind) then 1 else 0 {
      MadeStep(earlier, op, calls, kind);
    }
  }

  lemma DonationStep(earlier: seq<Op>, op: Op, calls: seq<Op>, before: Db, d: nat)
    requires calls == earlier + [op] && References(before) && Enabled(before, op) && Counted(earlier, before)
    requires d < |before.donations| ==> DonationTold(earlier, d, before.donations[d])
    requires d < |DonationsAfter(before, op)|
    ensures DonationTold(calls, d, DonationsAfter(before, op)[d])
  {
    LatestStep(earlier, op, calls, DonationTerms(d));
    LatestStep(earlier, op, calls, DonationStanding(d));
  }

  lemma ProjectStep(earlier: seq<Op>, op: Op, calls: seq<Op>, before: Db, p: nat)
    requires calls == earlier + [op] && References(before) && Enabled(before, op) && Counted(earlier, before)
    requires p < |before.projects| ==> ProjectTold(earlier, p, before.projects[p])
    requires p < |ProjectsAfter(before, op)|
    ensures ProjectTold(calls, p, ProjectsAfter(before, op)[p])
  {
    LatestStep(earlier, op, calls, ProjectStanding(p));
    LatestStep(earlier, op, calls, Publicity(p));
  }

  lemma AllocationStep(earlier: seq<Op>, op: Op, calls: seq<Op>, before: Db, a: nat)
    requires calls == earlier + [op] && References(before) && Enabled(before, op) && Counted(earlier, before)
    requires a < |before.allocations| ==> AllocationTold(earlier, a, before.allocations[a])
    requires a < |AllocationsAfter(before, op)|
    ensures AllocationTold(calls, a, AllocationsAfter(before, op)[a])
  {
    LatestStep(earlier, op, calls, AllocationTerms(a));
    LatestStep(earlier, op, calls, AllocationStanding(a));
  }

  lemma ExpenseStep(earlier: seq<Op>, op: Op, calls: seq<Op>, before: Db, e: nat)
    requires calls == earlier + [op] && References(before) && Enabled(before, op) && Counted(earlier, before)
    requires e < |before.expenses| ==> ExpenseTold(earlier, e, before.expenses[e])
    requires e < |ExpensesAfter(before, op)|
    ensures ExpenseTold(calls, e, ExpensesAfter(before, op)[e])
  {
    LatestStep(earlier, op, calls, ExpenseTerms(e));
    LatestStep(earlier, op, calls, ExpenseStanding(e));
  }

  /** A linked expense is linked to one request only, so its annulment touches that one. */
  lemma AnnulmentTouches(db: Db, e: nat, r: nat)
    requires LinksInjective(db) && r < |db.requests|
    ensures LinkedRequest(db.requests, e) == Some(r) <==> db.requests[r].expense == Some(e)
  {
  }

  /** The row of a request after a call, field by field. */
  lemma RequestAfter(earlier: seq<Op>, op: Op, before: Db, r: nat) returns (row: Request)
    requires References(before) && LinksInjective(before) && Enabled(before, op)
    requires |before.requests| == Made(earlier, RequestMade)
    requires r < |RequestsAfter(before, op)|
    ensures row == RequestsAfter(before, op)[r]
    ensures r >= |before.requests| ==> op.CreateRequest? && row == NewRequest(op.a, op.amount)
    ensures r < |before.requests| ==>
              row == if Touched(before, op) == Some(r) then TouchedRow(before, op, before.requests[r])
                     else before.requests[r]
    ensures r < |before.requests| && op.AnnulExpense? ==>
              (Touched(before, op) == Some(r) <==> before.requests[r].expense == Some(op.e))
  {
    row := RequestsAfter(before, op)[r];
    if r < |before.requests| && op.AnnulExpense? { AnnulmentTouches(before, op.e, r); }
  }

  lemma RequestFieldsStep(earlier: seq<Op>, op: Op, calls: seq<Op>, before: Db, r: nat)
    requires calls == earlier + [op] && References(before) && LinksInjective(before) && Enabled(before, op)
    requires Counted(earlier, before)
    requires r < |before.requests| ==> RequestTold(earlier, r, before.requests[r])
    requires r < |RequestsAfter(before, op)|
    ensures var x := RequestsAfter(before, op)[r];
      && Latest(calls, RequestTerms(r)) == Some((x.allocation, x.requested))
      && Latest(calls, RequestStanding(r)) == Some(x.status)
      && Latest(calls, Reservation(r)) == Some(x.reserved)
      && Latest(calls, ExpenseLink(r)) == Some(x.expense)
  {
    var row := RequestAfter(earlier, op, before, r);
    LatestStep(earlier, op, calls, RequestTerms(r));
    LatestStep(earlier, op, calls, RequestStanding(r));
    LatestStep(earlier, op, calls, Reservation(r));
    LatestStep(earlier, op, calls, ExpenseLink(r));
  }

  /** A call enters what its service logs. */
  lemma EntriesAreLogged(earlier: seq<Op>, op: Op, before: Db, r: nat)
    requires References(before) && Enabled(before, op) && r < |before.requests| && Touched(before, op) == Some(r)
    requires RequestTold(earlier, r, before.requests[r]) && RequestClean(before.requests[r])
    requires before.requests[r].reserved.Some? ==>
               before.requests[r].reserved.value == before.requests[r].requested
    requires op.AnnulExpense? ==>
               before.requests[r].expense == Some(op.e) && ExpenseTold(earlier, op.e, before.expenses[op.e])
    ensures TouchedRow(before, op, before.requests[r]).log == before.requests[r].log + Entries(earlier, op, r)
  {
  }

  lemma LogStep(earlier: seq<Op>, op: Op, calls: seq<Op>, before: Db, r: nat)
    requires calls == earlier + [op] && Inv(before) && Enabled(before, op)
    requires Told(earlier, before) && r < |RequestsAfter(before, op)|
    requires r >= |before.requests| ==> LogOf(earlier, r) == []
    ensures LogOf(calls, r) == RequestsAfter(before, op)[r].log
  {
    var row := RequestAfter(earlier, op, before, r);
    assert calls[..|calls| - 1] == earlier;
    if r < |before.requests| {
      assert RequestTold(earlier, r, before.requests[r]);
      if Touched(before, op) == Some(r) {
        RequestShape(before, r);
        EntriesAreLogged(earlier, op, before, r);
      } else {
        assert Entries(earlier, op, r) == [];
      }
    }
  }

  lemma {:induction false} ReachedCounted(calls: seq<Op>, db: Db)
    requires Reached(calls, db)
    ensures Counted(calls, db)
    decreases |calls|
  {
    if calls != [] {
      var init, last := calls[..|calls| - 1], calls[|calls| - 1];
      var before := LastCall(calls, db);
      ReachedCounted(init, before);
      CountStep(init, last, init + [last], before);
      assert init + [last] == calls;
    }
  }

  /** A request that has not been made has no link and no log. */
  lemma {:induction false} NotMadeYet(calls: seq<Op>, db: Db, r: nat)
    requires Reached(calls, db) && |db.requests| <= r
    ensures Latest(calls, ExpenseLink(r)).None? && LogOf(calls, r) == []
    decreases |calls|
  {
    if calls != [] {
      var init := calls[..|calls| - 1];
      var before := LastCall(calls, db);
      ReachedCounted(init, before);
      NotMadeYet(init, before, r);
    }
  }

  /** The history theorem: the committed calls alone determine every field of every row, and every log. */
  lemma {:induction false} CallsTellTheLedger(calls: seq<Op>, db: Db)
    requires Reached(calls, db)
    ensures Told(calls, db)
    decreases |calls|
  {
    ReachedCounted(calls, db);
    if calls != [] {
      var init, last := calls[..|calls| - 1], calls[|calls| - 1];
      var before := LastCall(calls, db);
      CallsTellTheLedger(init, before);
      ReachedInv(init, before);
      assert init + [last] == calls;
      TablesTold(init, last, calls, before);
      forall r | 0 <= r < |db.requests| ensures RequestTold(calls, r, db.requests[r]) {
        if r >= |before.requests| { NotMadeYet(init, before, r); }
        RequestFieldsStep(init, last, calls, before, r);
        LogStep(init, last, calls, before, r);
      }
    }
  }

  lemma TablesTold(earlier: seq<Op>, op: Op, calls: seq<Op>, before: Db)
    requires calls == earlier + [op] && References(before) && Enabled(before, op) && Told(earlier, before)
    ensures forall d :: 0 <= d < |DonationsAfter(before, op)| ==> DonationTold(calls, d, DonationsAfter(before, op)[d])
    ensures forall p :: 0 <= p < |ProjectsAfter(before, op)| ==> ProjectTold(calls, p, ProjectsAfter(before, op)[p])
    ensures forall a :: 0 <= a < |AllocationsAfter(before, op)| ==>
              AllocationTold(calls, a, AllocationsAfter(before, op)[a])
    ensures forall e :: 0 <= e < |ExpensesAfter(before, op)| ==> ExpenseTold(calls, e, ExpensesAfter(before, op)[e])
  {
    forall d | 0 <= d < |DonationsAfter(before, op)| ensures DonationTold(calls, d, DonationsAfter(before, op)[d]) {
      DonationStep(earlier, op, calls, before, d);
    }
    forall p | 0 <= p < |ProjectsAfter(before, op)| ensures ProjectTold(calls, p, ProjectsAfter(before, op)[p]) {
      ProjectStep(earlier, op, calls, before, p);
    }
    forall a | 0 <= a < |AllocationsAfter(before, op)|
      ensures AllocationTold(calls, a, AllocationsAfter(before, op)[a])
    {
      AllocationStep(earlier, op, calls, before, a);
    }
    forall e | 0 <= e < |ExpensesAfter(before, op)| ensures ExpenseTold(calls, e, ExpensesAfter(before, op)[e]) {
      ExpenseStep(earlier, op, calls, before, e);
    }
  }
}
