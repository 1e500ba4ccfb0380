/**
 Where the free capacity of an allocation comes from and goes, over single steps and over runs that mix all
 services: how much approvals can take, how an over-reservation ends, and how a reservation comes to be left on
 an annulled allocation.
 */
module FreeCapacity {
  import opened Sums
  import opened LedgerModel
  import opened LedgerRules
  import opened LedgerInvariant
  import opened LedgerRuns
  import opened LedgerHistory
  import opened Reservations

  // ---- One step -------------------------------------------------------------------------

  /** What a service adds to the free capacity of allocation a, or takes from it. */
  function FreeChange(db: Db, op: Op, a: nat): int
    requires References(db) && Enabled(db, op) && a < |db.allocations|
  {
    match op
    case UpdateAllocation(x, _, _, amount) => if x == a then amount - db.allocations[a].amount else 0
    case ApproveRequest(r, locked) => if locked == a then -db.requests[r].requested else 0
    case FulfillRequest(r, locked, amount) => if locked == a then Held(db.requests[r]) - amount else 0
    case AnnulRequest(r, _) => if db.requests[r].allocation == a then Held(db.requests[r]) else 0
    case CreateLegacyExpense(target, amount) => if target == a then -amount else 0
    case UpdateExpense(e, target, amount) =>
      (if db.expenses[e].allocation == a then db.expenses[e].amount else 0) - (if target == a then amount else 0)
    case AnnulExpense(e) => if db.expenses[e].allocation == a then db.expenses[e].amount else 0
    case _ => 0
  }

  lemma FreeAfter(db: Db, op: Op, a: nat)
    requires References(db) && Enabled(db, op) && a < |db.allocations|
    ensures a < |Effect(db, op).allocations|
    ensures Free(Effect(db, op), a) == Free(db, a) + FreeChange(db, op, a)
  {
    ExecutedAfter(db, op, a);
    ReservedAfter(db, op, a);
  }

  /** The steps that end an over-reservation of allocation a. */
  predicate Relieves(db: Db, op: Op, a: nat)
    requires References(db) && Enabled(db, op) && a < |db.allocations|
  {
    match op
    case UpdateAllocation(x, _, _, amount) => x == a && Executed(db.expenses, a) + Reserved(db.requests, a) <= amount
    case UpdateExpense(e, target, _) =>
      db.expenses[e].allocation == a && (target == a || -Free(db, a) <= db.expenses[e].amount)
    case AnnulExpense(e) => db.expenses[e].allocation == a && -Free(db, a) <= db.expenses[e].amount
    case _ => false
  }

  /**
   An over-reservation ends exactly by raising the allocation to what is executed and reserved, by updating one of
   its expenses in place, or by annulling or moving away an expense of at least the missing amount.
   */
  lemma OverReservationEndsExactly(db: Db, op: Op, a: nat)
    requires Inv(db) && Enabled(db, op) && a < |db.allocations| && Free(db, a) < 0
    ensures a < |Effect(db, op).allocations|
    ensures 0 <= Free(Effect(db, op), a) <==> Relieves(db, op, a)
  {
    FreeAfter(db, op, a);
    if op.ApproveRequest? {
      RequestShape(db, op.r);
    }
  }

  // ---- Reservations left on an annulled allocation --------------------------------------

  /** Allocation a is annulled and still carries a reservation. */
  predicate Stray(db: Db, a: nat) {
    && a < |db.allocations|
    && db.allocations[a].status == AllocationStatus.Annulled
    && Reserved(db.requests, a) > 0
  }

  /** A stray reservation arises exactly when an allocation is annulled while something is reserved on it. */
  lemma StrayArisesExactly(db: Db, op: Op, a: nat)
    requires Inv(db) && Enabled(db, op) && !Stray(db, a)
    ensures Stray(Effect(db, op), a) <==> op == Op.AnnulAllocation(a) && Reserved(db.requests, a) > 0
  {
    ReservedAfter(db, op, a);
    if a >= |db.allocations| {
      NoReservationYet(db.requests, a);
    } else if op.AnnulRequest? {
      RequestShape(db, op.r);
    } else if op.FulfillRequest? {
      RequestShape(db, op.r);
    }
  }

  /** It ends exactly when the request that holds all of it is annulled: nothing on it can be fulfilled. */
  lemma StrayEndsExactly(db: Db, op: Op, a: nat)
    requires Inv(db) && Enabled(db, op) && Stray(db, a)
    ensures !Stray(Effect(db, op), a) <==>
              && op.AnnulRequest?
              && db.requests[op.r].allocation == a
              && Held(db.requests[op.r]) == Reserved(db.requests, a)
  {
    ReservedAfter(db, op, a);
    if op.AnnulRequest? {
      FulfillmentFits(db, op.r, a);
    }
  }

  const PLEDGED := Db([Donation(DonationStatus.Registered, 100, true)], [], [], [], [])

  const RECEIVED := Db([Donation(Received, 100, true)], [], [], [], [])

  const PLANNED := RECEIVED.(projects := [Project(ProjectStatus.Active, false)])

  /** An allocation of 100 funded in full, on an active project. */
  const FUNDED := Db(
    [Donation(Received, 100, true)], [Project(ProjectStatus.Active, false)],
    [Allocation(0, 0, 100, AllocationStatus.Active)], [], [])

  const REQUESTED := FUNDED.(requests := [NewRequest(0, 60)])

  const APPROVED := FUNDED.(requests := [ApprovedRow(NewRequest(0, 60))])

  const STRANDED := APPROVED.(allocations := [Allocation(0, 0, 100, AllocationStatus.Annulled)])

  lemma NextCall(ops: seq<Op>, db: Db, op: Op, after: Db) returns (longer: seq<Op>)
    requires Reached(ops, db) && References(db) && Enabled(db, op) && Effect(db, op) == after
    ensures Reached(longer, after)
  {
    ReachedInv(ops, db);
    NextCommits(ops, db, op);
    longer := ops + [op];
  }

  lemma DonationArrives() returns (ops: seq<Op>)
    ensures Reached(ops, RECEIVED)
  {
    ReachedExactly([], EMPTY);
    ops := NextCall([], EMPTY, Op.CreateDonation(100, true), PLEDGED);
    ops := NextCall(ops, PLEDGED, ReceiveDonation(0), RECEIVED);
  }

  lemma FundingCommits()
    ensures References(PLANNED) && Enabled(PLANNED, CreateAllocation(0, 0, 100))
    ensures Effect(PLANNED, CreateAllocation(0, 0, 100)) == FUNDED
  {
    assert Assigned(PLANNED.allocations, 0) == 0;
  }

  lemma FundingRun() returns (ops: seq<Op>)
    ensures Reached(ops, FUNDED)
  {
    ops := DonationArrives();
    ops := NextCall(ops, RECEIVED, Op.CreateProject, PLANNED);
    FundingCommits();
    ops := NextCall(ops, PLANNED, CreateAllocation(0, 0, 100), FUNDED);
  }

  lemma ApprovalCommits()
    ensures References(REQUESTED) && Enabled(REQUESTED, ApproveRequest(0, 0))
    ensures Effect(REQUESTED, ApproveRequest(0, 0)) == APPROVED
  {
    assert Free(REQUESTED, 0) == 100;
  }

  lemma ApprovalRun() returns (ops: seq<Op>)
    ensures Reached(ops, APPROVED)
  {
    ops := FundingRun();
    ops := NextCall(ops, FUNDED, CreateRequest(0, 60), REQUESTED);
    ApprovalCommits();
    ops := NextCall(ops, REQUESTED, ApproveRequest(0, 0), APPROVED);
  }

  lemma AnnulmentStrands()
    ensures References(APPROVED) && Enabled(APPROVED, Op.AnnulAllocation(0))
    ensures Effect(APPROVED, Op.AnnulAllocation(0)) == STRANDED && Stray(STRANDED, 0)
  {
    assert [ApprovedRow(NewRequest(0, 60))][..0] == [];
    assert Reserved(STRANDED.requests, 0) == 60;
  }

  /** A ledger with a stray reservation is reached from the empty one: fund, request, approve, annul the allocation. */
  lemma StrayIsReachable() returns (ops: seq<Op>)
    ensures Reached(ops, STRANDED) && Stray(STRANDED, 0)
  {
    ops := ApprovalRun();
    AnnulmentStrands();
    ops := NextCall(ops, APPROVED, Op.AnnulAllocation(0), STRANDED);
  }

  const SHRUNK := APPROVED.(allocations := [Allocation(0, 0, 50, AllocationStatus.Active)])

  const LOST := APPROVED.(allocations := [Allocation(0, 0, 50, AllocationStatus.Annulled)])

  lemma ApprovedTotals()
    ensures Reserved(APPROVED.requests, 0) == 60 && Executed(APPROVED.expenses, 0) == 0
  {
    assert [ApprovedRow(NewRequest(0, 60))][..0] == [];
  }

  lemma ShrinkingCommits()
    ensures References(APPROVED) && Enabled(APPROVED, Op.UpdateAllocation(0, 0, 0, 50))
    ensures Effect(APPROVED, Op.UpdateAllocation(0, 0, 0, 50)) == SHRUNK && Free(SHRUNK, 0) == -10
  {
    ApprovedTotals();
    assert Without(APPROVED.allocations, 0) == [];
    assert Assigned([], 0) == 0;
  }

  lemma AnnulmentLoses()
    ensures References(SHRUNK) && Enabled(SHRUNK, Op.AnnulAllocation(0))
    ensures Effect(SHRUNK, Op.AnnulAllocation(0)) == LOST && Stray(LOST, 0) && Free(LOST, 0) == -10
  {
    ApprovedTotals();
  }

  /** Shrinking reaches an over-reserved allocation, and annulling that one loses its reservation. */
  lemma LossIsReachable() returns (shrunk: seq<Op>, ops: seq<Op>)
    ensures Reached(shrunk, SHRUNK) && Free(SHRUNK, 0) < 0
    ensures Reached(ops, LOST) && Stray(LOST, 0) && Free(LOST, 0) < 0
  {
    ops := ApprovalRun();
    ShrinkingCommits();
    shrunk := NextCall(ops, APPROVED, Op.UpdateAllocation(0, 0, 0, 50), SHRUNK);
    AnnulmentLoses();
    ops := NextCall(shrunk, SHRUNK, Op.AnnulAllocation(0), LOST);
  }

  // ---- When a stray reservation can still be cleared ------------------------------------

  /** Nothing is effective on an annulled allocation, so no expense step touches its free capacity. */
  lemma LostStepChangesNothing(db: Db, op: Op, a: nat)
    requires Inv(db) && Enabled(db, op) && Stray(db, a) && Free(db, a) < 0
    ensures FreeChange(db, op, a) == 0
  {
    if op.UpdateExpense? {
      assert ExpenseOk(db, op.e);
    } else if op.AnnulExpense? {
      assert ExpenseOk(db, op.e);
    } else if op.ApproveRequest? {
      RequestShape(db, op.r);
    }
  }

  lemma LostStaysStray(db: Db, op: Op, a: nat)
    requires Inv(db) && Enabled(db, op) && Stray(db, a) && Free(db, a) < 0
    ensures Stray(Effect(db, op), a) && Free(Effect(db, op), a) == Free(db, a)
    ensures Reserved(Effect(db, op).requests, a) == Reserved(db.requests, a)
    ensures Effect(db, op).allocations[a] == db.allocations[a]
  {
    LostStepChangesNothing(db, op, a);
    FreeAfter(db, op, a);
    ReservedAfter(db, op, a);
    if op.AnnulRequest? {
      StrayEndsExactly(db, op, a);
    }
  }

  /** Something is reserved on the allocation, so some request holds part of it. */
  lemma {:induction false} HolderExists(requests: seq<Request>, a: nat) returns (r: nat)
    requires Reserved(requests, a) != 0
    ensures r < |requests| && requests[r].allocation == a && Held(requests[r]) != 0
  {
    var last := |requests| - 1;
    if ReservedWeight(a)(requests[last]) != 0 { r := last; } else { r := HolderExists(requests[..last], a); }
  }

  /**
   An annulled and over-reserved allocation is lost for good: over every run its reservation and its free capacity
   stay as they are, and its project can never be finished.
   */
  lemma {:induction false} LostForGood(db: Db, ops: seq<Op>, a: nat)
    requires Inv(db) && Stray(db, a) && Free(db, a) < 0
    ensures var after := Run(db, ops);
      && Stray(after, a) && Free(after, a) == Free(db, a)
      && Reserved(after.requests, a) == Reserved(db.requests, a)
      && after.allocations[a] == db.allocations[a]
      && after.projects[db.allocations[a].project].status == ProjectStatus.Active
      && !Enabled(after, Op.FinishProject(db.allocations[a].project))
    decreases |ops|
  {
    if ops == [] {
      ProjectStaysOpen(db, a);
    } else {
      var init, last := ops[..|ops| - 1], ops[|ops| - 1];
      LostForGood(db, init, a);
      var before := Run(db, init);
      if Enabled(before, last) { LostStaysStray(before, last, a); }
      ProjectStaysOpen(Run(db, ops), a);
    }
  }

  /** A reservation keeps the project of its allocation open. */
  lemma ProjectStaysOpen(db: Db, a: nat)
    requires Inv(db) && a < |db.allocations| && Reserved(db.requests, a) != 0
    ensures db.projects[db.allocations[a].project].status == ProjectStatus.Active
    ensures !Enabled(db, Op.FinishProject(db.allocations[a].project))
  {
    var r := HolderExists(db.requests, a);
    assert RequestOk(db, r) && Open(db.requests[r]);
  }

  lemma {:induction false} RunFirst(db: Db, op: Op, after: Db, rest: seq<Op>, ops: seq<Op>)
    requires Inv(db) && after == Apply(db, op) && Inv(after) && ops == [op] + rest
    ensures Run(db, ops) == Run(after, rest)
    decreases |rest|
  {
    if rest == [] {
      assert ops[..0] == [] && ops[0] == op;
      assert Run(db, ops[..0]) == db;
    } else {
      var before := ops[..|ops| - 1];
      assert before == [op] + rest[..|rest| - 1] && ops[|ops| - 1] == rest[|rest| - 1];
      RunFirst(db, op, after, rest[..|rest| - 1], before);
    }
  }

  /** Annulling one holder after the other clears a stray reservation that is not over-reserved. */
  lemma {:induction false} ClearStray(db: Db, a: nat) returns (ops: seq<Op>)
    requires Inv(db) && Stray(db, a) && 0 <= Free(db, a)
    ensures !Stray(Run(db, ops), a)
    decreases Reserved(db.requests, a)
  {
    var r := HolderExists(db.requests, a);
    var op := AnnulRequest(r, a);
    RequestShape(db, r);
    StepKeepsInvariant(db, op);
    FreeAfter(db, op, a);
    ReservedAfter(db, op, a);
    var after := Effect(db, op);
    if Stray(after, a) {
      var rest := ClearStray(after, a);
      ops := [op] + rest;
      RunFirst(db, op, after, rest, ops);
    } else {
      ops := [op] + [];
      RunFirst(db, op, after, [], ops);
    }
  }

  /** Some run clears a stray reservation exactly when its allocation is not over-reserved. */
  lemma StrayClearsExactly(db: Db, a: nat)
    requires Inv(db) && Stray(db, a)
    ensures (exists ops :: !Stray(Run(db, ops), a)) <==> 0 <= Free(db, a)
  {
    if 0 <= Free(db, a) {
      var ops := ClearStray(db, a);
    } else {
      forall ops ensures Stray(Run(db, ops), a) {
        LostForGood(db, ops, a);
      }
    }
  }

  // ---- Runs as sequences of ledgers -----------------------------------------------------

  /** The ledgers a run goes through, before each of its calls and at the end. */
  function Ledgers(start: Db, ops: seq<Op>): (states: seq<Db>)
    requires Inv(start)
    ensures |states| == |ops| + 1
    ensures forall k: nat :: k < |states| ==> states[k] == Run(start, ops[..k])
  {
    seq(|ops| + 1, k requires 0 <= k <= |ops| && Inv(start) => Run(start, ops[..k]))
  }

  lemma {:induction false} RunPrefix(start: Db, ops: seq<Op>, k: nat, first: seq<Op>)
    requires Inv(start) && AllCommitted(start, ops) && k <= |ops| && first == ops[..k]
    ensures AllCommitted(start, first)
    decreases |ops|
  {
    if k < |ops| {
      var init := ops[..|ops| - 1];
      assert first == init[..k];
      RunPrefix(start, init, k, first);
    } else {
      assert first == ops;
    }
  }

  lemma LastCommits(start: Db, ops: seq<Op>)
    requires Inv(start) && AllCommitted(start, ops) && ops != []
    ensures Enabled(Run(start, ops[..|ops| - 1]), ops[|ops| - 1])
    ensures Run(start, ops) == Effect(Run(start, ops[..|ops| - 1]), ops[|ops| - 1])
  {
  }

  lemma CallCommits(start: Db, ops: seq<Op>, k: nat, longer: seq<Op>, before: seq<Op>)
    requires Inv(start) && AllCommitted(start, ops) && k < |ops|
    requires longer == ops[..k + 1] && before == longer[..k]
    ensures Enabled(Run(start, before), ops[k])
    ensures Run(start, longer) == Effect(Run(start, before), ops[k])
  {
    RunPrefix(start, ops, k + 1, longer);
    LastCommits(start, longer);
  }

  lemma LedgersTrace(start: Db, ops: seq<Op>)
    requires Inv(start) && AllCommitted(start, ops)
    ensures Traces(Ledgers(start, ops), ops)
  {
    var states := Ledgers(start, ops);
    forall k: nat | k < |ops| ensures Commits(states, ops, k) {
      CallCommits(start, ops, k, ops[..k + 1], ops[..k]);
    }
  }

  // ---- Approvals in mixed runs ----------------------------------------------------------

  /** What a committed approval takes from allocation a. */
  function TakenBy(db: Db, op: Op, a: nat): int {
    if op.ApproveRequest? && op.locked == a && op.r < |db.requests| then db.requests[op.r].requested else 0
  }

  /** What a committed service frees on allocation a. */
  function FreedBy(db: Db, op: Op, a: nat): (freed: int)
    requires References(db) && Enabled(db, op)
    ensures 0 <= freed
  {
    if a < |db.allocations| then Max(FreeChange(db, op, a), 0) else 0
  }

  /** Total taken by the approvals among the calls lo .. hi - 1, each request at its amount when approved. */
  ghost function Taken(states: seq<Db>, ops: seq<Op>, lo: nat, hi: nat, a: nat): int
    requires Traces(states, ops) && hi <= |ops|
  {
    if hi <= lo then 0 else Taken(states, ops, lo, hi - 1, a) + TakenBy(states[hi - 1], ops[hi - 1], a)
  }

  /** Total freed by the calls lo .. hi - 1, of whatever services. */
  ghost function Freed(states: seq<Db>, ops: seq<Op>, lo: nat, hi: nat, a: nat): (freed: int)
    requires Traces(states, ops) && hi <= |ops|
    ensures 0 <= freed
  {
    if hi <= lo then 0
    else
      assert Commits(states, ops, hi - 1);
      Freed(states, ops, lo, hi - 1, a) + FreedBy(states[hi - 1], ops[hi - 1], a)
  }

  lemma StepAccount(db: Db, op: Op, a: nat)
    requires Inv(db) && Enabled(db, op) && a < |db.allocations|
    ensures a < |Effect(db, op).allocations| && 0 <= TakenBy(db, op, a)
    ensures Free(Effect(db, op), a) <= Free(db, a) + FreedBy(db, op, a) - TakenBy(db, op, a)
    ensures TakenBy(db, op, a) > 0 ==> TakenBy(db, op, a) <= Free(db, a)
  {
    FreeAfter(db, op, a);
    if op.ApproveRequest? {
      RequestShape(db, op.r);
    }
  }

  /**
   In any run of committed services, of all kinds, and between any two positions of it, the approvals on an
   allocation take together at most what is free at the first plus what the calls between them free.
   */
  lemma {:induction false} ApprovalsFit(states: seq<Db>, ops: seq<Op>, lo: nat, hi: nat, a: nat)
    requires Traces(states, ops) && lo <= hi <= |ops| && a < |states[lo].allocations|
    ensures a < |states[hi].allocations| && 0 <= Taken(states, ops, lo, hi, a)
    ensures Free(states[hi], a)
            <= Free(states[lo], a) + Freed(states, ops, lo, hi, a) - Taken(states, ops, lo, hi, a)
    ensures Taken(states, ops, lo, hi, a) > 0 ==>
              Taken(states, ops, lo, hi, a) <= Free(states[lo], a) + Freed(states, ops, lo, hi, a)
    decreases hi
  {
    if lo < hi {
      ApprovalsFit(states, ops, lo, hi - 1, a);
      assert Commits(states, ops, hi - 1);
      StepAccount(states[hi - 1], ops[hi - 1], a);
    }
  }

  predicate ApprovesOn(op: Op, a: nat) { op.ApproveRequest? && op.locked == a }

  lemma ApprovalTakes(db: Db, op: Op, a: nat)
    requires Inv(db) && Enabled(db, op) && ApprovesOn(op, a)
    ensures a < |db.allocations| && op.r < |db.requests|
    ensures TakenBy(db, op, a) == db.requests[op.r].requested > 0
    ensures TakenBy(db, op, a) <= Free(db, a)
  {
    RequestShape(db, op.r);
  }

  lemma {:induction false} TakenMember(states: seq<Db>, ops: seq<Op>, lo: nat, i: nat, hi: nat, a: nat)
    requires Traces(states, ops) && lo <= i < hi <= |ops| && a < |states[lo].allocations|
    ensures TakenBy(states[i], ops[i], a) <= Taken(states, ops, lo, hi, a)
    decreases hi
  {
    ApprovalsFit(states, ops, lo, hi - 1, a);
    if i < hi - 1 {
      TakenMember(states, ops, lo, i, hi - 1, a);
      assert Commits(states, ops, hi - 1);
      StepAccount(states[hi - 1], ops[hi - 1], a);
    }
  }

  /**
   Two approvals of a run fit together into what is free at any position up to the first of them, and what is
   freed from there until the second.
   */
  lemma ApprovalsFitInPairs(states: seq<Db>, ops: seq<Op>, lo: nat, i: nat, j: nat, a: nat)
    requires Traces(states, ops) && lo <= i < j < |ops| && a < |states[lo].allocations|
    requires ApprovesOn(ops[i], a) && ApprovesOn(ops[j], a)
    ensures TakenBy(states[i], ops[i], a) + TakenBy(states[j], ops[j], a)
            <= Free(states[lo], a) + Freed(states, ops, lo, j, a)
  {
    assert Commits(states, ops, j);
    ApprovalTakes(states[j], ops[j], a);
    TakenMember(states, ops, lo, i, j, a);
    ApprovalsFit(states, ops, lo, j, a);
  }

  // ---- Amounts until approval -----------------------------------------------------------

  predicate Rewrites(op: Op, r: nat) { op.UpdateRequest? && op.r == r }

  /** The amount of a request changes only by updating it. */
  lemma {:induction false} AmountStays(start: Db, ops: seq<Op>, r: nat)
    requires Inv(start) && r < |start.requests|
    requires forall k :: 0 <= k < |ops| ==> !Rewrites(ops[k], r)
    ensures r < |Run(start, ops).requests| && Run(start, ops).requests[r].requested == start.requests[r].requested
    decreases |ops|
  {
    if ops != [] {
      var init, last := ops[..|ops| - 1], ops[|ops| - 1];
      AmountStays(start, init, r);
      assert !Rewrites(last, r);
      AmountStep(Run(start, init), last, r);
    }
  }

  lemma AmountStep(db: Db, op: Op, r: nat)
    requires Inv(db) && r < |db.requests| && !Rewrites(op, r)
    ensures r < |Apply(db, op).requests| && Apply(db, op).requests[r].requested == db.requests[r].requested
  {
  }
}
