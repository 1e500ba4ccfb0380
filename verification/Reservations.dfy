/**
 The balance checks around a reservation. Approve, fulfil and annul learn the allocation of the
 request before they lock anything, so the allocation they lock may no longer be the request's own.
 They never compare the two. These lemmas show that the balance checks stand in for that comparison,
 and say exactly when a check fires.
 */
module Reservations {
  import opened Wrappers
  import opened Sums
  import opened LedgerModel
  import opened LedgerRules
  import opened LedgerInvariant

  // ---- The checks, as the code performs them --------------------------------------------

  /** Approval: the amount fits the clamped balance, and the balance then drops by exactly that amount. */
  predicate ApproveChecks(db: Db, r: nat, locked: nat)
    requires r < |db.requests| && locked < |db.allocations|
  {
    var before := AvailableBalance(db, locked, Some(r));
    var requested := db.requests[r].requested;
    && requested <= before
    && AvailableBalance(SetRequest(db, r, Reserve(db.requests[r])), locked, None) == before - requested
  }

  /** The service guard on an expense amount, with a credit for the reservation being consumed. */
  predicate ExpenseFits(db: Db, a: nat, amount: int, excluded: Option<nat>, credit: int)
    requires a < |db.allocations|
  {
    var expenses := if excluded.Some? then Without(db.expenses, excluded.value) else db.expenses;
    && amount > 0
    && amount <= db.allocations[a].amount - Executed(expenses, a) - Reserved(db.requests, a) + credit
  }

  /** The service guard on an allocation amount. */
  predicate AllocationFits(db: Db, d: nat, amount: int, excluded: Option<nat>)
    requires d < |db.donations|
  {
    var allocations := if excluded.Some? then Without(db.allocations, excluded.value) else db.allocations;
    amount > 0 && amount <= db.donations[d].amount - Assigned(allocations, d)
  }

  /** The reserved total the allocation object carries while a fulfilment is validated. */
  function ReservedByOthers(db: Db, r: nat, a: nat): int {
    Reserved(Without(db.requests, r), a)
  }

  predicate FulfillChecks(db: Db, r: nat, locked: nat, amount: int)
    requires r < |db.requests| && locked < |db.allocations|
  {
    var reserved := Held(db.requests[r]);
    && 0 < amount <= reserved
    && ExpenseFits(db, locked, amount, None, reserved)
    && ExpenseClean(db, None, locked, amount, ReservedByOthers(db, r, locked))
    && AvailableBalance(LinkedDb(db, r, locked, amount), locked, None)
       == AvailableBalance(db, locked, None) + (reserved - amount)
  }

  predicate AnnulChecks(db: Db, r: nat, locked: nat)
    requires r < |db.requests| && locked < |db.allocations|
  {
    AvailableBalance(SetRequest(db, r, Cancel(db.requests[r])), locked, None)
    == AvailableBalance(db, locked, None) + Held(db.requests[r])
  }

  // ---- What the checks amount to --------------------------------------------------------

  /** Approval passes its checks exactly for the request's own allocation with enough free capacity. */
  lemma ApproveChecksExact(db: Db, r: nat, locked: nat)
    requires Inv(db) && HasStatus(r, PendingDecision, db) && locked < |db.allocations|
    ensures ApproveChecks(db, r, locked) <==>
            locked == db.requests[r].allocation && db.requests[r].requested <= Free(db, locked)
  {
    assert RequestOk(db, r);
    SumWithout(db.requests, r, ReservedWeight(locked));
    SumUpdate(db.requests, r, Reserve(db.requests[r]), ReservedWeight(locked));
  }

  lemma SumsAfterFulfillment(db: Db, r: nat, locked: nat, amount: int)
    requires Inv(db) && HasStatus(r, ApprovedReserved, db) && locked < |db.allocations|
    ensures var after := LinkedDb(db, r, locked, amount);
      && Executed(after.expenses, locked) == Executed(db.expenses, locked) + amount
      && Reserved(after.requests, locked) == ReservedByOthers(db, r, locked)
      && ReservedByOthers(db, r, locked) == Reserved(db.requests, locked)
           - if db.requests[r].allocation == locked then Held(db.requests[r]) else 0
  {
    SumAppend(db.expenses, Expense(locked, amount, ExpenseStatus.Registered), ExecutedWeight(locked));
    SumWithout(db.requests, r, ReservedWeight(locked));
    SumUpdate(db.requests, r, Link(db.requests[r], |db.expenses|), ReservedWeight(locked));
  }

  /** Fulfilment passes its checks exactly for the request's own allocation, an amount within the
      reservation, and an allocation that is not over-reserved. */
  lemma FulfillChecksExact(db: Db, r: nat, locked: nat, amount: int)
    requires Inv(db) && HasStatus(r, ApprovedReserved, db) && locked < |db.allocations|
    ensures FulfillChecks(db, r, locked, amount) <==>
            && locked == db.requests[r].allocation
            && 0 < amount <= Held(db.requests[r])
            && 0 <= Free(db, locked)
  {
    SumsAfterFulfillment(db, r, locked, amount);
  }

  /** Annulment passes its re-check exactly when it releases nothing, or releases on the request's own
      allocation while that is not over-reserved. */
  lemma AnnulChecksExact(db: Db, r: nat, locked: nat)
    requires Inv(db) && r < |db.requests| && Open(db.requests[r]) && locked < |db.allocations|
    ensures AnnulChecks(db, r, locked) <==>
            || db.requests[r].status == PendingDecision
            || (locked == db.requests[r].allocation && 0 <= Free(db, locked))
  {
    assert RequestOk(db, r);
    SumUpdate(db.requests, r, Cancel(db.requests[r]), ReservedWeight(locked));
  }

  /** On the request's own allocation, not over-reserved, no re-check ever fires: what the guard before the
      write accepted goes through. */
  lemma RechecksNeverFireOnOwn(db: Db, r: nat, amount: int)
    requires Inv(db) && r < |db.requests| && Open(db.requests[r])
    requires 0 <= Free(db, db.requests[r].allocation)
    ensures var own := db.requests[r].allocation;
      && (db.requests[r].status == PendingDecision ==>
            (db.requests[r].requested <= AvailableBalance(db, own, Some(r)) ==> ApproveChecks(db, r, own)))
      && (db.requests[r].status == ApprovedReserved ==>
            (0 < amount <= Held(db.requests[r]) ==> FulfillChecks(db, r, own, amount)))
      && AnnulChecks(db, r, own)
  {
    var own := db.requests[r].allocation;
    RequestShape(db, r);
    AnnulChecksExact(db, r, own);
    if db.requests[r].status == PendingDecision {
      ApproveChecksExact(db, r, own);
      SumWithout(db.requests, r, ReservedWeight(own));
    } else {
      FulfillChecksExact(db, r, own, amount);
    }
  }

  /** An over-reserved allocation is stuck: no reservation on it can be fulfilled, for any amount, or released. */
  lemma OverReservedIsStuck(db: Db, r: nat, locked: nat, amount: int)
    requires Inv(db) && HasStatus(r, ApprovedReserved, db) && locked < |db.allocations|
    requires Free(db, db.requests[r].allocation) < 0
    ensures !FulfillChecks(db, r, locked, amount) && !AnnulChecks(db, r, locked)
  {
    FulfillChecksExact(db, r, locked, amount);
    AnnulChecksExact(db, r, locked);
  }

  // ---- When an allocation becomes over-reserved -----------------------------------------

  /** How a step changes the reserved total of one allocation. */
  lemma ReservedAfter(db: Db, op: Op, a: nat)
    requires References(db) && Enabled(db, op)
    ensures Reserved(Effect(db, op).requests, a) - Reserved(db.requests, a) ==
      match op
      case ApproveRequest(r, locked) => if locked == a then db.requests[r].requested else 0
      case FulfillRequest(r, locked, _) => if locked == a then -Held(db.requests[r]) else 0
      case AnnulRequest(r, _) => if db.requests[r].allocation == a then -Held(db.requests[r]) else 0
      case _ => 0
  {
    var touched := Touched(db, op);
    if touched.Some? {
      SumUpdate(db.requests, touched.value, Effect(db, op).requests[touched.value], ReservedWeight(a));
    } else if op.CreateRequest? {
      SumAppend(db.requests, NewRequest(op.a, op.amount), ReservedWeight(a));
    }
  }

  /** A step that is not an allocation update cannot over-reserve; an update over-reserves exactly when it
      leaves less than what is executed and reserved. */
  lemma OnlyShrinkingOverReserves(db: Db, op: Op, a: nat)
    requires Inv(db) && Enabled(db, op) && a < |Effect(db, op).allocations|
    requires a < |db.allocations| ==> 0 <= Free(db, a)
    ensures Free(Effect(db, op), a) < 0 <==>
            && op.UpdateAllocation? && op.a == a
            && op.amount < Executed(db.expenses, a) + Reserved(db.requests, a)
  {
    if a >= |db.allocations| {
      NewAllocationIsFree(db, op, a);
    } else if op.UpdateAllocation? {
      ReservedAfter(db, op, a);
      ExecutedAfter(db, op, a);
    } else {
      OthersLeaveRoom(db, op, a);
    }
  }

  lemma OthersLeaveRoom(db: Db, op: Op, a: nat)
    requires Inv(db) && Enabled(db, op) && !op.UpdateAllocation? && a < |db.allocations| && 0 <= Free(db, a)
    ensures 0 <= Free(Effect(db, op), a)
  {
    ReservedAfter(db, op, a);
    ExecutedAfter(db, op, a);
    match op {
      case UpdateExpense(e, _, _) => assert ExpenseOk(db, e);
      case AnnulExpense(e) => assert ExpenseOk(db, e);
      case AnnulRequest(r, _) => assert RequestOk(db, r);
      case _ =>
    }
  }

  lemma NewAllocationIsFree(db: Db, op: Op, a: nat)
    requires Inv(db) && Enabled(db, op) && |db.allocations| <= a < |Effect(db, op).allocations|
    ensures 0 <= Free(Effect(db, op), a) && !op.UpdateAllocation?
  {
    NoExpenseYet(db.expenses, a);
    NoReservationYet(db.requests, a);
  }

  lemma NoReservationYet(requests: seq<Request>, a: nat)
    requires forall r :: 0 <= r < |requests| ==> requests[r].allocation != a
    ensures Reserved(requests, a) == 0
  {
    SumEqual(requests, ReservedWeight(a), (_: Request) => 0);
    SumZero(requests);
  }

  /** Such updates are accepted: the service checks the new amount against executed money only. */
  lemma ShrinkingIsAccepted(db: Db, a: nat, amount: int)
    requires Inv(db) && a < |db.allocations| && db.allocations[a].status == AllocationStatus.Active
    requires 0 < amount <= db.allocations[a].amount
    requires Executed(db.expenses, a) <= amount < Executed(db.expenses, a) + Reserved(db.requests, a)
    ensures var x := db.allocations[a];
      var op := UpdateAllocation(a, x.donation, x.project, amount);
      Enabled(db, op) && Free(Effect(db, op), a) < 0
  {
    var x := db.allocations[a];
    assert AllocationOk(db, a) && DonationOk(db, x.donation);
    SumWithout(db.allocations, a, AssignedWeight(x.donation));
  }

  // ---- Layered validation ---------------------------------------------------------------

  /** Allocation validation never rejects what the service guard accepted, on create, update and move. */
  lemma AllocationLayersAgree(db: Db, a: Option<nat>, d: nat, amount: int)
    requires Inv(db) && d < |db.donations|
    requires a.Some? ==> a.value < |db.allocations|
    requires AllocationFits(db, d, amount, a)
    ensures AllocationClean(db, a, d, amount)
  {
    if a.Some? {
      SumWithout(db.allocations, a.value, AssignedWeight(d));
      assert AllocationOk(db, a.value);
    }
  }

  /** The guard of an expense, without the row itself when it stays on its allocation. */
  lemma ExpenseFitsExact(db: Db, e: nat, a: nat, amount: int)
    requires Inv(db) && e < |db.expenses| && db.expenses[e].status == ExpenseStatus.Registered
    requires a < |db.allocations|
    ensures var excluded := if db.expenses[e].allocation == a then Some(e) else None;
      ExpenseFits(db, a, amount, excluded, 0) <==> 0 < amount <= FreeForExpense(db, e, a)
  {
    SumWithout(db.expenses, e, ExecutedWeight(a));
  }

  /** Expense validation never rejects an update the service guard accepted, on the same allocation or another. */
  lemma ExpenseLayersAgree(db: Db, e: nat, a: nat, amount: int)
    requires Inv(db) && e < |db.expenses| && db.expenses[e].status == ExpenseStatus.Registered
    requires a < |db.allocations| && 0 < amount <= FreeForExpense(db, e, a)
    ensures ExpenseClean(db, Some(e), a, amount, Reserved(db.requests, a))
  {
    assert ExpenseOk(db, e);
  }

  /** At fulfilment the layers disagree exactly on a foreign allocation that cannot pay the amount unreserved. */
  lemma FulfillmentLayersExact(db: Db, r: nat, locked: nat, amount: int)
    requires Inv(db) && HasStatus(r, ApprovedReserved, db) && locked < |db.allocations|
    requires ExpenseFits(db, locked, amount, None, Held(db.requests[r]))
    ensures ExpenseClean(db, None, locked, amount, ReservedByOthers(db, r, locked)) <==>
            locked == db.requests[r].allocation || amount <= Free(db, locked)
  {
    SumsAfterFulfillment(db, r, locked, amount);
  }
}
