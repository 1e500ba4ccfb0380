/**
 What became of a row, and what may still be done to it, in terms of the calls that committed: the amount a request
 asks for, the status of every row, the calls its past still admits, and what closing an allocation rules out.
 */
module LedgerLifecycles {
  import opened Wrappers
  import opened Sums
  import opened LedgerModel
  import opened LedgerRules
  import opened LedgerInvariant
  import opened LedgerRuns
  import opened LedgerHistory
  import opened Reservations

  // ---- What a request asks for ----------------------------------------------------------

  lemma {:induction false} MadeGrows(calls: seq<Op>, k: nat, kind: Kind)
    requires k <= |calls|
    ensures Made(calls[..k], kind) <= Made(calls, kind)
    ensures k < |calls| && Makes(calls[k], kind) ==> Made(calls[..k], kind) < Made(calls, kind)
    decreases |calls|
  {
    if k < |calls| {
      var init := calls[..|calls| - 1];
      assert init[..k] == calls[..k];
      MadeGrows(init, k, kind);
    } else {
      assert calls[..k] == calls;
    }
  }

  /** Call k creates request r, or updates it, with this allocation and amount. */
  predicate Asks(calls: seq<Op>, k: nat, r: nat, a: nat, amount: int) {
    && k < |calls|
    && (|| (calls[k].UpdateRequest? && calls[k].r == r && calls[k].a == a && calls[k].amount == amount)
        || (calls[k] == CreateRequest(a, amount) && Made(calls[..k], RequestMade) == r))
  }

  predicate UpdatedAfter(calls: seq<Op>, k: nat, r: nat) {
    exists i :: k < i < |calls| && calls[i].UpdateRequest? && calls[i].r == r
  }

  /** A request is on the allocation, and asks for the amount, of its last update, or of its creation if none. */
  lemma RequestIsAsLastAsked(calls: seq<Op>, db: Db, r: nat) returns (k: nat)
    requires Reached(calls, db) && r < |db.requests|
    ensures Asks(calls, k, r, db.requests[r].allocation, db.requests[r].requested) && !UpdatedAfter(calls, k, r)
  {
    CallsTellTheLedger(calls, db);
    assert RequestTold(calls, r, db.requests[r]);
    k := LatestSpeaker(calls, RequestTerms(r));
    forall i | k < i < |calls| ensures !(calls[i].UpdateRequest? && calls[i].r == r) {
      assert RequestTerms(r)(calls[..i], calls[i]).None?;
    }
  }

  /** The converse: whatever call last asked for a request is what the row says. */
  lemma LastAskedIsWhatItIs(calls: seq<Op>, db: Db, k: nat, r: nat, a: nat, amount: int)
    requires Reached(calls, db) && Asks(calls, k, r, a, amount) && !UpdatedAfter(calls, k, r)
    ensures r < |db.requests| && db.requests[r].allocation == a && db.requests[r].requested == amount
  {
    var before := AtCall(calls, db, k);
    ReachedCounted(calls[..k], before);
    ReachedCounted(calls, db);
    MadeGrows(calls, k, RequestMade);
    assert r < |before.requests| || calls[k].CreateRequest?;
    forall i | k < i < |calls| ensures RequestTerms(r)(calls[..i], calls[i]).None? {
      MadeByThen(calls, k, i, r);
    }
    LatestIsLast(calls, RequestTerms(r), k);
    CallsTellTheLedger(calls, db);
    assert RequestTold(calls, r, db.requests[r]);
  }

  /** A request that call k makes, or finds made, is not made by a later call. */
  lemma MadeByThen(calls: seq<Op>, k: nat, i: nat, r: nat)
    requires k < i < |calls|
    requires r < Made(calls[..k], RequestMade) || (r == Made(calls[..k], RequestMade) && calls[k].CreateRequest?)
    ensures r < Made(calls[..i], RequestMade)
  {
    var shorter := calls[..i];
    assert shorter[..k] == calls[..k] && shorter[k] == calls[k];
    MadeGrows(shorter, k, RequestMade);
  }

  /** An update followed by an approval reserves the updated amount on the updated allocation, and nothing else. */
  lemma UpdatedThenApproved(calls: seq<Op>, db: Db, i: nat, j: nat, r: nat, reference: nat, a: nat, amount: int)
    returns (before: Db)
    requires Reached(calls, db) && i < j < |calls| && calls[i] == UpdateRequest(r, reference, a, amount)
    requires calls[j].ApproveRequest? && calls[j].r == r && !UpdatedAfter(calls[..j], i, r)
    ensures calls[j] == ApproveRequest(r, a)
    ensures Reached(calls[..j], before) && References(before) && Enabled(before, calls[j])
    ensures forall x: nat :: Reserved(Effect(before, calls[j]).requests, x)
                             == Reserved(before.requests, x) + if x == a then amount else 0
  {
    before := AtCall(calls, db, j);
    LastAskedIsWhatItIs(calls[..j], before, i, r, a, amount);
    forall x: nat ensures Reserved(Effect(before, calls[j]).requests, x)
                          == Reserved(before.requests, x) + if x == a then amount else 0
    {
      ReservedAfter(before, calls[j], x);
    }
  }

  // ---- What became of a row -------------------------------------------------------------

  /** Finished exactly by a finish, annulled exactly by an annulment, active otherwise. */
  lemma {:induction false} AllocationLifecycle(calls: seq<Op>, db: Db, a: nat)
    requires Reached(calls, db)
    ensures a < |db.allocations| ==>
              && (db.allocations[a].status == Finished <==> FinishAllocation(a) in calls)
              && (db.allocations[a].status == AllocationStatus.Annulled <==> Op.AnnulAllocation(a) in calls)
    ensures a >= |db.allocations| ==> FinishAllocation(a) !in calls && Op.AnnulAllocation(a) !in calls
    decreases |calls|
  {
    if calls != [] {
      var init, last := calls[..|calls| - 1], calls[|calls| - 1];
      var before := LastCall(calls, db);
      AllocationLifecycle(init, before, a);
      InLonger(init, last, calls, FinishAllocation(a));
      InLonger(init, last, calls, Op.AnnulAllocation(a));
    }
  }

  lemma InLonger(init: seq<Op>, last: Op, calls: seq<Op>, op: Op)
    requires calls != [] && init == calls[..|calls| - 1] && last == calls[|calls| - 1]
    ensures op in calls <==> op in init || op == last
  {
    assert calls == init + [last];
  }

  /** A donation is received by its reception and until its annulment, and annulled by that. */
  lemma {:induction false} DonationLifecycle(calls: seq<Op>, db: Db, d: nat)
    requires Reached(calls, db)
    ensures d < |db.donations| ==>
              && (db.donations[d].status == DonationStatus.Annulled <==> Op.AnnulDonation(d) in calls)
              && (db.donations[d].status == Received
                  <==> ReceiveDonation(d) in calls && Op.AnnulDonation(d) !in calls)
    ensures d >= |db.donations| ==> ReceiveDonation(d) !in calls && Op.AnnulDonation(d) !in calls
    decreases |calls|
  {
    if calls != [] {
      var init, last := calls[..|calls| - 1], calls[|calls| - 1];
      var before := LastCall(calls, db);
      DonationLifecycle(init, before, d);
      InLonger(init, last, calls, ReceiveDonation(d));
      InLonger(init, last, calls, Op.AnnulDonation(d));
    }
  }

  lemma {:induction false} ProjectLifecycle(calls: seq<Op>, db: Db, p: nat)
    requires Reached(calls, db)
    ensures p < |db.projects| ==> (db.projects[p].status == Closed <==> FinishProject(p) in calls)
    ensures p >= |db.projects| ==> FinishProject(p) !in calls
    decreases |calls|
  {
    if calls != [] {
      var init, last := calls[..|calls| - 1], calls[|calls| - 1];
      var before := LastCall(calls, db);
      ProjectLifecycle(init, before, p);
      InLonger(init, last, calls, FinishProject(p));
    }
  }

  lemma {:induction false} ExpenseLifecycle(calls: seq<Op>, db: Db, e: nat)
    requires Reached(calls, db)
    ensures e < |db.expenses| ==> (db.expenses[e].status == ExpenseStatus.Annulled <==> Op.AnnulExpense(e) in calls)
    ensures e >= |db.expenses| ==> Op.AnnulExpense(e) !in calls
    decreases |calls|
  {
    if calls != [] {
      var init, last := calls[..|calls| - 1], calls[|calls| - 1];
      var before := LastCall(calls, db);
      ExpenseLifecycle(init, before, e);
      InLonger(init, last, calls, Op.AnnulExpense(e));
    }
  }

  datatype Decision = Withdrawal | Denial | Approval | Fulfilment | Annulment

  predicate Decides(op: Op, r: nat, decision: Decision) {
    match decision
    case Withdrawal => op.WithdrawRequest? && op.r == r
    case Denial => op.DenyRequest? && op.r == r
    case Approval => op.ApproveRequest? && op.r == r
    case Fulfilment => op.FulfillRequest? && op.r == r
    case Annulment => op.AnnulRequest? && op.r == r
  }

  /** The request was withdrawn, denied, approved, fulfilled or annulled. */
  predicate Had(calls: seq<Op>, r: nat, decision: Decision) {
    exists k :: 0 <= k < |calls| && Decides(calls[k], r, decision)
  }

  lemma HadLonger(init: seq<Op>, last: Op, calls: seq<Op>, r: nat)
    requires calls != [] && init == calls[..|calls| - 1] && last == calls[|calls| - 1]
    ensures forall decision :: Had(calls, r, decision) <==> Had(init, r, decision) || Decides(last, r, decision)
  {
    forall decision ensures Had(calls, r, decision) <==> Had(init, r, decision) || Decides(last, r, decision) {
      if Had(init, r, decision) {
        var k :| 0 <= k < |init| && Decides(init[k], r, decision);
        assert Decides(calls[k], r, decision);
      }
      if Decides(last, r, decision) { assert Decides(calls[|init|], r, decision); }
      if Had(calls, r, decision) {
        var k :| 0 <= k < |calls| && Decides(calls[k], r, decision);
        if k < |init| { assert Decides(init[k], r, decision); }
      }
    }
  }

  /** The status the decisions of a request amount to. */
  function Verdict(calls: seq<Op>, r: nat): RequestStatus {
    if Had(calls, r, Withdrawal) then RequestStatus.Withdrawn
    else if Had(calls, r, Denial) then RequestStatus.Denied
    else if Had(calls, r, Annulment) then RequestStatus.Annulled
    else if Had(calls, r, Fulfilment) then Fulfilled
    else if Had(calls, r, Approval) then ApprovedReserved
    else PendingDecision
  }

  /** The status of a request is the one its decisions amount to. */
  lemma {:induction false} RequestLifecycle(calls: seq<Op>, db: Db, r: nat)
    requires Reached(calls, db)
    ensures r < |db.requests| ==> db.requests[r].status == Verdict(calls, r)
    ensures r >= |db.requests| ==> forall decision :: !Had(calls, r, decision)
    decreases |calls|
  {
    if calls != [] {
      var init, last := calls[..|calls| - 1], calls[|calls| - 1];
      var before := LastCall(calls, db);
      RequestLifecycle(init, before, r);
      HadLonger(init, last, calls, r);
      OneDecision(before, last, r);
    }
  }

  /** At most one decision is final, and nothing is fulfilled that was not approved. */
  lemma {:induction false} OneFinalDecision(calls: seq<Op>, db: Db, r: nat)
    requires Reached(calls, db)
    ensures forall x, y :: Had(calls, r, x) && Had(calls, r, y) && x != y ==> x == Approval || y == Approval
    ensures Had(calls, r, Fulfilment) ==> Had(calls, r, Approval)
    decreases |calls|
  {
    if calls != [] {
      var init, last := calls[..|calls| - 1], calls[|calls| - 1];
      var before := LastCall(calls, db);
      OneFinalDecision(init, before, r);
      RequestLifecycle(init, before, r);
      HadLonger(init, last, calls, r);
      OneDecision(before, last, r);
    }
  }

  lemma OneDecision(db: Db, op: Op, r: nat)
    requires References(db) && Enabled(db, op)
    ensures |db.requests| <= |Effect(db, op).requests|
    ensures forall decision :: Decides(op, r, decision) ==> r < |db.requests|
    ensures Decides(op, r, Withdrawal) || Decides(op, r, Denial) || Decides(op, r, Approval) ==>
              db.requests[r].status == PendingDecision
    ensures Decides(op, r, Fulfilment) ==> db.requests[r].status == ApprovedReserved
    ensures Decides(op, r, Annulment) ==> Open(db.requests[r])
    ensures r < |db.requests| ==>
              Effect(db, op).requests[r].status
              == (if Decides(op, r, Withdrawal) then RequestStatus.Withdrawn
                  else if Decides(op, r, Denial) then RequestStatus.Denied
                  else if Decides(op, r, Annulment) then RequestStatus.Annulled
                  else if Decides(op, r, Fulfilment) then Fulfilled
                  else if Decides(op, r, Approval) then ApprovedReserved
                  else db.requests[r].status)
    ensures |db.requests| <= r < |Effect(db, op).requests| ==> Effect(db, op).requests[r].status == PendingDecision
  {
  }

  /** The request still waits for a decision, or for what follows an approval. */
  predicate Undecided(calls: seq<Op>, r: nat) {
    !Had(calls, r, Withdrawal) && !Had(calls, r, Denial) && !Had(calls, r, Annulment) && !Had(calls, r, Fulfilment)
  }

  lemma OpenExactly(calls: seq<Op>, db: Db, r: nat)
    requires Reached(calls, db) && r < |db.requests|
    ensures Open(db.requests[r]) <==> Undecided(calls, r)
    ensures db.requests[r].status == PendingDecision <==> Undecided(calls, r) && !Had(calls, r, Approval)
  {
    RequestLifecycle(calls, db, r);
  }

  // ---- What closing an allocation rules out ---------------------------------------------

  /** The call would change the allocation, ask for its money, or spend it. */
  predicate Draws(db: Db, op: Op, a: nat) {
    match op
    case UpdateAllocation(x, _, _, _) => x == a
    case FinishAllocation(x) => x == a
    case AnnulAllocation(x) => x == a
    case CreateRequest(x, _) => x == a
    case UpdateRequest(_, _, x, _) => x == a
    case ApproveRequest(_, x) => x == a
    case FulfillRequest(_, x, _) => x == a
    case CreateLegacyExpense(x, _) => x == a
    case UpdateExpense(e, x, _) => x == a && e < |db.expenses| && db.expenses[e].allocation != a
    case _ => false
  }

  lemma ClosedRefuses(db: Db, op: Op, a: nat)
    requires References(db) && a < |db.allocations| && db.allocations[a].status != AllocationStatus.Active
    requires Draws(db, op, a)
    ensures !Enabled(db, op)
  {
  }

  /** From a closed allocation no run ever comes to where one of these calls is enabled. */
  lemma ClosedForGood(db: Db, ops: seq<Op>, op: Op, a: nat)
    requires Inv(db) && a < |db.allocations| && db.allocations[a].status != AllocationStatus.Active
    ensures var after := Run(db, ops);
      Draws(after, op, a) ==> !Enabled(after, op)
  {
    RunEvolves(db, ops);
    if Draws(Run(db, ops), op, a) { ClosedRefuses(Run(db, ops), op, a); }
  }

  /** So after a committed finish or annulment of an allocation, no later call of the history draws on it. */
  lemma NothingAfterClosing(calls: seq<Op>, db: Db, i: nat, j: nat, a: nat) returns (before: Db)
    requires Reached(calls, db) && i < j < |calls|
    requires calls[i] == FinishAllocation(a) || calls[i] == Op.AnnulAllocation(a)
    ensures Reached(calls[..j], before) && !Draws(before, calls[j], a)
  {
    before := AtCall(calls, db, j);
    assert calls[..j][i] == calls[i];
    AllocationLifecycle(calls[..j], before, a);
    if Draws(before, calls[j], a) { ClosedRefuses(before, calls[j], a); }
  }

  lemma NothingReserved(db: Db, a: nat)
    requires References(db)
    requires forall r :: 0 <= r < |db.requests| && db.requests[r].allocation == a ==> !Open(db.requests[r])
    ensures Reserved(db.requests, a) == 0
  {
    SumEqual(db.requests, ReservedWeight(a), (_: Request) => 0);
    SumZero(db.requests);
  }

  /** A finished allocation keeps its row and has nothing reserved; only its own expenses can still change. */
  lemma OnlyItsExpensesChange(db: Db, op: Op, a: nat)
    requires Inv(db) && Enabled(db, op) && a < |db.allocations| && db.allocations[a].status == Finished
    ensures a < |Effect(db, op).allocations| && Effect(db, op).allocations[a] == db.allocations[a]
    ensures Reserved(db.requests, a) == Reserved(Effect(db, op).requests, a) == 0
    ensures Executed(Effect(db, op).expenses, a) != Executed(db.expenses, a) ==>
              (op.UpdateExpense? || op.AnnulExpense?) && db.expenses[op.e].allocation == a
  {
    ClosedParentsHaveClosedChildren(db);
    assert !HasOpenRequest(db, a);
    NothingReserved(db, a);
    ReservedAfter(db, op, a);
    ExecutedAfter(db, op, a);
  }

  /** Once its last active allocation is finished and no request is open, a project can be finished. */
  lemma LastFinishFreesProject(db: Db, p: nat, a: nat)
    requires Inv(db) && p < |db.projects| && db.projects[p].status == ProjectStatus.Active
    requires a < |db.allocations| && db.allocations[a].status == AllocationStatus.Active
    requires forall x :: 0 <= x < |db.allocations| && db.allocations[x].project == p && x != a ==>
               db.allocations[x].status != AllocationStatus.Active
    requires forall r :: 0 <= r < |db.requests| && Open(db.requests[r]) ==>
               db.allocations[db.requests[r].allocation].project != p
    requires db.allocations[a].project == p
    ensures Enabled(db, FinishAllocation(a)) && References(Effect(db, FinishAllocation(a)))
    ensures Enabled(Effect(db, FinishAllocation(a)), FinishProject(p))
  {
    KeepsReferences(db, FinishAllocation(a));
  }
}
