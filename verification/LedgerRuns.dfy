/** What holds after any sequence of service calls, committed or refused. */
module LedgerRuns {
  import opened Wrappers
  import opened Sums
  import opened LedgerModel
  import opened EventLog
  import opened LedgerRules
  import opened LedgerInvariant

  /** A run of the ledger; the invariant holds at its end, and so at every point of it. */
  function Run(db: Db, ops: seq<Op>): (after: Db)
    requires Inv(db)
    ensures Inv(after)
    decreases |ops|
  {
    if ops == [] then db
    else
      var before := Run(db, ops[..|ops| - 1]);
      StepKeepsInvariant(before, ops[|ops| - 1]);
      Apply(before, ops[|ops| - 1])
  }

  /** Every service of the run committed. */
  predicate AllCommitted(db: Db, ops: seq<Op>)
    requires Inv(db)
    decreases |ops|
  {
    ops == [] || (AllCommitted(db, ops[..|ops| - 1]) && Enabled(Run(db, ops[..|ops| - 1]), ops[|ops| - 1]))
  }

  lemma RunAppend(db: Db, ops: seq<Op>, op: Op)
    requires Inv(db)
    ensures Run(db, ops + [op]) == Apply(Run(db, ops), op)
    ensures AllCommitted(db, ops + [op]) <==> AllCommitted(db, ops) && Enabled(Run(db, ops), op)
  {
    assert (ops + [op])[..|ops|] == ops;
  }

  lemma EmptyLedger()
    ensures Inv(EMPTY)
  {
  }

  // ---- Money never exceeds its source ---------------------------------------------------

  /** Effective expenses paid, through any allocation, with money of donation d. */
  function SpentWeight(allocations: seq<Allocation>, d: nat): Expense -> int {
    (e: Expense) =>
      if e.status == ExpenseStatus.Registered && e.allocation < |allocations| && allocations[e.allocation].donation == d
      then e.amount else 0
  }

  function Spent(db: Db, d: nat): int {
    SumBy(db.expenses, SpentWeight(db.allocations, d))
  }

  function AllocationOf(): Expense -> nat { (e: Expense) => e.allocation }

  /** Amount of allocation a if it is a live child of donation d. */
  function ChildAmount(db: Db, d: nat): nat -> int {
    (a: nat) => if a < |db.allocations| then AssignedWeight(d)(db.allocations[a]) else 0
  }

  lemma {:induction false} SumByIndex<T>(rows: seq<T>, weight: T -> int, f: nat -> int)
    requires forall i: nat :: i < |rows| ==> f(i) == weight(rows[i])
    ensures SumTo(|rows|, f) == SumBy(rows, weight)
  {
    if rows != [] {
      SumByIndex(rows[..|rows| - 1], weight, f);
    }
  }

  /** Expenses of one allocation, within those of donation d, never exceed that allocation's assigned amount. */
  lemma SpentThroughOneAllocation(db: Db, d: nat, a: nat)
    requires Inv(db) && a < |db.allocations|
    ensures GroupTotal(db.expenses, AllocationOf(), SpentWeight(db.allocations, d))(a) <= ChildAmount(db, d)(a)
  {
    var weight := InGroup(AllocationOf(), SpentWeight(db.allocations, d), a);
    var child := db.allocations[a];
    assert GroupTotal(db.expenses, AllocationOf(), SpentWeight(db.allocations, d))(a) == SumBy(db.expenses, weight);
    assert ChildAmount(db, d)(a) == AssignedWeight(d)(child);
    assert AllocationOk(db, a);
    if child.donation == d && child.status != AllocationStatus.Annulled {
      SumEqual(db.expenses, weight, ExecutedWeight(a));
      assert SumBy(db.expenses, weight) == Executed(db.expenses, a) <= db.allocations[a].amount;
    } else {
      forall e | 0 <= e < |db.expenses| ensures weight(db.expenses[e]) == 0 {
        assert ExpenseOk(db, e);
      }
      SumEqual(db.expenses, weight, (_: Expense) => 0);
      SumZero(db.expenses);
    }
  }

  /** Effective expenses never exceed what was assigned from a donation, nor that what was donated. */
  lemma DonationCoversItsExpenses(db: Db, d: nat)
    requires Inv(db) && d < |db.donations|
    ensures Spent(db, d) <= Assigned(db.allocations, d) <= db.donations[d].amount
  {
    assert DonationOk(db, d);
    var n := |db.allocations|;
    var groups := GroupTotal(db.expenses, AllocationOf(), SpentWeight(db.allocations, d));
    GroupBy(db.expenses, AllocationOf(), SpentWeight(db.allocations, d), n);
    forall a: nat | a < n ensures groups(a) <= ChildAmount(db, d)(a) {
      SpentThroughOneAllocation(db, d, a);
    }
    SumToMonotone(n, groups, ChildAmount(db, d));
    SumByIndex(db.allocations, AssignedWeight(d), ChildAmount(db, d));
  }

  /** Ledger safety: in every state any run reaches from the empty ledger. */
  lemma LedgerSafety(ops: seq<Op>)
    ensures Inv(EMPTY)
    ensures var db := Run(EMPTY, ops);
      && (forall a :: 0 <= a < |db.allocations| ==> Executed(db.expenses, a) <= db.allocations[a].amount)
      && (forall d :: 0 <= d < |db.donations| ==>
            Spent(db, d) <= Assigned(db.allocations, d) <= db.donations[d].amount)
      && (forall a :: 0 <= a < |db.allocations| && db.allocations[a].status != AllocationStatus.Annulled ==>
            db.donations[db.allocations[a].donation].status == Received)
  {
    EmptyLedger();
    var db := Run(EMPTY, ops);
    forall a | 0 <= a < |db.allocations|
      ensures Executed(db.expenses, a) <= db.allocations[a].amount
      ensures db.allocations[a].status != AllocationStatus.Annulled ==>
                db.donations[db.allocations[a].donation].status == Received
    {
      assert AllocationOk(db, a);
    }
    forall d | 0 <= d < |db.donations|
      ensures Spent(db, d) <= Assigned(db.allocations, d) <= db.donations[d].amount
    {
      DonationCoversItsExpenses(db, d);
    }
  }

  // ---- Lifecycle closure ----------------------------------------------------------------

  /** Parents that are closed have only closed children. */
  predicate ClosedDownwards(db: Db)
    requires References(db)
  {
    && (forall p :: 0 <= p < |db.projects| && db.projects[p].status == Closed ==>
          && !db.projects[p].isPublic
          && (forall a :: 0 <= a < |db.allocations| && db.allocations[a].project == p ==>
                db.allocations[a].status != AllocationStatus.Active)
          && (forall r :: 0 <= r < |db.requests| && db.allocations[db.requests[r].allocation].project == p ==>
                !Open(db.requests[r])))
    && (forall a :: 0 <= a < |db.allocations| && db.allocations[a].status == Finished ==> !HasOpenRequest(db, a))
    && (forall a :: 0 <= a < |db.allocations| && db.allocations[a].status == AllocationStatus.Annulled ==>
          Executed(db.expenses, a) == 0)
    && (forall d, a :: 0 <= d < |db.donations| && 0 <= a < |db.allocations| && db.allocations[a].donation == d
                       && db.donations[d].status == DonationStatus.Annulled ==>
          db.allocations[a].status == AllocationStatus.Annulled)
  }

  lemma ClosedParentsHaveClosedChildren(db: Db)
    requires Inv(db)
    ensures ClosedDownwards(db)
  {
    forall p | 0 <= p < |db.projects| && db.projects[p].status == Closed
      ensures !db.projects[p].isPublic
    {
      assert ProjectOk(db, p);
    }
    forall a | 0 <= a < |db.allocations|
      ensures db.allocations[a].status == AllocationStatus.Active ==>
                db.projects[db.allocations[a].project].status == ProjectStatus.Active
      ensures db.allocations[a].status != AllocationStatus.Annulled ==>
                db.donations[db.allocations[a].donation].status == Received
    {
      assert AllocationOk(db, a);
    }
    forall r | 0 <= r < |db.requests| && Open(db.requests[r])
      ensures db.allocations[db.requests[r].allocation].status != Finished
      ensures db.projects[db.allocations[db.requests[r].allocation].project].status == ProjectStatus.Active
    {
      assert RequestOk(db, r);
    }
    forall a | 0 <= a < |db.allocations| && db.allocations[a].status == AllocationStatus.Annulled
      ensures Executed(db.expenses, a) == 0
    {
      forall e | 0 <= e < |db.expenses| ensures ExecutedWeight(a)(db.expenses[e]) == 0 {
        assert ExpenseOk(db, e);
      }
      SumEqual(db.expenses, ExecutedWeight(a), (_: Expense) => 0);
      SumZero(db.expenses);
    }
  }

  /** Rows are never deleted, terminal rows are frozen, logs only grow, decided requests stay where they are. */
  predicate Evolves(db: Db, after: Db) {
    && |db.donations| <= |after.donations| && |db.projects| <= |after.projects|
    && |db.allocations| <= |after.allocations| && |db.requests| <= |after.requests|
    && |db.expenses| <= |after.expenses|
    && (forall d :: 0 <= d < |db.donations| ==> DonationEvolves(db.donations[d], after.donations[d]))
    && (forall p :: 0 <= p < |db.projects| && db.projects[p].status == Closed ==>
          after.projects[p] == db.projects[p])
    && (forall a :: 0 <= a < |db.allocations| ==>
          (db.allocations[a].status != AllocationStatus.Active ==> after.allocations[a] == db.allocations[a]))
    && (forall r :: 0 <= r < |db.requests| ==> RequestEvolves(db.requests[r], after.requests[r]))
    && (forall e :: 0 <= e < |db.expenses| ==>
          (db.expenses[e].status == ExpenseStatus.Annulled ==> after.expenses[e] == db.expenses[e]))
  }

  predicate DonationEvolves(x: Donation, y: Donation) {
    && (x.status == DonationStatus.Annulled ==> y == x)
    && (x.status == Received ==> y.status != DonationStatus.Registered)
  }

  predicate RequestEvolves(x: Request, y: Request) {
    && x.log <= y.log
    && (x.status != PendingDecision ==>
          && y.status != PendingDecision
          && y.allocation == x.allocation && y.requested == x.requested && y.reserved == x.reserved)
    && (!Open(x) ==> y.status == x.status && y.expense == x.expense)
  }

  lemma TouchedEvolves(db: Db, op: Op, r: nat)
    requires Inv(db) && Enabled(db, op) && r < |db.requests|
    ensures r < |Effect(db, op).requests| && RequestEvolves(db.requests[r], Effect(db, op).requests[r])
  {
    assert RequestOk(db, r);
    if Touched(db, op) != Some(r) {
      UntouchedStaysFaithful(db, op, r);
    }
  }

  lemma TerminalRowsStay(db: Db, op: Op)
    requires Inv(db) && Enabled(db, op)
    ensures var after := Effect(db, op);
      && |db.donations| <= |after.donations| && |db.projects| <= |after.projects|
      && |db.allocations| <= |after.allocations|
      && |db.expenses| <= |after.expenses|
      && (forall d :: 0 <= d < |db.donations| ==> DonationEvolves(db.donations[d], after.donations[d]))
      && (forall p :: 0 <= p < |db.projects| ==>
            (db.projects[p].status == Closed ==> after.projects[p] == db.projects[p]))
      && (forall a :: 0 <= a < |db.allocations| ==>
            (db.allocations[a].status != AllocationStatus.Active ==> after.allocations[a] == db.allocations[a]))
      && (forall e :: 0 <= e < |db.expenses| ==>
            (db.expenses[e].status == ExpenseStatus.Annulled ==> after.expenses[e] == db.expenses[e]))
  {
  }

  lemma StepEvolves(db: Db, op: Op)
    requires Inv(db)
    ensures Evolves(db, Apply(db, op))
  {
    if Enabled(db, op) {
      TerminalRowsStay(db, op);
      var after := Effect(db, op);
      assert |db.requests| <= |after.requests|;
      forall r | 0 <= r < |db.requests| ensures RequestEvolves(db.requests[r], after.requests[r]) {
        TouchedEvolves(db, op, r);
      }
    }
  }

  lemma EvolvesTransitive(x: Db, y: Db, z: Db)
    requires Evolves(x, y) && Evolves(y, z)
    ensures Evolves(x, z)
  {
    forall d | 0 <= d < |x.donations| ensures DonationEvolves(x.donations[d], z.donations[d]) {
      assert DonationEvolves(x.donations[d], y.donations[d]) && DonationEvolves(y.donations[d], z.donations[d]);
    }
    forall r | 0 <= r < |x.requests| ensures RequestEvolves(x.requests[r], z.requests[r]) {
      assert RequestEvolves(x.requests[r], y.requests[r]) && RequestEvolves(y.requests[r], z.requests[r]);
    }
  }

  /** Terminal statuses are never left, over any run. */
  lemma {:induction false} RunEvolves(db: Db, ops: seq<Op>)
    requires Inv(db)
    ensures Evolves(db, Run(db, ops))
    decreases |ops|
  {
    if ops != [] {
      var init := ops[..|ops| - 1];
      RunEvolves(db, init);
      StepEvolves(Run(db, init), ops[|ops| - 1]);
      EvolvesTransitive(db, Run(db, init), Run(db, ops));
    }
  }

  // ---- The event log accounts for the reservations --------------------------------------

  function NetOn(a: nat): Request -> int {
    (r: Request) => if r.allocation == a then NetReserved(r.log) else 0
  }

  /** In every reachable state: each log is a word of the language, ends in the current status, and the
      logs of an allocation's requests add up to what the allocation has reserved. */
  lemma LogsTellTheLedger(ops: seq<Op>)
    ensures Inv(EMPTY)
    ensures var db := Run(EMPTY, ops);
      && (forall r :: 0 <= r < |db.requests| ==>
            && Faithful(db.requests[r], db.expenses)
            && exists n: nat, tail :: Kinds(db.requests[r].log) == Word(n, tail)
                                      && TailOf(tail, Read(db.requests[r].log).value))
      && (forall a :: 0 <= a < |db.allocations| ==> SumBy(db.requests, NetOn(a)) == Reserved(db.requests, a))
  {
    EmptyLedger();
    var db := Run(EMPTY, ops);
    forall r | 0 <= r < |db.requests|
      ensures Faithful(db.requests[r], db.expenses)
      ensures exists n: nat, tail :: Kinds(db.requests[r].log) == Word(n, tail)
                                     && TailOf(tail, Read(db.requests[r].log).value)
    {
      assert RequestOk(db, r);
      var n, tail := ReadGivesWord(db.requests[r].log);
    }
    forall a | 0 <= a < |db.allocations| ensures SumBy(db.requests, NetOn(a)) == Reserved(db.requests, a) {
      SumEqual(db.requests, NetOn(a), ReservedWeight(a));
    }
  }
}
