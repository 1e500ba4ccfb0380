/** Runs of interleaved transactions, and the proof that their commits are atomic services in commit order. */
module Serializability {
  import opened Wrappers
  import opened Sums
  import opened LedgerModel
  import opened LedgerRules
  import opened LedgerInvariant
  import opened LedgerRuns
  import opened LedgerHistory
  import opened FreeCapacity
  import opened Interleaving

  /** `locked` is the allocation id the transaction works under: given, or peeked at without a lock. */
  datatype Txn = Txn(
    job: Job,
    locked: Option<nat>,
    held: set<Row>,
    seen: Answers,
    written: bool,
    seenAfter: Answers,
    done: bool)

  /** `commits` records the atomic service of every commit, in commit order. */
  datatype Sys = Sys(db: Db, txns: seq<Txn>, commits: seq<Op>)

  datatype Action =
    | Begin(job: Job)
    | Peek(i: nat)
    | Lock(i: nat, row: Row)
    | Read(i: nat, q: Query)
    | Write(i: nat)
    | Reread(i: nat, q: Query)
    | Finish(i: nat)
    | Abort(i: nat)

  function Start(job: Job): Txn {
    Txn(job, if job.Legacy? || job.Resize? then Some(job.a) else None, {}, map[], false, map[], false)
  }

  predicate Running(sys: Sys, i: nat) {
    i < |sys.txns| && !sys.txns[i].done
  }

  /** Held by no other running transaction. */
  predicate Grantable(sys: Sys, i: nat, row: Row) {
    forall j :: 0 <= j < |sys.txns| && j != i && !sys.txns[j].done ==> row !in sys.txns[j].held
  }

  predicate Allowed(sys: Sys, act: Action) {
    match act
    case Begin(_) => true
    case Peek(i) =>
      && Running(sys, i) && sys.txns[i].locked.None?
      && !sys.txns[i].job.Legacy? && !sys.txns[i].job.Resize? && sys.txns[i].job.r < |sys.db.requests|
    case Lock(i, row) => Running(sys, i) && Grantable(sys, i, row)
    case Read(i, q) =>
      Running(sys, i) && !sys.txns[i].written && Guard(q) in sys.txns[i].held && Answerable(sys.db, q)
    case Write(i) =>
      && Running(sys, i)
      && var t := sys.txns[i];
         && !t.written && t.locked.Some?
         && Complete(t.job, t.locked.value, t.seen) && Accepts(t.job, t.locked.value, t.seen)
         && Writes(sys.db, t.job, t.locked.value) <= t.held
    case Reread(i, q) =>
      && Running(sys, i)
      && var t := sys.txns[i];
         && t.written && t.locked.Some? && Rechecks(t.job)
         && q in RecheckQueries(t.locked.value)
         && RequestSeen(t.seen, t.job.r) && t.job.r < |sys.db.requests|
         && Answerable(Overlay(sys.db, t.job, t.locked.value, t.seen), q)
    case Finish(i) =>
      && Running(sys, i)
      && var t := sys.txns[i];
         && t.written && t.locked.Some?
         && (Rechecks(t.job) ==> RequestSeen(t.seen, t.job.r) && RecheckQueries(t.locked.value) <= t.seenAfter.Keys)
         && ((!t.job.Legacy? && !t.job.Resize?) ==> RequestSeen(t.seen, t.job.r) && t.job.r < |sys.db.requests|)
         && (t.job.Resize? ==> t.job.a < |sys.db.allocations|)
    case Abort(i) => Running(sys, i)
  }

  function Ended(t: Txn): Txn {
    t.(done := true, held := {})
  }

  /** One step; a step that is not allowed waits, that is, changes nothing. */
  function Next(sys: Sys, act: Action): Sys {
    if !Allowed(sys, act) then sys
    else
      match act
      case Begin(job) => sys.(txns := sys.txns + [Start(job)])
      case Peek(i) =>
        var t := sys.txns[i];
        sys.(txns := sys.txns[i := t.(locked := Some(sys.db.requests[t.job.r].allocation))])
      case Lock(i, row) =>
        var t := sys.txns[i];
        sys.(txns := sys.txns[i := t.(held := t.held + {row})])
      case Read(i, q) =>
        var t := sys.txns[i];
        sys.(txns := sys.txns[i := t.(seen := t.seen[q := Ask(sys.db, q)])])
      case Write(i) => sys.(txns := sys.txns[i := sys.txns[i].(written := true)])
      case Reread(i, q) =>
        var t := sys.txns[i];
        var answer := Ask(Overlay(sys.db, t.job, t.locked.value, t.seen), q);
        sys.(txns := sys.txns[i := t.(seenAfter := t.seenAfter[q := answer])])
      case Finish(i) =>
        var t := sys.txns[i];
        if Consolidated(t.job, t.locked.value, t.seen, t.seenAfter)
        then Sys(Publish(sys.db, t.job, t.locked.value, t.seen),
                 sys.txns[i := Ended(t)],
                 sys.commits + [Atomic(t.job, t.locked.value)])
        else sys.(txns := sys.txns[i := Ended(t)])
      case Abort(i) => sys.(txns := sys.txns[i := Ended(sys.txns[i])])
  }

  function Exec(sys: Sys, acts: seq<Action>): Sys {
    if acts == [] then sys else Next(Exec(sys, acts[..|acts| - 1]), acts[|acts| - 1])
  }

  // ---- Invariant ------------------------------------------------------------------------

  /** A transaction that has written: validated, holding the locks of what it changes. */
  predicate Ready(db: Db, t: Txn) {
    && t.locked.Some?
    && Complete(t.job, t.locked.value, t.seen) && Accepts(t.job, t.locked.value, t.seen)
    && Writes(db, t.job, t.locked.value) <= t.held
    && (!t.job.Legacy? && !t.job.Resize? ==> RequestSeen(t.seen, t.job.r) && t.job.r < |db.requests|)
    && (t.job.Resize? ==> t.job.a < |db.allocations|)
    && (Rechecks(t.job) ==> TruthfulAfter(db, t.job, t.locked.value, t.seen, t.seenAfter))
  }

  predicate TxnOk(db: Db, t: Txn) {
    && (forall q :: q in t.seen ==> Guard(q) in t.held)
    && Truthful(db, t.seen)
    && (if t.written then Ready(db, t) else t.seenAfter == map[])
  }

  predicate Exclusive(txns: seq<Txn>) {
    forall i, j :: 0 <= i < j < |txns| && !txns[i].done && !txns[j].done ==> txns[i].held !! txns[j].held
  }

  predicate TxnsOk(sys: Sys) {
    && Inv(sys.db)
    && (forall i :: 0 <= i < |sys.txns| && !sys.txns[i].done ==> TxnOk(sys.db, sys.txns[i]))
    && Exclusive(sys.txns)
  }

  /** The committed ledger is what the committed services give, one after the other. */
  predicate History(start: Db, sys: Sys) {
    Inv(start) && sys.db == Run(start, sys.commits) && AllCommitted(start, sys.commits)
  }

  // ---- A commit is an atomic service ----------------------------------------------------

  lemma PublishIsEffect(db: Db, t: Txn)
    requires Inv(db) && TxnOk(db, t) && t.written
    requires Enabled(db, Atomic(t.job, t.locked.value))
    ensures Publish(db, t.job, t.locked.value, t.seen) == Effect(db, Atomic(t.job, t.locked.value))
  {
    if !t.job.Legacy? && !t.job.Resize? {
      assert RequestQuery(t.job.r) in t.seen;
      Answered(db, t.seen, RequestQuery(t.job.r));
    }
  }

  /** When a transaction ends, its own checks agree with the rule on the ledger of that moment, and what it
      publishes is the effect of the rule. */
  lemma FinishIsAtomic(db: Db, t: Txn)
    requires Inv(db) && TxnOk(db, t) && t.written
    requires Rechecks(t.job) ==> RecheckQueries(t.locked.value) <= t.seenAfter.Keys
    ensures Consolidated(t.job, t.locked.value, t.seen, t.seenAfter) <==> Enabled(db, Atomic(t.job, t.locked.value))
    ensures Enabled(db, Atomic(t.job, t.locked.value)) ==>
              Publish(db, t.job, t.locked.value, t.seen) == Effect(db, Atomic(t.job, t.locked.value))
  {
    if Rechecks(t.job) {
      RecheckIsRule(db, t.job, t.locked.value, t.seen, t.seenAfter);
    } else {
      PlainDecides(db, t.job, t.locked.value, t.seen);
    }
    if Enabled(db, Atomic(t.job, t.locked.value)) {
      PublishIsEffect(db, t);
    }
  }

  /** What the uncommitted rows of a transaction add to the totals of its locked allocation. */
  lemma OverlayTotals(db: Db, job: Job, a: nat, s: Answers)
    requires Rechecks(job) && RequestSeen(s, job.r) && job.r < |db.requests|
    ensures var mine := Overlay(db, job, a, s);
      var r := RequestOf(s, job.r);
      && Executed(mine.expenses, a) == Executed(db.expenses, a) + (if job.Fulfill? then job.amount else 0)
      && Reserved(mine.requests, a) == Reserved(db.requests, a) - ReservedWeight(a)(db.requests[job.r])
           + (if job.Approve? && r.allocation == a then r.requested else 0)
  {
    var mine := Overlay(db, job, a, s);
    SumUpdate(db.requests, job.r, mine.requests[job.r], ReservedWeight(a));
    if job.Fulfill? {
      SumAppend(db.expenses, Expense(a, job.amount, ExpenseStatus.Registered), ExecutedWeight(a));
    }
  }

  /** The request row, the allocation row and both totals a written transaction read are still current after
      another transaction commits. */
  lemma ReadsAreStable(db: Db, job: Job, locked: nat, t: Txn)
    requires Inv(db) && Enabled(db, Atomic(job, locked))
    requires TxnOk(db, t) && t.written && Rechecks(t.job)
    requires Writes(db, job, locked) !! t.held
    ensures var after, a, r := Effect(db, Atomic(job, locked)), t.locked.value, t.job.r;
      && a < |db.allocations| && a < |after.allocations| && r < |db.requests| && r < |after.requests|
      && after.requests[r] == db.requests[r]
      && Executed(after.expenses, a) == Executed(db.expenses, a)
      && Reserved(after.requests, a) == Reserved(db.requests, a)
  {
    var a, r := t.locked.value, t.job.r;
    RowsAreHeld(db, t);
    RequestIsStable(db, job, locked, r);
    TablesGrow(db, Atomic(job, locked));
    ExecutedStable(db, job, locked, a);
    ReservedStable(db, job, locked, a);
  }

  lemma RequestIsStable(db: Db, job: Job, locked: nat, r: nat)
    requires Inv(db) && Enabled(db, Atomic(job, locked)) && r < |db.requests|
    requires RequestRow(r) !in Writes(db, job, locked)
    ensures var after := Effect(db, Atomic(job, locked));
      r < |after.requests| && after.requests[r] == db.requests[r]
  {
    RowAnswerIsStable(db, job, locked, RequestQuery(r));
  }

  /** A validated transaction holds the rows of its request and its allocation. */
  lemma RowsAreHeld(db: Db, t: Txn)
    requires TxnOk(db, t) && t.written && Rechecks(t.job)
    ensures t.job.r < |db.requests| && RequestRow(t.job.r) in t.held
    ensures t.locked.value < |db.allocations| && AllocationRow(t.locked.value) in t.held
  {
    assert AllocationQuery(t.locked.value) in t.seen && RequestQuery(t.job.r) in t.seen;
    assert Guard(AllocationQuery(t.locked.value)) in t.held && Guard(RequestQuery(t.job.r)) in t.held;
  }

  lemma PreviewTotals(db: Db, after: Db, job: Job, a: nat, s: Answers)
    requires Rechecks(job) && RequestSeen(s, job.r)
    requires job.r < |db.requests| && job.r < |after.requests| && after.requests[job.r] == db.requests[job.r]
    requires Executed(after.expenses, a) == Executed(db.expenses, a)
    requires Reserved(after.requests, a) == Reserved(db.requests, a)
    ensures var mine, mineAfter := Overlay(db, job, a, s), Overlay(after, job, a, s);
      && Executed(mineAfter.expenses, a) == Executed(mine.expenses, a)
      && Reserved(mineAfter.requests, a) == Reserved(mine.requests, a)
      && |mine.allocations| == |db.allocations| && |mineAfter.allocations| == |after.allocations|
  {
    OverlayTotals(db, job, a, s);
    OverlayTotals(after, job, a, s);
  }

  /** Uncommitted rows stay a true preview of the balance while what they were computed from stays the same. */
  lemma PreviewIsStable(db: Db, after: Db, job: Job, a: nat, s: Answers, q: Query)
    requires Rechecks(job) && RequestSeen(s, job.r) && q in RecheckQueries(a)
    requires job.r < |db.requests| && job.r < |after.requests| && after.requests[job.r] == db.requests[job.r]
    requires a < |db.allocations| && a < |after.allocations|
    requires Executed(after.expenses, a) == Executed(db.expenses, a)
    requires Reserved(after.requests, a) == Reserved(db.requests, a)
    ensures var mine, mineAfter := Overlay(db, job, a, s), Overlay(after, job, a, s);
      Answerable(mine, q) && Answerable(mineAfter, q) && Ask(mineAfter, q) == Ask(mine, q)
  {
    PreviewTotals(db, after, job, a, s);
    if q != ExecutedQuery(a) { assert q == ReservedQuery(a); }
  }

  /** A commit leaves what another transaction re-read over its own uncommitted rows true. */
  lemma RechecksStayOk(db: Db, job: Job, locked: nat, t: Txn)
    requires Inv(db) && Enabled(db, Atomic(job, locked))
    requires TxnOk(db, t) && Writes(db, job, locked) !! t.held && t.written && Rechecks(t.job)
    ensures var after := Effect(db, Atomic(job, locked));
      forall q :: q in t.seenAfter ==>
        && q in RecheckQueries(t.locked.value)
        && t.job.r < |after.requests|
        && Answerable(Overlay(after, t.job, t.locked.value, t.seen), q)
        && t.seenAfter[q] == Ask(Overlay(after, t.job, t.locked.value, t.seen), q)
  {
    var after := Effect(db, Atomic(job, locked));
    ReadsAreStable(db, job, locked, t);
    forall q | q in t.seenAfter
      ensures q in RecheckQueries(t.locked.value)
      ensures t.job.r < |after.requests|
      ensures Answerable(Overlay(after, t.job, t.locked.value, t.seen), q)
      ensures t.seenAfter[q] == Ask(Overlay(after, t.job, t.locked.value, t.seen), q)
    {
      PreviewIsStable(db, after, t.job, t.locked.value, t.seen, q);
    }
  }

  lemma SeenStaysTrue(db: Db, job: Job, locked: nat, t: Txn)
    requires Inv(db) && Enabled(db, Atomic(job, locked))
    requires Truthful(db, t.seen) && (forall q :: q in t.seen ==> Guard(q) in t.held)
    requires Writes(db, job, locked) !! t.held
    ensures Truthful(Effect(db, Atomic(job, locked)), t.seen)
  {
    var after := Effect(db, Atomic(job, locked));
    forall q | q in t.seen ensures Answerable(after, q) && t.seen[q] == Ask(after, q) {
      AnswerIsStable(db, job, locked, q);
    }
  }

  /** A commit leaves every other running transaction's answers true. */
  lemma OthersStayOk(db: Db, job: Job, locked: nat, t: Txn)
    requires Inv(db) && Enabled(db, Atomic(job, locked))
    requires TxnOk(db, t) && Writes(db, job, locked) !! t.held
    ensures TxnOk(Effect(db, Atomic(job, locked)), t)
  {
    SeenStaysTrue(db, job, locked, t);
    if t.written { StaysReady(db, job, locked, t); }
  }

  lemma StaysReady(db: Db, job: Job, locked: nat, t: Txn)
    requires Inv(db) && Enabled(db, Atomic(job, locked))
    requires TxnOk(db, t) && Writes(db, job, locked) !! t.held && t.written
    ensures Ready(Effect(db, Atomic(job, locked)), t)
  {
    if Rechecks(t.job) { RechecksStayOk(db, job, locked, t); }
    WritesStay(db, job, locked, t);
    TablesGrow(db, Atomic(job, locked));
  }

  /** What a validated transaction is about to write does not change under it. */
  lemma WritesStay(db: Db, job: Job, locked: nat, t: Txn)
    requires Inv(db) && Enabled(db, Atomic(job, locked))
    requires TxnOk(db, t) && Writes(db, job, locked) !! t.held && t.written
    ensures Writes(Effect(db, Atomic(job, locked)), t.job, t.locked.value) <= t.held
  {
    if t.job.Resize? {
      assert AllocationQuery(t.job.a) in t.seen;
      RowAnswerIsStable(db, job, locked, AllocationQuery(t.job.a));
    }
  }

  // ---- Every step keeps the invariant ---------------------------------------------------

  /** The acting transaction's own step, when it does not end the transaction. */
  function OwnStep(sys: Sys, act: Action, t: Txn): Txn
    requires Allowed(sys, act) && !act.Begin? && !act.Finish? && !act.Abort? && t == sys.txns[act.i]
  {
    Next(sys, act).txns[act.i]
  }

  lemma ValidatedIsReady(db: Db, t: Txn)
    requires TxnOk(db, t) && !t.written && t.locked.Some?
    requires Complete(t.job, t.locked.value, t.seen) && Accepts(t.job, t.locked.value, t.seen)
    requires Writes(db, t.job, t.locked.value) <= t.held
    ensures Ready(db, t)
  {
    if !t.job.Legacy? && !t.job.Resize? {
      assert RequestQuery(t.job.r) in t.seen;
      Answered(db, t.seen, RequestQuery(t.job.r));
    }
    if t.job.Resize? {
      assert AllocationQuery(t.job.a) in t.seen;
    }
  }

  lemma OwnStepStaysOk(sys: Sys, act: Action)
    requires Allowed(sys, act) && !act.Begin? && !act.Finish? && !act.Abort?
    requires TxnOk(sys.db, sys.txns[act.i])
    ensures TxnOk(sys.db, OwnStep(sys, act, sys.txns[act.i]))
  {
    var t := sys.txns[act.i];
    match act {
      case Peek(_) =>
        assert !t.written;
      case Read(_, q) =>
        var u := OwnStep(sys, act, t);
        forall p | p in u.seen ensures Guard(p) in u.held && Answerable(sys.db, p) && u.seen[p] == Ask(sys.db, p) {
          assert p == q || p in t.seen;
        }
      case Write(_) => ValidatedIsReady(sys.db, t);
      case _ =>
    }
  }

  /** A commit is enabled as an atomic service, and installs its effect. */
  lemma CommitIsAtomic(sys: Sys, i: nat)
    requires TxnsOk(sys) && Allowed(sys, Finish(i))
    ensures var t := sys.txns[i];
      var op := Atomic(t.job, t.locked.value);
      var after := Next(sys, Finish(i));
      if Consolidated(t.job, t.locked.value, t.seen, t.seenAfter)
      then Enabled(sys.db, op) && after.db == Effect(sys.db, op) && after.commits == sys.commits + [op]
      else !Enabled(sys.db, op) && after.db == sys.db && after.commits == sys.commits
  {
    assert TxnOk(sys.db, sys.txns[i]);
    FinishIsAtomic(sys.db, sys.txns[i]);
  }

  lemma EndedKeepsExclusive(txns: seq<Txn>, i: nat)
    requires Exclusive(txns) && i < |txns|
    ensures Exclusive(txns[i := Ended(txns[i])])
  {
  }

  /** What the commit of one transaction leaves of another. */
  lemma CommitKeepsOther(sys: Sys, i: nat, k: nat)
    requires TxnsOk(sys) && Running(sys, i) && Running(sys, k) && k != i
    requires var t := sys.txns[i];
      && t.locked.Some? && Writes(sys.db, t.job, t.locked.value) <= t.held
      && Enabled(sys.db, Atomic(t.job, t.locked.value))
    ensures var t := sys.txns[i];
      TxnOk(Effect(sys.db, Atomic(t.job, t.locked.value)), sys.txns[k])
  {
    var t := sys.txns[i];
    assert TxnOk(sys.db, sys.txns[k]);
    assert sys.txns[k].held !! t.held by {
      assert k < i || i < k;
    }
    OthersStayOk(sys.db, t.job, t.locked.value, sys.txns[k]);
  }

  lemma FinishKeepsTxns(sys: Sys, i: nat)
    requires TxnsOk(sys) && Allowed(sys, Finish(i))
    ensures TxnsOk(Next(sys, Finish(i)))
  {
    var t := sys.txns[i];
    assert TxnOk(sys.db, t);
    CommitIsAtomic(sys, i);
    EndedKeepsExclusive(sys.txns, i);
    var after := Next(sys, Finish(i));
    if Consolidated(t.job, t.locked.value, t.seen, t.seenAfter) {
      StepKeepsInvariant(sys.db, Atomic(t.job, t.locked.value));
      forall k | 0 <= k < |after.txns| && !after.txns[k].done ensures TxnOk(after.db, after.txns[k]) {
        CommitKeepsOther(sys, i, k);
      }
    }
  }

  /** Steps other than the end of a transaction touch one transaction, and let no two hold the same row. */
  lemma OtherStepsStaySeparate(sys: Sys, act: Action)
    requires Exclusive(sys.txns) && Allowed(sys, act) && !act.Finish?
    ensures Next(sys, act).db == sys.db && Next(sys, act).commits == sys.commits
    ensures Exclusive(Next(sys, act).txns)
  {
  }

  lemma OtherStepsKeepTxns(sys: Sys, act: Action)
    requires TxnsOk(sys) && Allowed(sys, act) && !act.Finish?
    ensures TxnsOk(Next(sys, act)) && Next(sys, act).db == sys.db && Next(sys, act).commits == sys.commits
  {
    OtherStepsStaySeparate(sys, act);
    if !act.Begin? && !act.Abort? {
      assert TxnOk(sys.db, sys.txns[act.i]);
      OwnStepStaysOk(sys, act);
    }
  }

  lemma NextKeepsInvariant(start: Db, sys: Sys, act: Action)
    requires TxnsOk(sys) && History(start, sys)
    ensures TxnsOk(Next(sys, act)) && History(start, Next(sys, act))
  {
    if Allowed(sys, act) {
      if act.Finish? {
        FinishKeepsTxns(sys, act.i);
        CommitIsAtomic(sys, act.i);
        var t := sys.txns[act.i];
        RunAppend(start, sys.commits, Atomic(t.job, t.locked.value));
      } else {
        OtherStepsKeepTxns(sys, act);
      }
    }
  }

  /**
   Serializability: whatever transactions run and however their steps interleave, the committed ledger is the
   one the committed services produce when run atomically in commit order; in particular it keeps the ledger
   invariant.
   */
  lemma {:induction false} Serializable(start: Db, acts: seq<Action>)
    requires Inv(start)
    ensures var end := Exec(Sys(start, [], []), acts);
      TxnsOk(end) && end.db == Run(start, end.commits) && AllCommitted(start, end.commits)
  {
    if acts != [] {
      Serializable(start, acts[..|acts| - 1]);
      NextKeepsInvariant(start, Exec(Sys(start, [], []), acts[..|acts| - 1]), acts[|acts| - 1]);
    }
  }

  // ---- Competing approvals --------------------------------------------------------------

  /**
   In any interleaving of transactions of all kinds, two committed approvals on an allocation fit together, at the
   amounts approved, into what was free when the first committed and what was freed before the second.
   */
  lemma RivalApprovalsShare(start: Db, acts: seq<Action>, i: nat, j: nat, a: nat)
    requires Inv(start)
    ensures var commits := Exec(Sys(start, [], []), acts).commits;
      var states := Ledgers(start, commits);
      && Traces(states, commits)
      && (i < j < |commits| && ApprovesOn(commits[i], a) && ApprovesOn(commits[j], a) ==>
            && a < |states[i].allocations|
            && commits[i].r < |states[i].requests| && commits[j].r < |states[j].requests|
            && states[i].requests[commits[i].r].requested + states[j].requests[commits[j].r].requested
               <= Free(states[i], a) + Freed(states, commits, i, j, a))
  {
    Serializable(start, acts);
    var commits := Exec(Sys(start, [], []), acts).commits;
    var states := Ledgers(start, commits);
    LedgersTrace(start, commits);
    if i < j < |commits| && ApprovesOn(commits[i], a) && ApprovesOn(commits[j], a) {
      BothTake(states, commits, i, i, j, a);
    }
  }

  lemma BothTake(states: seq<Db>, ops: seq<Op>, lo: nat, i: nat, j: nat, a: nat)
    requires Traces(states, ops) && lo <= i < j < |ops| && ApprovesOn(ops[i], a) && ApprovesOn(ops[j], a)
    requires lo == i || a < |states[lo].allocations|
    ensures a < |states[i].allocations| && a < |states[lo].allocations|
    ensures ops[i].r < |states[i].requests| && ops[j].r < |states[j].requests|
    ensures states[i].requests[ops[i].r].requested + states[j].requests[ops[j].r].requested
            <= Free(states[lo], a) + Freed(states, ops, lo, j, a)
  {
    assert Commits(states, ops, i) && Commits(states, ops, j);
    ApprovalTakes(states[i], ops[i], a);
    ApprovalTakes(states[j], ops[j], a);
    ApprovalsFitInPairs(states, ops, lo, i, j, a);
  }

  /** If both approvals are in the run, their amounts, not updated since the start, fit. */
  lemma RivalsFitTogether(start: Db, ops: seq<Op>, i: nat, j: nat, a: nat)
    requires Inv(start) && a < |start.allocations| && AllCommitted(start, ops) && i < j < |ops|
    requires ApprovesOn(ops[i], a) && ApprovesOn(ops[j], a)
    requires ops[i].r < |start.requests| && ops[j].r < |start.requests|
    requires forall k :: 0 <= k < |ops| ==> !Rewrites(ops[k], ops[i].r) && !Rewrites(ops[k], ops[j].r)
    ensures Traces(Ledgers(start, ops), ops)
    ensures start.requests[ops[i].r].requested + start.requests[ops[j].r].requested
            <= Free(start, a) + Freed(Ledgers(start, ops), ops, 0, j, a)
  {
    var states := Ledgers(start, ops);
    LedgersTrace(start, ops);
    AmountStays(start, ops[..i], ops[i].r);
    AmountStays(start, ops[..j], ops[j].r);
    assert states[0] == start;
    BothTake(states, ops, 0, i, j, a);
  }

  /**
   Two approvals that fit one at a time but not together never both commit, whatever else commits: if both do, the
   amounts fit into what was free at the start and what was freed before the later one, or one was updated.
   */
  lemma RivalApprovalsExclude(start: Db, acts: seq<Action>, i: nat, j: nat, a: nat)
    requires Inv(start) && a < |start.allocations|
    ensures var commits := Exec(Sys(start, [], []), acts).commits;
      var states := Ledgers(start, commits);
      && Traces(states, commits)
      && (i < j < |commits| && ApprovesOn(commits[i], a) && ApprovesOn(commits[j], a)
          && commits[i].r < |start.requests| && commits[j].r < |start.requests| ==>
            || (start.requests[commits[i].r].requested + start.requests[commits[j].r].requested
                <= Free(start, a) + Freed(states, commits, 0, j, a))
            || exists k :: 0 <= k < |commits|
                           && (Rewrites(commits[k], commits[i].r) || Rewrites(commits[k], commits[j].r)))
  {
    Serializable(start, acts);
    var commits := Exec(Sys(start, [], []), acts).commits;
    LedgersTrace(start, commits);
    if i < j < |commits| && ApprovesOn(commits[i], a) && ApprovesOn(commits[j], a)
       && commits[i].r < |start.requests| && commits[j].r < |start.requests|
       && forall k :: 0 <= k < |commits| ==>
            !Rewrites(commits[k], commits[i].r) && !Rewrites(commits[k], commits[j].r) {
      RivalsFitTogether(start, commits, i, j, a);
    }
  }
}
