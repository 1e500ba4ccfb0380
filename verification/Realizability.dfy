/**
 The converse of serializability: every service call that the rule admits, on the allocation its
 request is on, is what some schedule of steps commits. So the locks, reads and re-checks exclude
 nothing that the sequential services would accept.
 */
module Realizability {
  import opened Wrappers
  import opened LedgerModel
  import opened LedgerRules
  import opened LedgerInvariant
  import opened Interleaving
  import opened Serializability

  lemma {:induction false} ExecAppend(sys: Sys, xs: seq<Action>, ys: seq<Action>)
    ensures Exec(sys, xs + ys) == Exec(Exec(sys, xs), ys)
    decreases |ys|
  {
    if ys == [] {
      assert xs + ys == xs;
    } else {
      var init := ys[..|ys| - 1];
      assert (xs + ys)[..|xs + ys| - 1] == xs + init;
      ExecAppend(sys, xs, init);
    }
  }

  lemma ThreePhases(sys: Sys, xs: seq<Action>, ys: seq<Action>, zs: seq<Action>)
    ensures Exec(sys, xs + ys + zs) == Exec(Exec(Exec(sys, xs), ys), zs)
  {
    ExecAppend(sys, xs, ys);
    ExecAppend(sys, xs + ys, zs);
  }

  lemma ExecOne(sys: Sys, act: Action)
    ensures Exec(sys, [act]) == Next(sys, act)
  {
    assert [act][..0] == [];
  }

  lemma {:induction false} ExecKeepsTxns(sys: Sys, acts: seq<Action>)
    requires TxnsOk(sys)
    ensures TxnsOk(Exec(sys, acts))
    decreases |acts|
  {
    if acts != [] {
      var before, act := Exec(sys, acts[..|acts| - 1]), acts[|acts| - 1];
      ExecKeepsTxns(sys, acts[..|acts| - 1]);
      if Allowed(before, act) {
        if act.Finish? { FinishKeepsTxns(before, act.i); } else { OtherStepsKeepTxns(before, act); }
      }
    }
  }

  predicate LastRunning(sys: Sys) { sys.txns != [] && !sys.txns[|sys.txns| - 1].done }

  /** No running transaction among these holds any of the rows. */
  predicate Unblocked(txns: seq<Txn>, rows: set<Row>) {
    forall i :: 0 <= i < |txns| && !txns[i].done ==> txns[i].held !! rows
  }

  function Others(sys: Sys): seq<Txn> requires sys.txns != [] { sys.txns[..|sys.txns| - 1] }

  function Last(sys: Sys): nat requires sys.txns != [] { |sys.txns| - 1 }

  function Current(sys: Sys): Txn requires sys.txns != [] { sys.txns[|sys.txns| - 1] }

  function WithCurrent(sys: Sys, t: Txn): Sys
    requires sys.txns != []
  {
    sys.(txns := sys.txns[|sys.txns| - 1 := t])
  }

  lemma TakeOne(sys: Sys, row: Row)
    requires LastRunning(sys) && Unblocked(Others(sys), {row})
    ensures var next := Exec(sys, [Lock(Last(sys), row)]);
      next == WithCurrent(sys, Current(sys).(held := Current(sys).held + {row})) && LastRunning(next)
  {
    ExecOne(sys, Lock(Last(sys), row));
  }

  lemma ReplacedTwice(sys: Sys, t: Txn, u: Txn)
    requires sys.txns != []
    ensures WithCurrent(WithCurrent(sys, t), u) == WithCurrent(sys, u)
  {
  }

  /** A transaction is granted any set of locks that no other holds. */
  lemma {:induction false} TakeLocks(sys: Sys, rows: set<Row>) returns (acts: seq<Action>)
    requires LastRunning(sys) && Unblocked(Others(sys), rows)
    ensures Exec(sys, acts) == WithCurrent(sys, Current(sys).(held := Current(sys).held + rows))
    decreases |rows|
  {
    var t := Current(sys);
    if rows == {} {
      acts := [];
      assert t.held + {} == t.held;
    } else {
      var row :| row in rows;
      var first := [Lock(Last(sys), row)];
      TakeOne(sys, row);
      assert Others(Exec(sys, first)) == Others(sys);
      var rest := TakeLocks(Exec(sys, first), rows - {row});
      acts := first + rest;
      ExecAppend(sys, first, rest);
      assert t.held + {row} + (rows - {row}) == t.held + rows;
      ReplacedTwice(sys, t.(held := t.held + {row}), t.(held := t.held + rows));
    }
  }

  lemma {:induction false} AskAll(sys: Sys, queries: set<Query>) returns (acts: seq<Action>, seen: Answers)
    requires LastRunning(sys) && !Current(sys).written
    requires forall q :: q in queries ==> Guard(q) in Current(sys).held && Answerable(sys.db, q)
    ensures Exec(sys, acts) == WithCurrent(sys, Current(sys).(seen := seen))
    ensures queries <= seen.Keys
    ensures Current(sys).seen.Keys <= seen.Keys
    decreases |queries|
  {
    if queries == {} {
      acts, seen := [], Current(sys).seen;
    } else {
      var q :| q in queries;
      var next := Next(sys, Read(Last(sys), q));
      ExecOne(sys, Read(Last(sys), q));
      var rest, after := AskAll(next, queries - {q});
      acts, seen := [Read(Last(sys), q)] + rest, after;
      ExecAppend(sys, [Read(Last(sys), q)], rest);
    }
  }

  /** The allocation the transaction comes to work under. */
  function Target(db: Db, job: Job): nat {
    if job.Legacy? || job.Resize? then job.a
    else if job.r < |db.requests| then db.requests[job.r].allocation else 0
  }

  function Guards(job: Job, locked: nat): set<Row> {
    set q | q in Needs(job, locked) :: Guard(q)
  }

  /** The rows the job must hold to read and to write. */
  function Rows(db: Db, job: Job): set<Row> {
    Guards(job, Target(db, job)) + Writes(db, job, Target(db, job))
  }

  lemma EnabledIsAnswerable(db: Db, job: Job, q: Query)
    requires Inv(db) && Enabled(db, Atomic(job, Target(db, job))) && q in Needs(job, Target(db, job))
    ensures Answerable(db, q)
  {
  }

  /** Begin and learn the allocation. */
  lemma BeginAndPeek(sys: Sys, job: Job) returns (acts: seq<Action>)
    requires !job.Legacy? && !job.Resize? ==> job.r < |sys.db.requests|
    ensures Exec(sys, acts)
            == sys.(txns := sys.txns + [Txn(job, Some(Target(sys.db, job)), {}, map[], false, map[], false)])
  {
    var begun := Next(sys, Begin(job));
    ExecOne(sys, Begin(job));
    if job.Legacy? || job.Resize? {
      acts := [Begin(job)];
    } else {
      var peek := Peek(|sys.txns|);
      ExecOne(begun, peek);
      ExecAppend(sys, [Begin(job)], [peek]);
      acts := [Begin(job)] + [peek];
      assert begun.txns[|sys.txns|] == Start(job);
      assert Next(begun, peek).txns
          == sys.txns + [Txn(job, Some(Target(sys.db, job)), {}, map[], false, map[], false)];
    }
  }

  /** The last transaction has ended, and the others are where they were. */
  predicate LastEnded(sys: Sys, end: Sys) {
    && sys.txns != [] && |end.txns| == |sys.txns|
    && Others(end) == Others(sys) && Current(end).done
  }

  /** The same transaction, further on, on the same committed ledger. */
  predicate Continues(sys: Sys, after: Sys) {
    && LastRunning(sys) && LastRunning(after)
    && after.db == sys.db && after.commits == sys.commits
    && |after.txns| == |sys.txns| && Others(after) == Others(sys)
    && Current(after).job == Current(sys).job && Current(after).locked == Current(sys).locked
    && Current(after).written
  }

  lemma CurrentIsOk(sys: Sys)
    requires TxnsOk(sys) && LastRunning(sys)
    ensures Inv(sys.db) && TxnOk(sys.db, Current(sys))
  {
    assert Current(sys) == sys.txns[Last(sys)];
  }

  lemma WriteContinues(sys: Sys)
    requires LastRunning(sys) && Allowed(sys, Write(Last(sys)))
    ensures Continues(sys, Next(sys, Write(Last(sys))))
  {
  }

  lemma MayWrite(db: Db, t: Txn)
    requires Inv(db) && TxnOk(db, t) && t.locked.Some? && Complete(t.job, t.locked.value, t.seen)
    requires Enabled(db, Atomic(t.job, t.locked.value))
    ensures Accepts(t.job, t.locked.value, t.seen)
  {
    if !Accepts(t.job, t.locked.value, t.seen) {
      RefusalIsRule(db, t.job, t.locked.value, t.seen);
    }
  }

  /** Validation cannot turn away what the rule admits. */
  lemma WriteOne(sys: Sys) returns (after: Sys)
    requires TxnsOk(sys) && LastRunning(sys)
    requires var t := Current(sys);
      && !t.written && t.locked.Some?
      && Complete(t.job, t.locked.value, t.seen)
      && Writes(sys.db, t.job, t.locked.value) <= t.held
      && Enabled(sys.db, Atomic(t.job, t.locked.value))
    ensures after == Exec(sys, [Write(Last(sys))]) && TxnsOk(after) && Continues(sys, after)
  {
    CurrentIsOk(sys);
    MayWrite(sys.db, Current(sys));
    ExecOne(sys, Write(Last(sys)));
    after := Next(sys, Write(Last(sys)));
    OtherStepsKeepTxns(sys, Write(Last(sys)));
    WriteContinues(sys);
  }

  /** A transaction that has written may re-read either total of its allocation. */
  lemma MayReread(sys: Sys, q: Query)
    requires LastRunning(sys) && TxnOk(sys.db, Current(sys)) && Current(sys).written && Rechecks(Current(sys).job)
    requires Current(sys).locked.Some? && q in RecheckQueries(Current(sys).locked.value)
    ensures Allowed(sys, Reread(Last(sys), q))
  {
    var t := Current(sys);
    RowsAreHeld(sys.db, t);
  }

  lemma RereadContinues(sys: Sys, q: Query)
    requires LastRunning(sys) && Allowed(sys, Reread(Last(sys), q))
    ensures var after := Next(sys, Reread(Last(sys), q));
      Continues(sys, after) && Current(after).seenAfter.Keys == Current(sys).seenAfter.Keys + {q}
  {
  }

  lemma RereadOne(sys: Sys, q: Query) returns (after: Sys)
    requires TxnsOk(sys) && LastRunning(sys) && Current(sys).written && Rechecks(Current(sys).job)
    requires Current(sys).locked.Some? && q in RecheckQueries(Current(sys).locked.value)
    ensures after == Exec(sys, [Reread(Last(sys), q)]) && TxnsOk(after) && Continues(sys, after)
    ensures Current(after).seenAfter.Keys == Current(sys).seenAfter.Keys + {q}
  {
    CurrentIsOk(sys);
    MayReread(sys, q);
    OtherStepsKeepTxns(sys, Reread(Last(sys), q));
    RereadContinues(sys, q);
    ExecOne(sys, Reread(Last(sys), q));
    after := Next(sys, Reread(Last(sys), q));
  }

  lemma LockedIsKnown(sys: Sys)
    requires TxnsOk(sys) && LastRunning(sys) && Current(sys).written
    ensures Current(sys).locked.Some?
  {
    CurrentIsOk(sys);
  }

  lemma RereadBoth(sys: Sys, a: nat) returns (acts: seq<Action>, after: Sys)
    requires TxnsOk(sys) && LastRunning(sys) && Current(sys).written && Rechecks(Current(sys).job)
    requires Current(sys).locked == Some(a)
    ensures after == Exec(sys, acts) && TxnsOk(after) && Continues(sys, after)
    ensures RecheckQueries(a) <= Current(after).seenAfter.Keys
  {
    var middle := RereadOne(sys, ExecutedQuery(a));
    after := RereadOne(middle, ReservedQuery(a));
    var first, second := Reread(Last(sys), ExecutedQuery(a)), Reread(Last(middle), ReservedQuery(a));
    acts := [first] + [second];
    ExecAppend(sys, [first], [second]);
  }

  /** The re-reads of a job that has written; none for a job that does not re-check. */
  lemma CheckAgain(sys: Sys) returns (acts: seq<Action>, after: Sys)
    requires TxnsOk(sys) && LastRunning(sys) && Current(sys).written
    ensures after == Exec(sys, acts) && TxnsOk(after) && Continues(sys, after)
    ensures var t := Current(after);
            t.locked.Some? && (Rechecks(t.job) ==> RecheckQueries(t.locked.value) <= t.seenAfter.Keys)
  {
    var t := Current(sys);
    LockedIsKnown(sys);
    if !Rechecks(t.job) {
      acts, after := [], sys;
    } else {
      acts, after := RereadBoth(sys, t.locked.value);
    }
  }

  lemma MayFinish(sys: Sys)
    requires LastRunning(sys) && TxnOk(sys.db, Current(sys)) && Current(sys).written
    requires var t := Current(sys);
             t.locked.Some? && (Rechecks(t.job) ==> RecheckQueries(t.locked.value) <= t.seenAfter.Keys)
    ensures Allowed(sys, Finish(Last(sys)))
  {
  }

  lemma FinishCommits(sys: Sys)
    requires TxnsOk(sys) && LastRunning(sys) && Current(sys).written
    requires var t := Current(sys);
             t.locked.Some? && (Rechecks(t.job) ==> RecheckQueries(t.locked.value) <= t.seenAfter.Keys)
    requires Enabled(sys.db, Atomic(Current(sys).job, Current(sys).locked.value))
    ensures Allowed(sys, Finish(Last(sys)))
    ensures var op := Atomic(Current(sys).job, Current(sys).locked.value);
      var end := Next(sys, Finish(Last(sys)));
      end.db == Effect(sys.db, op) && end.commits == sys.commits + [op]
  {
    CurrentIsOk(sys);
    MayFinish(sys);
    CommitIsAtomic(sys, Last(sys));
  }

  lemma FinishEnds(sys: Sys)
    requires LastRunning(sys) && Allowed(sys, Finish(Last(sys)))
    ensures LastEnded(sys, Next(sys, Finish(Last(sys))))
  {
  }

  lemma FinishOne(sys: Sys) returns (end: Sys)
    requires TxnsOk(sys) && LastRunning(sys) && Current(sys).written
    requires var t := Current(sys);
             t.locked.Some? && (Rechecks(t.job) ==> RecheckQueries(t.locked.value) <= t.seenAfter.Keys)
    requires Enabled(sys.db, Atomic(Current(sys).job, Current(sys).locked.value))
    ensures end == Exec(sys, [Finish(Last(sys))])
    ensures var op := Atomic(Current(sys).job, Current(sys).locked.value);
      && end.db == Effect(sys.db, op)
      && end.commits == sys.commits + [op]
      && LastEnded(sys, end)
  {
    FinishCommits(sys);
    FinishEnds(sys);
    ExecOne(sys, Finish(Last(sys)));
    end := Next(sys, Finish(Last(sys)));
  }

  lemma CheckAndFinish(sys: Sys) returns (acts: seq<Action>)
    requires TxnsOk(sys) && LastRunning(sys) && Current(sys).written && Current(sys).locked.Some?
    requires Enabled(sys.db, Atomic(Current(sys).job, Current(sys).locked.value))
    ensures var op := Atomic(Current(sys).job, Current(sys).locked.value);
      var end := Exec(sys, acts);
      && end.db == Effect(sys.db, op)
      && end.commits == sys.commits + [op]
      && LastEnded(sys, end)
  {
    var rest, before := CheckAgain(sys);
    var end := FinishOne(before);
    acts := rest + [Finish(Last(before))];
    ExecAppend(sys, rest, [Finish(Last(before))]);
  }

  /** With locks and answers in hand, an enabled service passes validation, re-reads its balance and commits. */
  lemma WriteAndFinish(sys: Sys) returns (acts: seq<Action>)
    requires TxnsOk(sys) && LastRunning(sys)
    requires var t := Current(sys);
      && !t.written && t.locked.Some?
      && Complete(t.job, t.locked.value, t.seen)
      && Writes(sys.db, t.job, t.locked.value) <= t.held
      && Enabled(sys.db, Atomic(t.job, t.locked.value))
    ensures var op := Atomic(Current(sys).job, Current(sys).locked.value);
      var end := Exec(sys, acts);
      && end.db == Effect(sys.db, op)
      && end.commits == sys.commits + [op]
      && LastEnded(sys, end)
  {
    var written := WriteOne(sys);
    var rest := CheckAndFinish(written);
    acts := [Write(Last(sys))] + rest;
    ExecAppend(sys, [Write(Last(sys))], rest);
  }

  /** Locks everything the job asks under or writes to, then asks everything it needs. */
  lemma LockAndAsk(sys: Sys) returns (acts: seq<Action>, after: Sys)
    requires Inv(sys.db) && LastRunning(sys) && !Current(sys).written
    requires Unblocked(Others(sys), Rows(sys.db, Current(sys).job))
    requires Current(sys).locked == Some(Target(sys.db, Current(sys).job))
    requires Enabled(sys.db, Atomic(Current(sys).job, Current(sys).locked.value))
    ensures after == Exec(sys, acts) && LastRunning(after) && after.db == sys.db && after.commits == sys.commits
    ensures |after.txns| == |sys.txns| && Others(after) == Others(sys)
    ensures var t := Current(after);
      && t.job == Current(sys).job && t.locked == Current(sys).locked && !t.written
      && Complete(t.job, t.locked.value, t.seen)
      && Writes(sys.db, t.job, t.locked.value) <= t.held
  {
    var job, locked := Current(sys).job, Current(sys).locked.value;
    acts := TakeLocks(sys, Rows(sys.db, job));
    var holding := Exec(sys, acts);
    forall q | q in Needs(job, locked) ensures Guard(q) in Current(holding).held && Answerable(sys.db, q) {
      EnabledIsAnswerable(sys.db, job, q);
      assert Guard(q) in Guards(job, locked);
    }
    var asks, seen := AskAll(holding, Needs(job, locked));
    ExecAppend(sys, acts, asks);
    after := Exec(holding, asks);
    acts := acts + asks;
  }

  /**
   Every enabled service call on the request's own allocation is committed by some schedule, whatever other
   transactions are under way, as long as none of them holds a row it needs; they stay where they are.
   */
  lemma Realizable(sys: Sys, job: Job) returns (acts: seq<Action>)
    requires TxnsOk(sys) && Enabled(sys.db, Atomic(job, Target(sys.db, job)))
    requires Unblocked(sys.txns, Rows(sys.db, job))
    ensures var op := Atomic(job, Target(sys.db, job));
      var end := Exec(sys, acts);
      && TxnsOk(end)
      && end.db == Effect(sys.db, op)
      && end.commits == sys.commits + [op]
      && |end.txns| == |sys.txns| + 1 && end.txns[..|sys.txns|] == sys.txns && end.txns[|sys.txns|].done
  {
    var opening := BeginAndPeek(sys, job);
    var begun := Exec(sys, opening);
    assert Others(begun) == sys.txns;
    var middle, informed := LockAndAsk(begun);
    ExecKeepsTxns(sys, opening);
    ExecKeepsTxns(begun, middle);
    var ending := WriteAndFinish(informed);
    ThreePhases(sys, opening, middle, ending);
    acts := opening + middle + ending;
    ExecKeepsTxns(sys, acts);
  }

  // ---- Whole histories ------------------------------------------------------------------

  /** One job run atomically, on the allocation its request is on; None if it is refused. */
  function Turn(db: Db, job: Job): (after: Option<Db>)
    requires Inv(db)
    ensures after.Some? ==> Inv(after.value)
  {
    var op := Atomic(job, Target(db, job));
    if !Enabled(db, op) then None
    else
      StepKeepsInvariant(db, op);
      Some(Effect(db, op))
  }

  /** The ledger after the jobs one by one; None if one is refused. */
  function InTurn(db: Db, jobs: seq<Job>): (after: Option<Db>)
    requires Inv(db)
    ensures after.Some? ==> Inv(after.value)
    decreases |jobs|
  {
    if jobs == [] then Some(db)
    else
      match InTurn(db, jobs[..|jobs| - 1])
      case None => None
      case Some(before) => Turn(before, jobs[|jobs| - 1])
  }

  /** The atomic services the jobs stand for, in order. */
  function CallsInTurn(db: Db, jobs: seq<Job>): (ops: seq<Op>)
    requires Inv(db) && InTurn(db, jobs).Some?
    decreases |jobs|
  {
    if jobs == [] then []
    else
      var before, job := InTurn(db, jobs[..|jobs| - 1]).value, jobs[|jobs| - 1];
      CallsInTurn(db, jobs[..|jobs| - 1]) + [Atomic(job, Target(before, job))]
  }

  predicate AllDone(txns: seq<Txn>) { forall i :: 0 <= i < |txns| ==> txns[i].done }

  /** Everything so far has ended, in this ledger and after these commits. */
  ghost predicate Settled(sys: Sys, db: Db, commits: seq<Op>) {
    TxnsOk(sys) && AllDone(sys.txns) && sys.db == db && sys.commits == commits
  }

  lemma OneMoreJob(start: Sys, earlier: seq<Action>, here: Sys, job: Job) returns (acts: seq<Action>)
    requires here == Exec(start, earlier) && Settled(here, here.db, here.commits) && Turn(here.db, job).Some?
    ensures Settled(Exec(start, acts), Turn(here.db, job).value, here.commits + [Atomic(job, Target(here.db, job))])
  {
    var last := Realizable(here, job);
    ExecAppend(start, earlier, last);
    acts := earlier + last;
    var end := Exec(here, last);
    forall i | 0 <= i < |end.txns| ensures end.txns[i].done {
      if i < |here.txns| { assert end.txns[i] == end.txns[..|here.txns|][i]; }
    }
  }

  /** Every sequential history of these services is exactly what some schedule of their steps commits, in order. */
  lemma {:induction false} HistoriesRealizable(start: Db, jobs: seq<Job>) returns (acts: seq<Action>)
    requires Inv(start) && InTurn(start, jobs).Some?
    ensures Settled(Exec(Sys(start, [], []), acts), InTurn(start, jobs).value, CallsInTurn(start, jobs))
    decreases |jobs|
  {
    if jobs == [] {
      acts := [];
    } else {
      var earlier := HistoriesRealizable(start, jobs[..|jobs| - 1]);
      var here := Exec(Sys(start, [], []), earlier);
      acts := OneMoreJob(Sys(start, [], []), earlier, here, jobs[|jobs| - 1]);
    }
  }
}
