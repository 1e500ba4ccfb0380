/**
 Waiting for row locks. Transactions take the locks of their plans one by one and keep them until they end. When
 plans climb one common ladder nobody waits for ever; in general a deadlock is reachable exactly when the plans can
 be tied in a knot; and an allocation update, the one service off the common ladder, deadlocks with another exactly
 when that one locks the allocation and a donation of the update.
 */
module Deadlock {
  import opened LedgerModel
  import opened LedgerRules
  import opened LockOrder

  /** A transaction that has taken the first `taken` locks of its plan and keeps them until it ends. */
  datatype Climber = Climber(plan: seq<Lock>, taken: nat, ended: bool)

  predicate WellFormed(ts: seq<Climber>) {
    forall i :: 0 <= i < |ts| ==> ts[i].taken <= |ts[i].plan|
  }

  predicate Holds(t: Climber, l: Lock)
    requires t.taken <= |t.plan|
  {
    !t.ended && l in t.plan[..t.taken]
  }

  /** Transaction i holds everything it needs, or the next lock it needs is free. */
  predicate CanProceed(ts: seq<Climber>, i: nat)
    requires WellFormed(ts) && i < |ts|
  {
    && !ts[i].ended
    && (ts[i].taken < |ts[i].plan| ==>
          forall j :: 0 <= j < |ts| && j != i ==> !Holds(ts[j], ts[i].plan[ts[i].taken]))
  }

  predicate Waits(t: Climber) {
    !t.ended && t.taken < |t.plan|
  }

  predicate AllEnded(ts: seq<Climber>) { forall i :: 0 <= i < |ts| ==> ts[i].ended }

  /** Somebody has not ended and nobody can proceed. */
  predicate Stuck(ts: seq<Climber>)
    requires WellFormed(ts)
  {
    !AllEnded(ts) && forall i :: 0 <= i < |ts| ==> !CanProceed(ts, i)
  }

  /** A transaction takes its next lock, or ends and lets go of all; one that cannot proceed waits. */
  function Advance(ts: seq<Climber>, i: nat): (after: seq<Climber>)
    requires WellFormed(ts)
    ensures WellFormed(after) && |after| == |ts|
  {
    if i < |ts| && CanProceed(ts, i) then
      ts[i := if ts[i].taken < |ts[i].plan| then ts[i].(taken := ts[i].taken + 1) else ts[i].(ended := true)]
    else ts
  }

  /** The outcome of a schedule, given by whose turn it is at each step. */
  function Scheduled(ts: seq<Climber>, schedule: seq<nat>): (after: seq<Climber>)
    requires WellFormed(ts)
    ensures WellFormed(after) && |after| == |ts|
    decreases |schedule|
  {
    if schedule == [] then ts else Scheduled(Advance(ts, schedule[0]), schedule[1..])
  }

  lemma {:induction false} ScheduledAppend(ts: seq<Climber>, xs: seq<nat>, ys: seq<nat>)
    requires WellFormed(ts)
    ensures Scheduled(ts, xs + ys) == Scheduled(Scheduled(ts, xs), ys)
    decreases |xs|
  {
    if xs == [] {
      assert xs + ys == ys;
    } else {
      assert (xs + ys)[1..] == xs[1..] + ys;
      ScheduledAppend(Advance(ts, xs[0]), xs[1..], ys);
    }
  }

  /** Steps still to be made. */
  function Remaining(ts: seq<Climber>): nat
    requires WellFormed(ts)
  {
    if ts == [] then 0
    else
      var last := ts[|ts| - 1];
      Remaining(ts[..|ts| - 1]) + if last.ended then 0 else |last.plan| - last.taken + 1
  }

  lemma {:induction false} RemainingDrops(ts: seq<Climber>, i: nat, t: Climber)
    requires WellFormed(ts) && i < |ts| && t.taken <= |t.plan| && !ts[i].ended
    requires (t == ts[i].(taken := ts[i].taken + 1)) || (t == ts[i].(ended := true))
    ensures WellFormed(ts[i := t]) && Remaining(ts[i := t]) < Remaining(ts)
  {
    var n := |ts| - 1;
    if i < n {
      RemainingDrops(ts[..n], i, t);
      assert ts[i := t][..n] == ts[..n][i := t];
    } else {
      assert ts[i := t][..n] == ts[..n];
    }
  }

  /** Every schedule can be continued until nobody can proceed: all have ended, or they are stuck. */
  lemma {:induction false} RunsOut(ts: seq<Climber>) returns (schedule: seq<nat>)
    requires WellFormed(ts)
    ensures AllEnded(Scheduled(ts, schedule)) || Stuck(Scheduled(ts, schedule))
    decreases Remaining(ts)
  {
    if AllEnded(ts) || Stuck(ts) {
      schedule := [];
    } else {
      var i: nat :| i < |ts| && CanProceed(ts, i);
      RemainingDrops(ts, i, Advance(ts, i)[i]);
      var rest := RunsOut(Advance(ts, i));
      schedule := [i] + rest;
      assert schedule[1..] == rest;
    }
  }

  // ---- Ladders --------------------------------------------------------------------------

  /** The order of tables all services but one climb, and the one with allocations below donations. */
  datatype Ladder = Canonical | AllocationsFirst

  function RankIn(ladder: Ladder, t: Table): nat {
    if ladder == Canonical then Rank(t)
    else if t == Donations then Rank(Allocations)
    else if t == Allocations then Rank(Donations)
    else Rank(t)
  }

  predicate BeforeIn(ladder: Ladder, x: Lock, y: Lock) {
    RankIn(ladder, x.table) < RankIn(ladder, y.table) || (x.table == y.table && x.pk < y.pk)
  }

  predicate IncreasingIn(ladder: Ladder, plan: seq<Lock>) {
    forall i, j :: 0 <= i < j < |plan| ==> BeforeIn(ladder, plan[i], plan[j])
  }

  lemma BeforeTransitive(ladder: Ladder, x: Lock, y: Lock, z: Lock)
    requires BeforeIn(ladder, x, y) && BeforeIn(ladder, y, z)
    ensures BeforeIn(ladder, x, z)
  {
  }

  /** Among the waiting transactions, one whose next lock no other waits beyond. */
  lemma {:induction false} HighestWaiter(ladder: Ladder, ts: seq<Climber>, n: nat) returns (i: nat)
    requires n <= |ts| && WellFormed(ts)
    requires exists k :: 0 <= k < n && Waits(ts[k])
    ensures i < n && Waits(ts[i])
    ensures forall k :: 0 <= k < n && Waits(ts[k]) ==>
              !BeforeIn(ladder, ts[i].plan[ts[i].taken], ts[k].plan[ts[k].taken])
  {
    if exists k :: 0 <= k < n - 1 && Waits(ts[k]) {
      i := HighestWaiter(ladder, ts, n - 1);
      var next, last := ts[i].plan[ts[i].taken], ts[n - 1];
      if Waits(last) && BeforeIn(ladder, next, last.plan[last.taken]) {
        forall k | 0 <= k < n && Waits(ts[k])
          ensures !BeforeIn(ladder, last.plan[last.taken], ts[k].plan[ts[k].taken])
        {
          if k < n - 1 && BeforeIn(ladder, last.plan[last.taken], ts[k].plan[ts[k].taken]) {
            BeforeTransitive(ladder, next, last.plan[last.taken], ts[k].plan[ts[k].taken]);
          }
        }
        i := n - 1;
      }
    } else {
      i := n - 1;
    }
  }

  ghost predicate Climbing(ladder: Ladder, ts: seq<Climber>) {
    WellFormed(ts) && forall i :: 0 <= i < |ts| ==> IncreasingIn(ladder, ts[i].plan)
  }

  /** While some transaction climbing a common ladder has not ended, one of them can proceed. */
  lemma SomeoneCanProceed(ladder: Ladder, ts: seq<Climber>)
    requires Climbing(ladder, ts)
    ensures !Stuck(ts)
  {
    if i :| 0 <= i < |ts| && !ts[i].ended && ts[i].taken == |ts[i].plan| {
      assert CanProceed(ts, i);
    } else if !AllEnded(ts) {
      var i := HighestWaiter(ladder, ts, |ts|);
      var next := ts[i].plan[ts[i].taken];
      forall j | 0 <= j < |ts| && j != i ensures !Holds(ts[j], next) {
        forall k | 0 <= k < ts[j].taken && Waits(ts[j]) ensures ts[j].plan[k] != next {
          assert BeforeIn(ladder, ts[j].plan[k], ts[j].plan[ts[j].taken]);
        }
      }
      assert CanProceed(ts, i);
    }
  }

  lemma {:induction false} ClimbingStays(ladder: Ladder, ts: seq<Climber>, schedule: seq<nat>)
    requires Climbing(ladder, ts)
    ensures Climbing(ladder, Scheduled(ts, schedule))
    decreases |schedule|
  {
    if schedule != [] {
      ClimbingStays(ladder, Advance(ts, schedule[0]), schedule[1..]);
    }
  }

  // ---- Service calls --------------------------------------------------------------------

  /** A running service call: what its reads saw, and how far it has got with its plan. */
  datatype Call = Call(early: Db, late: Db, op: Op, donor: nat, taken: nat, ended: bool)

  function PlanOf(c: Call): seq<Lock> { Plan(c.early, c.late, c.op, c.donor) }

  function Climbers(calls: seq<Call>): (ts: seq<Climber>)
    ensures |ts| == |calls|
    ensures forall i :: 0 <= i < |ts| ==> ts[i] == Climber(PlanOf(calls[i]), calls[i].taken, calls[i].ended)
  {
    seq(|calls|, i requires 0 <= i < |calls| => Climber(PlanOf(calls[i]), calls[i].taken, calls[i].ended))
  }

  predicate Locks(plan: seq<Lock>, t: Table) {
    exists i :: 0 <= i < |plan| && plan[i].table == t
  }

  /** The calls fit one ladder: none updates an allocation, or no other locks both a donation and an allocation. */
  predicate OneLadder(calls: seq<Call>) {
    || (forall i :: 0 <= i < |calls| ==> !calls[i].op.UpdateAllocation?)
    || (forall i :: 0 <= i < |calls| ==>
          calls[i].op.UpdateAllocation? || !Locks(PlanOf(calls[i]), Donations) || !Locks(PlanOf(calls[i]), Allocations))
  }

  lemma UpdateClimbsAllocationsFirst(early: Db, late: Db, op: Op, donor: nat)
    requires op.UpdateAllocation?
    ensures IncreasingIn(AllocationsFirst, Plan(early, late, op, donor))
  {
    InOrderIncreases(Donations, {DonationOf(late, op.a), op.d}, |late.donations|);
  }

  lemma OneSideClimbsEither(plan: seq<Lock>)
    requires Increasing(plan) && (!Locks(plan, Donations) || !Locks(plan, Allocations))
    ensures IncreasingIn(AllocationsFirst, plan)
  {
    forall i, j | 0 <= i < j < |plan| ensures BeforeIn(AllocationsFirst, plan[i], plan[j]) {
      assert Before(plan[i], plan[j]);
    }
  }

  lemma CallsClimb(calls: seq<Call>) returns (ladder: Ladder)
    requires WellFormed(Climbers(calls)) && OneLadder(calls)
    ensures Climbing(ladder, Climbers(calls))
  {
    var plain := forall i :: 0 <= i < |calls| ==> !calls[i].op.UpdateAllocation?;
    ladder := if plain then Canonical else AllocationsFirst;
    forall i | 0 <= i < |calls| ensures IncreasingIn(ladder, Climbers(calls)[i].plan) {
      var c := calls[i];
      if c.op.UpdateAllocation? {
        UpdateClimbsAllocationsFirst(c.early, c.late, c.op, c.donor);
      } else {
        PlansIncrease(c.early, c.late, c.op, c.donor);
        if !plain { OneSideClimbsEither(PlanOf(c)); }
      }
    }
  }

  /**
   Any number of calls at any point of their plans, whatever their reads saw, never get stuck, whatever the
   schedule: without allocation updates, or with updates alone, or with updates beside services that do not lock
   both a donation and an allocation.
   */
  lemma ServicesNeverDeadlock(calls: seq<Call>, schedule: seq<nat>)
    requires WellFormed(Climbers(calls)) && OneLadder(calls)
    ensures !Stuck(Scheduled(Climbers(calls), schedule))
  {
    var ladder := CallsClimb(calls);
    ClimbingStays(ladder, Climbers(calls), schedule);
    SomeoneCanProceed(ladder, Scheduled(Climbers(calls), schedule));
  }

  /** So from wherever a schedule has brought them, all of them can be brought to their end. */
  lemma ServicesCanAllEnd(calls: seq<Call>, schedule: seq<nat>) returns (rest: seq<nat>)
    requires WellFormed(Climbers(calls)) && OneLadder(calls)
    ensures AllEnded(Scheduled(Climbers(calls), schedule + rest))
  {
    var ts := Climbers(calls);
    rest := RunsOut(Scheduled(ts, schedule));
    ScheduledAppend(ts, schedule, rest);
    ServicesNeverDeadlock(calls, schedule + rest);
  }

  // ---- Exactly when a deadlock is reachable ---------------------------------------------

  function Start(plans: seq<seq<Lock>>): (ts: seq<Climber>)
    ensures |ts| == |plans| && WellFormed(ts)
    ensures forall i :: 0 <= i < |ts| ==> ts[i] == Climber(plans[i], 0, false)
  {
    seq(|plans|, i requires 0 <= i < |plans| => Climber(plans[i], 0, false))
  }

  predicate Apart(p: seq<Lock>, x: nat, q: seq<Lock>, y: nat)
    requires x <= |p| && y <= |q|
  {
    forall l :: l in p[..x] ==> l !in q[..y]
  }

  /** Transaction i, having taken its first at[i] locks, next needs one that j has taken. */
  predicate WaitsFor(plans: seq<seq<Lock>>, at: seq<nat>, i: nat, j: nat)
    requires i < |plans| == |at| && j < |plans| && at[j] <= |plans[j]|
  {
    j != i && at[i] < |plans[i]| && plans[i][at[i]] in plans[j][..at[j]]
  }

  predicate WaitsInside(plans: seq<seq<Lock>>, at: seq<nat>, tied: set<nat>, i: nat) {
    && i < |plans| == |at| && at[i] < |plans[i]|
    && exists j :: j in tied && j < |plans| && at[j] <= |plans[j]| && WaitsFor(plans, at, i, j)
  }

  predicate CutsApart(plans: seq<seq<Lock>>, at: seq<nat>, i: nat, j: nat) {
    && i < |plans| == |at| && j < |plans| && at[i] <= |plans[i]| && at[j] <= |plans[j]|
    && Apart(plans[i], at[i], plans[j], at[j])
  }

  /**
   The plans of some transactions can be cut so that what each has taken is taken by it alone, and what each
   needs next another of them has taken.
   */
  predicate Knot(plans: seq<seq<Lock>>, at: seq<nat>, tied: set<nat>) {
    && |at| == |plans| && tied != {}
    && (forall i {:trigger WaitsInside(plans, at, tied, i)} :: i in tied ==> WaitsInside(plans, at, tied, i))
    && (forall i, j {:trigger CutsApart(plans, at, i, j)} ::
          i in tied && j in tied && i != j ==> CutsApart(plans, at, i, j))
  }

  predicate SamePlans(ts: seq<Climber>, plans: seq<seq<Lock>>) {
    |ts| == |plans| && forall i :: 0 <= i < |ts| ==> ts[i].plan == plans[i]
  }

  /** No lock is held twice. */
  predicate Exclusive(ts: seq<Climber>)
    requires WellFormed(ts)
  {
    forall i, j :: 0 <= i < |ts| && 0 <= j < |ts| && i != j && !ts[i].ended && !ts[j].ended ==>
      Apart(ts[i].plan, ts[i].taken, ts[j].plan, ts[j].taken)
  }

  lemma AdvanceKeepsExclusive(ts: seq<Climber>, i: nat)
    requires WellFormed(ts) && Exclusive(ts)
    ensures Exclusive(Advance(ts, i))
  {
    var after := Advance(ts, i);
    forall j, k | 0 <= j < |after| && 0 <= k < |after| && j != k && !after[j].ended && !after[k].ended
      ensures Apart(after[j].plan, after[j].taken, after[k].plan, after[k].taken)
    {
      assert Apart(ts[j].plan, ts[j].taken, ts[k].plan, ts[k].taken);
      if after != ts && (j == i || k == i) && ts[i].taken < |ts[i].plan| {
        var next := ts[i].plan[ts[i].taken];
        assert ts[i].plan[..ts[i].taken + 1] == ts[i].plan[..ts[i].taken] + [next];
        assert !Holds(ts[if j == i then k else j], next);
      }
    }
  }

  lemma {:induction false} ScheduleKeepsExclusive(ts: seq<Climber>, plans: seq<seq<Lock>>, schedule: seq<nat>)
    requires WellFormed(ts) && Exclusive(ts) && SamePlans(ts, plans)
    ensures Exclusive(Scheduled(ts, schedule)) && SamePlans(Scheduled(ts, schedule), plans)
    decreases |schedule|
  {
    if schedule != [] {
      AdvanceKeepsExclusive(ts, schedule[0]);
      ScheduleKeepsExclusive(Advance(ts, schedule[0]), plans, schedule[1..]);
    }
  }

  /** Transactions that are stuck form a knot, cut where each has got to. */
  lemma StuckIsKnot(ts: seq<Climber>, plans: seq<seq<Lock>>) returns (at: seq<nat>, tied: set<nat>)
    requires WellFormed(ts) && Exclusive(ts) && SamePlans(ts, plans) && Stuck(ts)
    ensures Knot(plans, at, tied)
  {
    at := seq(|ts|, i requires 0 <= i < |ts| => ts[i].taken);
    tied := set i: nat | i < |ts| && !ts[i].ended;
    forall i, j | i in tied && j in tied && i != j ensures CutsApart(plans, at, i, j) {
      assert Apart(ts[i].plan, ts[i].taken, ts[j].plan, ts[j].taken);
    }
    forall i | i in tied ensures WaitsInside(plans, at, tied, i) {
      assert !CanProceed(ts, i);
      var j :| 0 <= j < |ts| && j != i && Holds(ts[j], ts[i].plan[ts[i].taken]);
      assert j in tied && WaitsFor(plans, at, i, j);
    }
    assert tied != {} by {
      var i: nat :| i < |ts| && !ts[i].ended;
      assert i in tied;
    }
  }

  /** The transactions of a knot, below n, have climbed to their cuts; the others have not begun. */
  function Arranged(plans: seq<seq<Lock>>, at: seq<nat>, tied: set<nat>, n: nat): (ts: seq<Climber>)
    requires |at| == |plans| && forall i :: 0 <= i < |at| && i in tied ==> at[i] <= |plans[i]|
    ensures |ts| == |plans| && WellFormed(ts) && SamePlans(ts, plans)
    ensures forall i :: 0 <= i < |ts| ==> ts[i] == Climber(plans[i], if i < n && i in tied then at[i] else 0, false)
  {
    seq(|plans|, i requires 0 <= i < |plans| == |at| =>
      Climber(plans[i], if i < n && i in tied then at[i] else 0, false))
  }

  lemma KnotFits(plans: seq<seq<Lock>>, at: seq<nat>, tied: set<nat>)
    requires Knot(plans, at, tied)
    ensures |at| == |plans| && forall i :: i in tied ==> i < |plans| && at[i] < |plans[i]|
  {
    forall i | i in tied ensures i < |plans| && at[i] < |plans[i]| {
      assert WaitsInside(plans, at, tied, i);
    }
  }

  /** A transaction climbs over locks that nobody else holds. */
  lemma {:induction false} ClimbTo(ts: seq<Climber>, i: nat, x: nat) returns (schedule: seq<nat>)
    requires WellFormed(ts) && i < |ts| && !ts[i].ended && ts[i].taken <= x <= |ts[i].plan|
    requires forall j, l :: 0 <= j < |ts| && j != i && l in ts[i].plan[..x] ==> !Holds(ts[j], l)
    ensures Scheduled(ts, schedule) == ts[i := ts[i].(taken := x)]
    decreases x - ts[i].taken
  {
    if ts[i].taken == x {
      schedule := [];
    } else {
      var wanted := ts[i].plan[ts[i].taken];
      assert wanted == ts[i].plan[..x][ts[i].taken];
      assert wanted in ts[i].plan[..x];
      forall j | 0 <= j < |ts| && j != i ensures !Holds(ts[j], wanted) {}
      assert CanProceed(ts, i);
      var next := Advance(ts, i);
      forall j, l | 0 <= j < |next| && j != i && l in next[i].plan[..x] ensures !Holds(next[j], l) {
        assert next[j] == ts[j];
      }
      var rest := ClimbTo(next, i, x);
      schedule := [i] + rest;
      assert schedule[1..] == rest;
      assert next[i := next[i].(taken := x)] == ts[i := ts[i].(taken := x)];
    }
  }

  /** The next transaction of the knot climbs to its cut. */
  lemma ArrangeNext(plans: seq<seq<Lock>>, at: seq<nat>, tied: set<nat>, n: nat, ts: seq<Climber>)
    returns (schedule: seq<nat>)
    requires Knot(plans, at, tied) && n < |plans| && n in tied
    requires |at| == |plans| && forall i :: 0 <= i < |at| && i in tied ==> at[i] <= |plans[i]|
    requires ts == Arranged(plans, at, tied, n)
    ensures WellFormed(ts) && Scheduled(ts, schedule) == Arranged(plans, at, tied, n + 1)
  {
    forall j, l | 0 <= j < |ts| && j != n && l in ts[n].plan[..at[n]] ensures !Holds(ts[j], l) {
      if j < n && j in tied { assert CutsApart(plans, at, n, j); }
    }
    schedule := ClimbTo(ts, n, at[n]);
    assert ts[n := ts[n].(taken := at[n])] == Arranged(plans, at, tied, n + 1);
  }

  lemma {:induction false} Arrange(plans: seq<seq<Lock>>, at: seq<nat>, tied: set<nat>, n: nat)
    returns (schedule: seq<nat>)
    requires Knot(plans, at, tied) && n <= |plans|
    requires |at| == |plans| && forall i :: 0 <= i < |at| && i in tied ==> at[i] <= |plans[i]|
    ensures Scheduled(Start(plans), schedule) == Arranged(plans, at, tied, n)
  {
    if n == 0 {
      schedule := [];
      assert Start(plans) == Arranged(plans, at, tied, 0);
    } else {
      schedule := Arrange(plans, at, tied, n - 1);
      var ts := Arranged(plans, at, tied, n - 1);
      if n - 1 in tied {
        var climb := ArrangeNext(plans, at, tied, n - 1, ts);
        ScheduledAppend(Start(plans), schedule, climb);
        schedule := schedule + climb;
      } else {
        assert ts == Arranged(plans, at, tied, n);
      }
    }
  }

  predicate Tied(ts: seq<Climber>, plans: seq<seq<Lock>>, at: seq<nat>, tied: set<nat>) {
    && Knot(plans, at, tied) && SamePlans(ts, plans) && WellFormed(ts)
    && forall i :: 0 <= i < |ts| && i in tied ==> ts[i].taken == at[i] && !ts[i].ended
  }

  lemma TiedCannotProceed(ts: seq<Climber>, plans: seq<seq<Lock>>, at: seq<nat>, tied: set<nat>, i: nat)
    requires Tied(ts, plans, at, tied) && i in tied && i < |ts|
    ensures !CanProceed(ts, i)
  {
    assert WaitsInside(plans, at, tied, i);
    var j :| j in tied && j < |plans| && at[j] <= |plans[j]| && WaitsFor(plans, at, i, j);
    assert Holds(ts[j], ts[i].plan[ts[i].taken]);
  }

  /** A knot never comes loose. */
  lemma {:induction false} KnotStays(
    ts: seq<Climber>, plans: seq<seq<Lock>>, at: seq<nat>, tied: set<nat>, schedule: seq<nat>)
    requires Tied(ts, plans, at, tied)
    ensures Tied(Scheduled(ts, schedule), plans, at, tied)
    decreases |schedule|
  {
    if schedule != [] {
      if schedule[0] in tied && schedule[0] < |ts| { TiedCannotProceed(ts, plans, at, tied, schedule[0]); }
      KnotStays(Advance(ts, schedule[0]), plans, at, tied, schedule[1..]);
    }
  }

  lemma KnotDeadlocks(plans: seq<seq<Lock>>, at: seq<nat>, tied: set<nat>) returns (schedule: seq<nat>)
    requires Knot(plans, at, tied)
    ensures Stuck(Scheduled(Start(plans), schedule))
  {
    KnotFits(plans, at, tied);
    schedule := Arrange(plans, at, tied, |plans|);
    var ts := Arranged(plans, at, tied, |plans|);
    var rest := RunsOut(ts);
    KnotStays(ts, plans, at, tied, rest);
    ScheduledAppend(Start(plans), schedule, rest);
    schedule := schedule + rest;
    var i :| i in tied;
    assert !Scheduled(ts, rest)[i].ended;
  }

  predicate CanDeadlock(plans: seq<seq<Lock>>, schedule: seq<nat>) { Stuck(Scheduled(Start(plans), schedule)) }

  /** Any plans: some schedule from the start gets stuck exactly when the plans can be tied in a knot. */
  lemma DeadlocksExactly(plans: seq<seq<Lock>>)
    ensures (exists schedule :: CanDeadlock(plans, schedule)) <==> (exists at, tied :: Knot(plans, at, tied))
  {
    forall schedule | CanDeadlock(plans, schedule) ensures exists at, tied :: Knot(plans, at, tied) {
      ScheduleKeepsExclusive(Start(plans), plans, schedule);
      var at, tied := StuckIsKnot(Scheduled(Start(plans), schedule), plans);
    }
    forall at, tied | Knot(plans, at, tied) ensures exists schedule :: CanDeadlock(plans, schedule) {
      var schedule := KnotDeadlocks(plans, at, tied);
      assert CanDeadlock(plans, schedule);
    }
  }

  // ---- An allocation update and one other service ---------------------------------------

  /** What an update's plan looks like: its allocation, donations, its project. */
  predicate IsUpdatePlan(u: seq<Lock>, a: nat) {
    && |u| >= 2 && u[0] == Lock(Allocations, a)
    && (forall i :: 1 <= i < |u| - 1 ==> u[i].table == Donations)
    && (forall i, j :: 1 <= i < j < |u| - 1 ==> u[i].pk < u[j].pk)
    && u[|u| - 1].table == Projects
  }

  /** The other plan locks the updated allocation and one of the update's donations. */
  predicate Crosses(u: seq<Lock>, t: seq<Lock>, a: nat) {
    && Lock(Allocations, a) in t
    && exists k :: 0 <= k < |u| && u[k].table == Donations && u[k] in t
  }

  lemma UpdatePlanShape(early: Db, late: Db, op: Op, donor: nat)
    requires op.UpdateAllocation?
    ensures IsUpdatePlan(Plan(early, late, op, donor), op.a)
  {
    InOrderIncreases(Donations, {DonationOf(late, op.a), op.d}, |late.donations|);
    var ds := InOrder(Donations, {DonationOf(late, op.a), op.d}, |late.donations|);
    forall i, j | 0 <= i < j < |ds| ensures ds[i].pk < ds[j].pk {
      assert Before(ds[i], ds[j]);
    }
  }

  /** The first position of u whose lock is among the first y of t. */
  lemma {:induction false} FirstShared(u: seq<Lock>, k: nat, held: seq<Lock>) returns (x: nat)
    requires k < |u| && u[k] in held
    ensures x <= k && u[x] in held && forall l :: l in u[..x] ==> l !in held
    decreases k
  {
    x := k;
    if i: nat :| i < k && u[i] in held {
      x := FirstShared(u, i, held);
    }
  }

  /** Crossing plans can be tied: the other takes what comes before the allocation, the update what is not held. */
  lemma CrossingIsKnot(u: seq<Lock>, t: seq<Lock>, a: nat) returns (at: seq<nat>)
    requires IsUpdatePlan(u, a) && Increasing(t) && Crosses(u, t, a)
    ensures Knot([u, t], at, {0, 1})
  {
    var y: nat :| y < |t| && t[y] == Lock(Allocations, a);
    var k: nat :| k < |u| && u[k].table == Donations && u[k] in t;
    var m: nat :| m < |t| && t[m] == u[k];
    forall z | y <= z < |t| ensures t[z].table != Donations {
      if y < z { assert Before(t[y], t[z]); }
    }
    assert t[..y][m] == u[k];
    var x := FirstShared(u, k, t[..y]);
    forall z | 0 <= z < y ensures t[..y][z] != u[0] {
      assert Before(t[z], t[y]);
    }
    assert x > 0;
    at := [x, y];
    assert u[..x][0] == t[y];
    assert WaitsFor([u, t], at, 0, 1) && WaitsFor([u, t], at, 1, 0);
    assert WaitsInside([u, t], at, {0, 1}, 0) && WaitsInside([u, t], at, {0, 1}, 1);
    assert CutsApart([u, t], at, 0, 1) && CutsApart([u, t], at, 1, 0);
  }

  lemma KnotIsCrossing(u: seq<Lock>, t: seq<Lock>, a: nat, at: seq<nat>, tied: set<nat>)
    requires IsUpdatePlan(u, a) && Increasing(t) && Knot([u, t], at, tied)
    ensures Crosses(u, t, a)
  {
    var plans := [u, t];
    var i :| i in tied;
    assert WaitsInside(plans, at, tied, i);
    assert WaitsInside(plans, at, tied, 1 - i);
    var x, y := at[0], at[1];
    assert u[x] in t[..y] && t[y] in u[..x];
    var z: nat :| z < y && t[z] == u[x];
    var w: nat :| w < x && u[w] == t[y];
    assert Before(u[x], u[w]);
  }

  /**
   An allocation update and a call of any other service, whatever their reads saw, can deadlock from the start
   exactly when the other one locks the updated allocation and a donation of the update.
   */
  lemma UpdateDeadlocksExactly(update: Call, other: Call)
    requires update.op.UpdateAllocation? && !other.op.UpdateAllocation?
    ensures (exists schedule :: CanDeadlock([PlanOf(update), PlanOf(other)], schedule))
            <==> Crosses(PlanOf(update), PlanOf(other), update.op.a)
  {
    var u, t, a := PlanOf(update), PlanOf(other), update.op.a;
    UpdatePlanShape(update.early, update.late, update.op, update.donor);
    PlansIncrease(other.early, other.late, other.op, other.donor);
    DeadlocksExactly([u, t]);
    if Crosses(u, t, a) {
      var at := CrossingIsKnot(u, t, a);
    }
    forall at, tied | Knot([u, t], at, tied) ensures Crosses(u, t, a) {
      KnotIsCrossing(u, t, a, at, tied);
    }
  }

  /** In particular any update, moving the allocation or not, with an approval on the same allocation. */
  lemma UpdateAndApprovalCanDeadlock(db: Db, a: nat, d: nat, p: nat, amount: int, r: nat) returns (schedule: seq<nat>)
    requires a < |db.allocations| && db.allocations[a].donation < |db.donations|
    ensures CanDeadlock(
      [Plan(db, db, UpdateAllocation(a, d, p, amount), 0), Plan(db, db, ApproveRequest(r, a), 0)], schedule)
  {
    var k := db.allocations[a].donation;
    var update := Call(db, db, UpdateAllocation(a, d, p, amount), 0, 0, false);
    var other := Call(db, db, ApproveRequest(r, a), 0, 0, false);
    InOrderHas(Donations, {DonationOf(db, a), d}, |db.donations|, k);
    var ds := InOrder(Donations, {DonationOf(db, a), d}, |db.donations|);
    var i :| 0 <= i < |ds| && ds[i] == Lock(Donations, k);
    assert PlanOf(update)[1 + i] == Lock(Donations, k);
    assert PlanOf(other)[0] == Lock(Donations, k) && PlanOf(other)[1] == Lock(Allocations, a);
    UpdateDeadlocksExactly(update, other);
    schedule :| CanDeadlock([PlanOf(update), PlanOf(other)], schedule);
  }
}
