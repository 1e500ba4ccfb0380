/**
 * The milestone services over the stored rows. The table's constraints (distinct
 * positions, all at least 1) are a precondition of every single save, so they hold
 * at each intermediate step of a compaction or a swap.
 */
module MilestoneService {
  import opened Wrappers
  import opened MilestoneRules

  datatype Milestone = Milestone(position: nat, completed: bool)

  datatype Answer = Changed | NoChange | Refused

  datatype ProgressStatus = Undefined | InProgress | Completed

  datatype Progress = Progress(total: nat, completed: nat, percentage: Option<nat>,
                               status: ProgressStatus, isCompleted: bool)

  // ---- Progress ----

  function CountTrue(flags: seq<bool>): (n: nat)
    ensures n <= |flags|
    ensures n == |flags| <==> forall i :: 0 <= i < |flags| ==> flags[i]
  {
    if flags == [] then 0 else CountTrue(flags[..|flags| - 1]) + if flags[|flags| - 1] then 1 else 0
  }

  /** (100 * completed + total // 2) // total */
  function Percentage(completed: nat, total: nat): nat
    requires total > 0
  {
    (100 * completed + total / 2) / total
  }

  lemma Quotient(x: nat, d: nat)
    requires d > 0
    ensures (x / d) * d <= x < (x / d) * d + d
  {
  }

  lemma OddIsNotTwice(total: nat, half: int)
    ensures total % 2 == 1 ==> total != 2 * half
  {
  }

  /** The percentage is the nearest integer, halves rounded up. */
  lemma PercentageIsNearest(completed: nat, total: nat)
    requires 0 < total
    ensures (2 * Percentage(completed, total) - 1) * total <= 200 * completed
    ensures 200 * completed < (2 * Percentage(completed, total) + 1) * total
  {
    var x := 100 * completed + total / 2;
    var p := x / total;
    Quotient(x, total);
    assert (2 * p - 1) * total == 2 * (p * total) - total;
    assert (2 * p + 1) * total == 2 * (p * total) + total;
    OddIsNotTwice(total, 100 * completed - p * total);
  }

  /** A project reads "100 %" exactly when at most one half percent of its milestones is pending. */
  lemma ReadsHundredExactly(completed: nat, total: nat)
    requires 0 < total && completed <= total
    ensures Percentage(completed, total) == 100 <==> 200 * (total - completed) <= total
  {
    var p := Percentage(completed, total);
    PercentageIsNearest(completed, total);
    assert (2 * p - 1) * total == 2 * (p * total) - total;
    assert (2 * p + 1) * total == 2 * (p * total) + total;
    if p <= 99 {
      Product(p, 99, total);
    } else if p >= 101 {
      Product(101, p, total);
    }
  }

  lemma Product(p: nat, q: nat, total: nat)
    requires p <= q
    ensures p * total <= q * total
  {
  }

  /** So the rounded percentage tells completion apart exactly for projects under 200 milestones. */
  lemma HundredMeansCompletedExactly(total: nat)
    requires 0 < total
    ensures (forall completed: nat :: completed <= total ==>
              (Percentage(completed, total) == 100 <==> completed == total))
            <==> total < 200
  {
    forall completed: nat | completed <= total && total < 200
      ensures Percentage(completed, total) == 100 <==> completed == total
    {
      ReadsHundredExactly(completed, total);
    }
    if total >= 200 {
      ReadsHundredExactly(total - 1, total);
      assert Percentage(total - 1, total) == 100;
    }
  }

  method GetMilestoneProgress(flags: seq<bool>) returns (progress: Progress)
    ensures progress.total == |flags| && progress.completed == CountTrue(flags)
    ensures progress.isCompleted <==> flags != [] && forall i :: 0 <= i < |flags| ==> flags[i]
    ensures progress.percentage == if flags == [] then None else Some(Percentage(CountTrue(flags), |flags|))
    ensures progress.status == if flags == [] then Undefined
                               else if progress.isCompleted then Completed else InProgress
  {
    var total, completed := 0, 0;
    for i := 0 to |flags|
      invariant total == i && completed == CountTrue(flags[..i])
    {
      assert flags[..i + 1][..i] == flags[..i];
      total := total + 1;
      completed := completed + if flags[i] then 1 else 0;
    }
    assert flags[..|flags|] == flags;
    if total == 0 {
      return Progress(0, 0, None, Undefined, false);
    }
    var all := completed == total;
    progress := Progress(total, completed, Some(Percentage(completed, total)),
                         if all then Completed else InProgress, all);
  }

  // ---- Listings ----

  /** No other row has the position of row a. */
  predicate Alone(rows: map<nat, Milestone>, a: nat)
    requires a in rows
  {
    forall b :: b in rows && b != a ==> rows[b].position != rows[a].position
  }

  /** The table's constraints: positions start at 1 and are distinct. */
  predicate Constraints(rows: map<nat, Milestone>) {
    forall a {:trigger Alone(rows, a)} :: a in rows ==> rows[a].position >= 1 && Alone(rows, a)
  }

  ghost predicate SameMembers(list: seq<nat>, keys: set<nat>) {
    forall pk :: pk in list <==> pk in keys
  }

  /** `list` holds the primary keys of the rows in `keys`, by position. */
  ghost predicate IsListing(list: seq<nat>, keys: set<nat>, rows: map<nat, Milestone>) {
    && keys <= rows.Keys
    && SameMembers(list, keys)
    && (forall i, j {:trigger Precedes(list, rows, i, j)} :: 0 <= i < j < |list| ==> Precedes(list, rows, i, j))
  }

  predicate Precedes(list: seq<nat>, rows: map<nat, Milestone>, i: int, j: int) {
    && 0 <= i < j < |list| && list[i] in rows && list[j] in rows
    && rows[list[i]].position < rows[list[j]].position
  }

  lemma {:induction false} ListingIsUnique(xs: seq<nat>, ys: seq<nat>, keys: set<nat>, rows: map<nat, Milestone>)
    requires IsListing(xs, keys, rows) && IsListing(ys, keys, rows)
    ensures xs == ys
    decreases |xs|
  {
    if xs == [] {
      assert forall pk :: pk !in xs && pk !in keys && pk !in ys;
    } else {
      assert xs[0] in keys;
      assert xs[0] in ys && ys[0] in xs;
      FirstIsLeast(xs, keys, rows);
      FirstIsLeast(ys, keys, rows);
      Tail(xs, keys, rows);
      Tail(ys, keys, rows);
      ListingIsUnique(xs[1..], ys[1..], keys - {xs[0]}, rows);
      assert xs == [xs[0]] + xs[1..] && ys == [ys[0]] + ys[1..];
    }
  }

  lemma FirstIsLeast(xs: seq<nat>, keys: set<nat>, rows: map<nat, Milestone>)
    requires IsListing(xs, keys, rows) && xs != []
    ensures forall pk :: pk in keys && pk != xs[0] ==> rows[xs[0]].position < rows[pk].position
  {
    forall pk | pk in keys && pk != xs[0] ensures rows[xs[0]].position < rows[pk].position {
      var i :| 0 <= i < |xs| && xs[i] == pk;
      assert Precedes(xs, rows, 0, i);
    }
  }

  lemma Tail(xs: seq<nat>, keys: set<nat>, rows: map<nat, Milestone>)
    requires IsListing(xs, keys, rows) && xs != []
    ensures IsListing(xs[1..], keys - {xs[0]}, rows)
  {
    forall pk | pk in keys - {xs[0]} ensures pk in xs[1..] {
      var i :| 0 <= i < |xs| && xs[i] == pk;
      assert xs[1..][i - 1] == pk;
    }
    assert xs[0] !in xs[1..] by {
      forall i | 0 < i < |xs| ensures xs[i] != xs[0] { assert Precedes(xs, rows, 0, i); }
    }
    forall i, j | 0 <= i < j < |xs| - 1 ensures Precedes(xs[1..], rows, i, j) {
      assert Precedes(xs, rows, i + 1, j + 1);
    }
  }

  lemma {:induction false} FirstExists(keys: set<nat>, rows: map<nat, Milestone>) returns (first: nat)
    requires keys != {} && keys <= rows.Keys
    ensures first in keys && forall pk :: pk in keys ==> rows[first].position <= rows[pk].position
  {
    var x :| x in keys;
    if keys == {x} {
      first := x;
    } else {
      var other := FirstExists(keys - {x}, rows);
      first := if rows[x].position < rows[other].position then x else other;
    }
  }

  /** Positions are exactly 1..N along the listing. */
  predicate Consecutive(list: seq<nat>, rows: map<nat, Milestone>)
    requires forall i :: 0 <= i < |list| ==> list[i] in rows
  {
    forall i :: 0 <= i < |list| ==> rows[list[i]].position == i + 1
  }

  function DoneOf(rows: map<nat, Milestone>): set<nat> {
    set pk | pk in rows && rows[pk].completed
  }

  /** Rows numbered 1..N along a list of all of them satisfy the constraints and are listed by it. */
  lemma NumberedRows(list: seq<nat>, rows: map<nat, Milestone>)
    requires SameMembers(list, rows.Keys) && Consecutive(list, rows)
    ensures Constraints(rows) && IsListing(list, rows.Keys, rows) && NoDuplicates(list)
    ensures forall pk :: pk in rows ==> rows[pk].position <= |list|
  {
    forall a, b | a in rows && b in rows && a != b ensures rows[a].position != rows[b].position {
      assert a in list && b in list;
      var i, j :| 0 <= i < |list| && 0 <= j < |list| && list[i] == a && list[j] == b;
    }
    forall a | a in rows ensures 1 <= rows[a].position <= |list| {
      assert a in list;
      var i :| 0 <= i < |list| && list[i] == a;
    }
  }

  lemma ListingExtended(list: seq<nat>, rest: set<nat>, rows: map<nat, Milestone>, pk: nat)
    requires Constraints(rows) && rest <= rows.Keys && IsListing(list, rows.Keys - rest, rows)
    requires forall a, b :: a in list && b in rest ==> rows[a].position < rows[b].position
    requires pk in rest && forall q :: q in rest ==> rows[pk].position <= rows[q].position
    ensures IsListing(list + [pk], rows.Keys - (rest - {pk}), rows)
    ensures forall a, b :: a in list + [pk] && b in rest - {pk} ==> rows[a].position < rows[b].position
  {
    assert Alone(rows, pk);
    var longer := list + [pk];
    forall q ensures q in longer <==> q in rows.Keys - (rest - {pk}) {
      assert q in longer <==> q in list || q == pk;
      assert q in list <==> q in rows.Keys - rest;
    }
    forall i, j | 0 <= i < j < |longer| ensures Precedes(longer, rows, i, j) {
      assert longer[i] in list;
      if j < |list| { assert Precedes(list, rows, i, j); }
    }
  }

  /** Appending a pending row at N + 1. */
  lemma RowCreated(list: seq<nat>, rows: map<nat, Milestone>, pk: nat)
    requires SameMembers(list, rows.Keys) && Consecutive(list, rows) && pk !in rows
    ensures var rows' := rows[pk := Milestone(|list| + 1, false)];
            && SameMembers(list + [pk], rows'.Keys)
            && Consecutive(list + [pk], rows')
            && DoneOf(rows') == DoneOf(rows) - {pk}
  {
  }

  lemma RowFlipped(list: seq<nat>, rows: map<nat, Milestone>, pk: nat, completed: bool)
    requires Constraints(rows) && IsListing(list, rows.Keys, rows) && pk in rows
    ensures var rows' := rows[pk := rows[pk].(completed := completed)];
            && Constraints(rows') && IsListing(list, rows'.Keys, rows')
            && (Consecutive(list, rows) ==> Consecutive(list, rows'))
            && DoneOf(rows') == if completed then DoneOf(rows) + {pk} else DoneOf(rows) - {pk}
  {
    var rows' := rows[pk := rows[pk].(completed := completed)];
    forall i, j | 0 <= i < j < |list| ensures Precedes(list, rows', i, j) {
      assert Precedes(list, rows, i, j);
    }
    forall a | a in rows' ensures rows'[a].position >= 1 && Alone(rows', a) {
      assert Alone(rows, a);
    }
  }

  lemma RowMoved(rows: map<nat, Milestone>, pk: nat, position: nat)
    requires Constraints(rows) && pk in rows && position >= 1
    requires forall q :: q in rows && q != pk ==> rows[q].position != position
    ensures var rows' := rows[pk := rows[pk].(position := position)];
            Constraints(rows') && DoneOf(rows') == DoneOf(rows)
  {
    var rows' := rows[pk := rows[pk].(position := position)];
    forall a | a in rows' ensures rows'[a].position >= 1 && Alone(rows', a) {
      assert Alone(rows, a);
    }
  }

  lemma RowDeleted(list: seq<nat>, rows: map<nat, Milestone>, at: nat)
    requires SameMembers(list, rows.Keys) && Consecutive(list, rows) && at < |list|
    ensures var remaining, rows' := RemovedAt(list, at), rows - {list[at]};
            && NoDuplicates(remaining)
            && Constraints(rows')
            && SameMembers(remaining, rows'.Keys)
            && Shifted(remaining, rows', at)
            && DoneOf(rows') == DoneOf(rows) - {list[at]}
  {
    NumberedRows(list, rows);
    RemovedMembers(list, at);
    var remaining, rows' := RemovedAt(list, at), rows - {list[at]};
    forall a | a in rows' ensures rows'[a].position >= 1 && Alone(rows', a) {
      assert Alone(rows, a);
    }
  }

  /** Positions 1..N along the list but for a gap after the first `at`. */
  predicate Shifted(list: seq<nat>, rows: map<nat, Milestone>, at: nat) {
    forall k :: 0 <= k < |list| ==> list[k] in rows && rows[list[k]].position == if k < at then k + 1 else k + 2
  }

  /** After the first `done` rows were renumbered. */
  predicate Renumbered(list: seq<nat>, rows: map<nat, Milestone>, at: nat, done: nat) {
    forall k :: 0 <= k < |list| ==>
      list[k] in rows && rows[list[k]].position == if k < at || k < done then k + 1 else k + 2
  }

  lemma PositionIsFree(list: seq<nat>, rows: map<nat, Milestone>, at: nat, i: nat)
    requires NoDuplicates(list) && SameMembers(list, rows.Keys) && Renumbered(list, rows, at, i) && i < |list|
    ensures forall q :: q in rows && q != list[i] ==> rows[q].position != i + 1
  {
    forall q | q in rows && q != list[i] ensures rows[q].position != i + 1 {
      assert q in list;
      var k :| 0 <= k < |list| && list[k] == q;
    }
  }

  class ProjectMilestones {
    var closed: bool
    var rows: map<nat, Milestone>
    var crossings: seq<Crossing>
    ghost var order: seq<nat>

    ghost predicate Valid()
      reads this
    {
      Constraints(rows) && IsListing(order, rows.Keys, rows)
    }

    /** As these services leave it: positions are exactly 1..N. */
    ghost predicate Managed()
      reads this
    {
      Valid() && Consecutive(order, rows)
    }

    ghost function View(): Board
      reads this
    {
      Board(closed, order, DoneOf(rows), crossings)
    }

    constructor ()
      ensures Managed() && View() == NEW
    {
      closed, rows, crossings, order := false, map[], [], [];
      new;
      assert DoneOf(rows) == {};
    }

    method Close()
      requires Valid()
      modifies this
      ensures View() == Step(old(View()), Op.Close) && rows == old(rows) && Valid()
    {
      closed := true;
    }

    /** The rows locked in position order. */
    method LockMilestones() returns (list: seq<nat>)
      requires Valid()
      ensures list == order
    {
      list := [];
      var rest := rows.Keys;
      while rest != {}
        invariant rest <= rows.Keys
        invariant IsListing(list, rows.Keys - rest, rows)
        invariant forall a, b :: a in list && b in rest ==> rows[a].position < rows[b].position
        decreases |rest|
      {
        ghost var first := FirstExists(rest, rows);
        assert first in rest && forall q :: q in rest ==> rows[first].position <= rows[q].position;
        var pk :| pk in rest && forall q :: q in rest ==> rows[pk].position <= rows[q].position;
        ListingExtended(list, rest, rows, pk);
        list := list + [pk];
        rest := rest - {pk};
      }
      assert rows.Keys - rest == rows.Keys;
      ListingIsUnique(list, order, rows.Keys, rows);
    }

    method CheckConsecutive(list: seq<nat>) returns (ok: bool)
      requires forall i :: 0 <= i < |list| ==> list[i] in rows
      ensures ok <==> Consecutive(list, rows)
    {
      for i := 0 to |list|
        invariant forall k :: 0 <= k < i ==> rows[list[k]].position == k + 1
      {
        if rows[list[i]].position != i + 1 {
          return false;
        }
      }
      ok := true;
    }

    method ProgressOf(list: seq<nat>) returns (completed: bool)
      requires forall i :: 0 <= i < |list| ==> list[i] in rows
      ensures completed == AllDone(list, DoneOf(rows))
    {
      var flags := seq(|list|, i requires 0 <= i < |list| && list[i] in rows reads this => rows[list[i]].completed);
      var progress := GetMilestoneProgress(flags);
      completed := progress.isCompleted;
      assert forall i :: 0 <= i < |list| ==> (flags[i] <==> list[i] in DoneOf(rows));
    }

    method AuditCrossing(before: bool, after: bool)
      modifies this`crossings
      ensures crossings == old(crossings) + (if before == after then [] else if after then [Reached] else [Left])
    {
      if before == after {
        return;
      }
      crossings := crossings + [if after then Reached else Left];
    }

    /** One UPDATE of one position. The constraints are checked on every statement. */
    method SavePosition(pk: nat, position: nat)
      requires Constraints(rows) && pk in rows && position >= 1
      requires forall q :: q in rows && q != pk ==> rows[q].position != position
      modifies this`rows
      ensures Constraints(rows) && rows == old(rows)[pk := old(rows)[pk].(position := position)]
      ensures DoneOf(rows) == DoneOf(old(rows))
    {
      RowMoved(rows, pk, position);
      rows := rows[pk := rows[pk].(position := position)];
    }

    method CreateMilestone(pk: nat) returns (answer: Answer)
      requires Valid() && pk !in rows
      modifies this
      ensures answer == if old(closed || !Managed()) then Refused else Changed
      ensures answer == Refused ==> unchanged(this)
      ensures answer == Changed ==> Managed() && View() == Step(old(View()), Create(pk))
    {
      if closed {
        return Refused;
      }
      var list := LockMilestones();
      var ok := CheckConsecutive(list);
      if !ok {
        return Refused;
      }
      var before := ProgressOf(list);
      RowCreated(list, rows, pk);
      rows := rows[pk := Milestone(|list| + 1, false)];
      order := order + [pk];
      NumberedRows(order, rows);
      var after := ProgressOf(list + [pk]);
      AuditCrossing(before, after);
      answer := Changed;
    }

    /** Completing or reopening: `completed` is the value to set. */
    method SetCompleted(pk: nat, completed: bool) returns (answer: Answer)
      requires Valid()
      modifies this
      ensures answer == if old(closed) || pk !in old(rows) then Refused
                        else if old(rows)[pk].completed == completed then NoChange else Changed
      ensures answer != Changed ==> unchanged(this)
      ensures Valid() && (old(Managed()) ==> Managed())
      ensures View() == Step(old(View()), if completed then Complete(pk) else Reopen(pk))
    {
      if pk !in rows || closed {
        return Refused;
      }
      var list := LockMilestones();
      if rows[pk].completed == completed {
        assert DoneOf(rows) + {pk} == DoneOf(rows) || DoneOf(rows) - {pk} == DoneOf(rows);
        return NoChange;
      }
      var before := ProgressOf(list);
      RowFlipped(list, rows, pk, completed);
      rows := rows[pk := rows[pk].(completed := completed)];
      var after := ProgressOf(list);
      AuditCrossing(before, after);
      answer := Changed;
    }

    method DeleteMilestone(pk: nat) returns (answer: Answer)
      requires Valid()
      modifies this
      ensures answer == if old(closed || !Managed()) || pk !in old(rows) then Refused else Changed
      ensures answer == Refused ==> unchanged(this)
      ensures answer == Changed ==> Managed() && View() == Step(old(View()), Delete(pk))
    {
      if pk !in rows || closed {
        return Refused;
      }
      var list := LockMilestones();
      var ok := CheckConsecutive(list);
      if !ok {
        return Refused;
      }
      NumberedRows(list, rows);
      var at := IndexOf(list, pk);
      RemoveAt(list, at);
      answer := Changed;
    }

    /** The deletion itself: drop the row, close the gap, audit a crossing. */
    method RemoveAt(list: seq<nat>, at: nat)
      requires SameMembers(list, rows.Keys) && Consecutive(list, rows) && list == order && at < |list|
      modifies this
      ensures Managed() && View() == Audited(old(View()), RemovedAt(list, at), old(DoneOf(rows)) - {list[at]})
    {
      var before := ProgressOf(list);
      var remaining := DropRow(list, at);
      var after := ProgressOf(remaining);
      AuditCrossing(before, after);
    }

    /** Deletes the row and renumbers what remains. */
    method DropRow(list: seq<nat>, at: nat) returns (remaining: seq<nat>)
      requires SameMembers(list, rows.Keys) && Consecutive(list, rows) && at < |list|
      modifies this`rows, this`order
      ensures Managed() && order == remaining == RemovedAt(list, at)
      ensures DoneOf(rows) == old(DoneOf(rows)) - {list[at]}
    {
      remaining := list[..at] + list[at + 1..];
      RowDeleted(list, rows, at);
      rows := rows - {list[at]};
      Compact(remaining, at);
      NumberedRows(remaining, rows);
      order := remaining;
    }

    /** Renumbers the remaining rows in place, one save at a time. */
    method Compact(remaining: seq<nat>, at: nat)
      requires Constraints(rows) && NoDuplicates(remaining) && SameMembers(remaining, rows.Keys)
      requires Shifted(remaining, rows, at)
      modifies this`rows
      ensures rows.Keys == old(rows).Keys && DoneOf(rows) == DoneOf(old(rows))
      ensures forall k :: 0 <= k < |remaining| ==> remaining[k] in rows
      ensures Consecutive(remaining, rows)
    {
      for i := 0 to |remaining|
        invariant Constraints(rows) && rows.Keys == old(rows).Keys && DoneOf(rows) == DoneOf(old(rows))
        invariant Renumbered(remaining, rows, at, i)
      {
        var pk := remaining[i];
        if rows[pk].position == i + 1 {
          continue;
        }
        PositionIsFree(remaining, rows, at, i);
        SavePosition(pk, i + 1);
      }
    }

    /** Swaps with the neighbour through the free position N + 1. */
    method MoveMilestone(pk: nat, direction: Direction) returns (answer: Answer)
      requires Valid()
      modifies this
      ensures answer == Refused <==> old(closed || !Managed()) || pk !in old(rows)
      ensures answer != Changed ==> unchanged(this)
      ensures answer != Refused ==> Managed() && View() == Step(old(View()), Move(pk, direction))
      ensures answer == Changed ==> order != old(order)
    {
      if pk !in rows || closed {
        return Refused;
      }
      var list := LockMilestones();
      var ok := CheckConsecutive(list);
      if !ok {
        return Refused;
      }
      NumberedRows(list, rows);
      var current: int := IndexOf(list, pk);
      var destination := if direction == Up then current - 1 else current + 1;
      MoveIsRealExactly(list, pk, direction);
      if destination < 0 || destination >= |list| {
        return NoChange;
      }
      SwapThroughFreePosition(list, current, destination);
      answer := Changed;
    }

    /** The three saves of a swap. */
    method SwapThroughFreePosition(list: seq<nat>, current: nat, destination: nat)
      requires Managed() && list == order && current < |list| && destination < |list| && current != destination
      modifies this
      ensures Managed() && closed == old(closed) && crossings == old(crossings)
      ensures order == SwappedAt(list, current, destination) && DoneOf(rows) == old(DoneOf(rows))
    {
      ghost var was := rows;
      var pk, adjacent := list[current], list[destination];
      var originalPosition := rows[pk].position;
      var destinationPosition := rows[adjacent].position;
      SwapSaves(list, rows, current, destination);
      SavePosition(pk, |list| + 1);
      SavePosition(adjacent, originalPosition);
      SavePosition(pk, destinationPosition);
      ghost var moved := was[pk := was[pk].(position := destination + 1)];
      assert rows == moved[adjacent := was[adjacent].(position := current + 1)];
      order := SwappedAt(list, current, destination);
    }
  }

  lemma EndIsFree(list: seq<nat>, rows: map<nat, Milestone>)
    requires SameMembers(list, rows.Keys) && Consecutive(list, rows)
    ensures forall pk :: pk in rows ==> rows[pk].position <= |list|
  {
    NumberedRows(list, rows);
  }

  /** Only list[i] has position i + 1. */
  lemma FreePosition(list: seq<nat>, rows: map<nat, Milestone>, i: nat)
    requires SameMembers(list, rows.Keys) && Consecutive(list, rows) && i < |list|
    ensures forall q :: q in rows && q != list[i] ==> rows[q].position != i + 1
  {
    forall q | q in rows && q != list[i] ensures rows[q].position != i + 1 {
      assert q in list;
      var k :| 0 <= k < |list| && list[k] == q;
    }
  }

  /** Each save of the swap goes to a free position, and together they list the swapped order. */
  lemma SwapSaves(list: seq<nat>, rows: map<nat, Milestone>, i: nat, j: nat)
    requires SameMembers(list, rows.Keys) && Consecutive(list, rows)
    requires i < |list| && j < |list| && i != j
    ensures list[i] in rows && list[j] in rows && list[i] != list[j]
    ensures forall q :: q in rows ==> rows[q].position != |list| + 1
    ensures forall q :: q in rows && q != list[i] ==> rows[q].position != i + 1
    ensures forall q :: q in rows && q != list[j] ==> rows[q].position != j + 1
    ensures var moved := rows[list[i] := rows[list[i]].(position := j + 1)];
            var rows' := moved[list[j] := rows[list[j]].(position := i + 1)];
            var swapped := SwappedAt(list, i, j);
            && (forall k :: 0 <= k < |swapped| ==> swapped[k] in rows')
            && Consecutive(swapped, rows') && Constraints(rows') && IsListing(swapped, rows'.Keys, rows')
  {
    NumberedRows(list, rows);
    EndIsFree(list, rows);
    FreePosition(list, rows, i);
    FreePosition(list, rows, j);
    SwappedMembers(list, i, j);
    var rows' := rows[list[i] := rows[list[i]].(position := j + 1)][list[j] := rows[list[j]].(position := i + 1)];
    SwapListing(list, rows, rows', i, j);
    NumberedRows(SwappedAt(list, i, j), rows');
  }

  lemma SwapListing(list: seq<nat>, was: map<nat, Milestone>, now: map<nat, Milestone>, i: nat, j: nat)
    requires i < |list| && j < |list| && i != j && NoDuplicates(list)
    requires (forall pk :: pk in list <==> pk in was) && Consecutive(list, was)
    requires now == was[list[i] := was[list[i]].(position := j + 1)][list[j] := was[list[j]].(position := i + 1)]
    ensures var swapped := SwappedAt(list, i, j);
            (forall k :: 0 <= k < |swapped| ==> swapped[k] in now) && Consecutive(swapped, now)
  {
    var swapped := SwappedAt(list, i, j);
    forall k | 0 <= k < |swapped| ensures swapped[k] in now && now[swapped[k]].position == k + 1 {
      if k != i && k != j { assert swapped[k] == list[k]; }
    }
  }
}
