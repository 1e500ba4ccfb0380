/** What the milestone services promise, on values: order, completion and the 100 % audit. */
module MilestoneRules {

  /** The milestones of one project in position order, those completed, and the crossings audited. */
  datatype Board = Board(closed: bool, order: seq<nat>, done: set<nat>, crossings: seq<Crossing>)

  datatype Crossing = Reached | Left

  datatype Direction = Up | Down

  datatype Op =
    | Create(pk: nat)
    | Complete(pk: nat)
    | Reopen(pk: nat)
    | Delete(pk: nat)
    | Move(pk: nat, direction: Direction)
    | Close

  const NEW := Board(false, [], {}, [])

  predicate NoDuplicates(s: seq<nat>) {
    forall i, j :: 0 <= i < j < |s| ==> s[i] != s[j]
  }

  /** Derived completion: there is a milestone and none is pending. */
  predicate AllDone(order: seq<nat>, done: set<nat>) {
    order != [] && forall i :: 0 <= i < |order| ==> order[i] in done
  }

  function IndexOf(s: seq<nat>, x: nat): (i: nat)
    requires x in s
    ensures i < |s| && s[i] == x && x !in s[..i]
  {
    if s[0] == x then 0 else
      assert s == [s[0]] + s[1..];
      1 + IndexOf(s[1..], x)
  }

  function RemovedAt(s: seq<nat>, i: nat): seq<nat>
    requires i < |s|
  {
    s[..i] + s[i + 1..]
  }

  function SwappedAt(s: seq<nat>, i: nat, j: nat): seq<nat>
    requires i < |s| && j < |s|
  {
    s[i := s[j]][j := s[i]]
  }

  /** At the boundary a move changes nothing. */
  function Moved(s: seq<nat>, pk: nat, direction: Direction): seq<nat>
    requires pk in s
  {
    var i := IndexOf(s, pk);
    match direction
    case Up => if i == 0 then s else SwappedAt(s, i, i - 1)
    case Down => if i == |s| - 1 then s else SwappedAt(s, i, i + 1)
  }

  /** One event when derived completion changes, none otherwise. */
  function Audited(b: Board, order: seq<nat>, done: set<nat>): Board {
    var before, after := AllDone(b.order, b.done), AllDone(order, done);
    var event := if before == after then [] else if after then [Reached] else [Left];
    b.(order := order, done := done, crossings := b.crossings + event)
  }

  function Step(b: Board, op: Op): Board {
    match op
    case Close => b.(closed := true)
    case Create(pk) =>
      if b.closed || pk in b.order then b else Audited(b, b.order + [pk], b.done - {pk})
    case Complete(pk) =>
      if b.closed || pk !in b.order then b else Audited(b, b.order, b.done + {pk})
    case Reopen(pk) =>
      if b.closed || pk !in b.order then b else Audited(b, b.order, b.done - {pk})
    case Delete(pk) =>
      if b.closed || pk !in b.order then b
      else Audited(b, RemovedAt(b.order, IndexOf(b.order, pk)), b.done - {pk})
    case Move(pk, direction) =>
      if b.closed || pk !in b.order then b else b.(order := Moved(b.order, pk, direction))
  }

  function Run(b: Board, ops: seq<Op>): Board
    decreases |ops|
  {
    if ops == [] then b else Step(Run(b, ops[..|ops| - 1]), ops[|ops| - 1])
  }

  // ---- Order ----

  lemma RemovedMembers(s: seq<nat>, i: nat)
    requires NoDuplicates(s) && i < |s|
    ensures NoDuplicates(RemovedAt(s, i))
    ensures forall x :: x in RemovedAt(s, i) <==> x in s && x != s[i]
  {
    var t := RemovedAt(s, i);
    forall x | x in s && x != s[i] ensures x in t {
      var k :| 0 <= k < |s| && s[k] == x;
      assert t[if k < i then k else k - 1] == x;
    }
  }

  lemma SwappedMembers(s: seq<nat>, i: nat, j: nat)
    requires NoDuplicates(s) && i < |s| && j < |s|
    ensures NoDuplicates(SwappedAt(s, i, j))
    ensures forall x :: x in SwappedAt(s, i, j) <==> x in s
  {
    var t := SwappedAt(s, i, j);
    forall x | x in s ensures x in t {
      var k :| 0 <= k < |s| && s[k] == x;
      assert t[if k == i then j else if k == j then i else k] == x;
    }
  }

  lemma IndexIsUnique(s: seq<nat>, x: nat, i: nat)
    requires NoDuplicates(s) && i < |s| && s[i] == x
    ensures IndexOf(s, x) == i
  {
  }

  /** Does x come before y? */
  predicate Before(s: seq<nat>, x: nat, y: nat) {
    x in s && y in s && IndexOf(s, x) < IndexOf(s, y)
  }

  /** Deleting a milestone keeps the relative order of all the others. */
  lemma DeleteKeepsRelativeOrder(s: seq<nat>, pk: nat, x: nat, y: nat)
    requires NoDuplicates(s) && pk in s && x != pk && y != pk
    ensures Before(RemovedAt(s, IndexOf(s, pk)), x, y) <==> Before(s, x, y)
  {
    var i := IndexOf(s, pk);
    RemovedMembers(s, i);
    if x in s && y in s {
      IndexAfterRemoval(s, i, x);
      IndexAfterRemoval(s, i, y);
    }
  }

  lemma IndexAfterRemoval(s: seq<nat>, i: nat, x: nat)
    requires NoDuplicates(s) && i < |s| && x in s && x != s[i]
    ensures var k := IndexOf(s, x);
            x in RemovedAt(s, i) && IndexOf(RemovedAt(s, i), x) == if k < i then k else k - 1
  {
    RemovedMembers(s, i);
    var k := IndexOf(s, x);
    IndexIsUnique(RemovedAt(s, i), x, if k < i then k else k - 1);
  }

  /** A real move up followed by a move down of the same milestone restores the list, and conversely. */
  lemma MoveAndBack(s: seq<nat>, pk: nat, direction: Direction)
    requires NoDuplicates(s) && pk in s && Moved(s, pk, direction) != s
    ensures var t := Moved(s, pk, direction);
            pk in t && Moved(t, pk, if direction == Up then Down else Up) == s
  {
    var i: int := IndexOf(s, pk);
    var j := if direction == Up then i - 1 else i + 1;
    SwappedMembers(s, i, j);
    var t := SwappedAt(s, i, j);
    assert t[j] == pk;
    IndexIsUnique(t, pk, j);
    assert SwappedAt(t, j, i) == s;
  }

  /** A move changes nothing exactly at the boundary of its direction. */
  lemma MoveIsRealExactly(s: seq<nat>, pk: nat, direction: Direction)
    requires NoDuplicates(s) && pk in s
    ensures Moved(s, pk, direction) == s <==> IndexOf(s, pk) == (if direction == Up then 0 else |s| - 1)
  {
    var i: int := IndexOf(s, pk);
    var j := if direction == Up then i - 1 else i + 1;
    if 0 <= j < |s| {
      assert SwappedAt(s, i, j)[i] == s[j];
    }
  }

  // ---- What each call does ----

  /** A new milestone comes after all others, and is pending. */
  lemma CreatedIsLast(b: Board, pk: nat, x: nat)
    requires !b.closed && NoDuplicates(b.order) && pk !in b.order
    ensures var b' := Step(b, Create(pk));
            && pk in b'.order && pk !in b'.done && |b'.order| == |b.order| + 1
            && (x in b.order ==> Before(b'.order, x, pk))
            && (x != pk ==> (x in b'.order <==> x in b.order) && (x in b'.done <==> x in b.done))
  {
    var t := b.order + [pk];
    IndexIsUnique(t, pk, |b.order|);
    if x in b.order { IndexIsUnique(t, x, IndexOf(b.order, x)); }
  }

  /** Completing makes it done, reopening makes it pending, neither touches the order or another milestone. */
  lemma CompletionIsItsOwn(b: Board, pk: nat, x: nat)
    requires !b.closed && pk in b.order
    ensures pk in Step(b, Complete(pk)).done && pk !in Step(b, Reopen(pk)).done
    ensures Step(b, Complete(pk)).order == Step(b, Reopen(pk)).order == b.order
    ensures x != pk ==> (x in Step(b, Complete(pk)).done <==> x in b.done)
    ensures x != pk ==> (x in Step(b, Reopen(pk)).done <==> x in b.done)
  {
  }

  /** A deleted milestone is gone, the others stay, in the order they had and as complete as they were. */
  lemma DeletedIsGone(b: Board, pk: nat, x: nat, y: nat)
    requires !b.closed && NoDuplicates(b.order) && pk in b.order && x != pk && y != pk
    ensures var b' := Step(b, Delete(pk));
            && pk !in b'.order && pk !in b'.done
            && (x in b'.order <==> x in b.order) && (x in b'.done <==> x in b.done)
            && (Before(b'.order, x, y) <==> Before(b.order, x, y))
  {
    RemovedMembers(b.order, IndexOf(b.order, pk));
    DeleteKeepsRelativeOrder(b.order, pk, x, y);
  }

  /** A move exchanges a milestone with its neighbour in that direction; completion stays. */
  lemma MovePassesNeighbour(b: Board, pk: nat, direction: Direction)
    requires !b.closed && NoDuplicates(b.order) && pk in b.order
    ensures var b', i := Step(b, Move(pk, direction)), IndexOf(b.order, pk);
            && b'.done == b.done && b'.crossings == b.crossings
            && (direction == Up && i > 0 ==> b'.order[i - 1] == pk && b'.order[i] == b.order[i - 1])
            && (direction == Down && i < |b.order| - 1 ==> b'.order[i + 1] == pk && b'.order[i] == b.order[i + 1])
            && |b'.order| == |b.order|
            && forall k :: 0 <= k < i - 1 || i + 1 < k < |b.order| ==> b'.order[k] == b.order[k]
  {
  }

  /** On a closed project nothing changes any more. */
  lemma {:induction false} ClosedIsFrozen(b: Board, ops: seq<Op>)
    requires b.closed
    ensures Run(b, ops) == b
    decreases |ops|
  {
    if ops != [] { ClosedIsFrozen(b, ops[..|ops| - 1]); }
  }

  // ---- Runs ----

  /** Events alternate, starting with Reached, and the last one agrees with derived completion. */
  ghost predicate AuditAgrees(b: Board) {
    && (forall k :: 0 <= k < |b.crossings| ==> b.crossings[k] == if k % 2 == 0 then Reached else Left)
    && (AllDone(b.order, b.done) <==> b.crossings != [] && b.crossings[|b.crossings| - 1] == Reached)
  }

  ghost predicate BoardOk(b: Board) {
    && NoDuplicates(b.order)
    && (forall pk :: pk in b.done ==> pk in b.order)
    && AuditAgrees(b)
  }

  lemma AuditedAgrees(b: Board, order: seq<nat>, done: set<nat>)
    requires AuditAgrees(b)
    ensures AuditAgrees(Audited(b, order, done))
  {
  }

  lemma MoveKeeps(b: Board, pk: nat, direction: Direction)
    requires BoardOk(b) && pk in b.order
    ensures BoardOk(b.(order := Moved(b.order, pk, direction)))
  {
    MovedMembers(b.order, pk, direction);
    SameMembersSameDone(b.order, Moved(b.order, pk, direction), b.done);
  }

  lemma MovedMembers(s: seq<nat>, pk: nat, direction: Direction)
    requires NoDuplicates(s) && pk in s
    ensures NoDuplicates(Moved(s, pk, direction))
    ensures forall x :: x in Moved(s, pk, direction) <==> x in s
  {
    var i: int := IndexOf(s, pk);
    var j := if direction == Up then i - 1 else i + 1;
    if 0 <= j < |s| { SwappedMembers(s, i, j); }
  }

  lemma SameMembersSameDone(s: seq<nat>, t: seq<nat>, done: set<nat>)
    requires forall x :: x in s <==> x in t
    ensures AllDone(s, done) == AllDone(t, done)
  {
    if s != [] { assert s[0] in t; }
    if t != [] { assert t[0] in s; }
    assert forall i :: 0 <= i < |s| ==> s[i] in t;
    assert forall i :: 0 <= i < |t| ==> t[i] in s;
  }

  lemma StepKeeps(b: Board, op: Op)
    requires BoardOk(b)
    ensures BoardOk(Step(b, op))
  {
    if Step(b, op) != b && !op.Close? {
      match op
      case Create(pk) => AuditedAgrees(b, b.order + [pk], b.done - {pk});
      case Complete(pk) => AuditedAgrees(b, b.order, b.done + {pk});
      case Reopen(pk) => AuditedAgrees(b, b.order, b.done - {pk});
      case Delete(pk) =>
        RemovedMembers(b.order, IndexOf(b.order, pk));
        AuditedAgrees(b, RemovedAt(b.order, IndexOf(b.order, pk)), b.done - {pk});
      case Move(pk, direction) => MoveKeeps(b, pk, direction);
    }
  }

  /** Over any run from a project without milestones, the audit alternates and agrees with completion. */
  lemma {:induction false} CrossingsAlternate(ops: seq<Op>)
    ensures BoardOk(Run(NEW, ops))
    decreases |ops|
  {
    if ops != [] {
      CrossingsAlternate(ops[..|ops| - 1]);
      StepKeeps(Run(NEW, ops[..|ops| - 1]), ops[|ops| - 1]);
    }
  }

  /** Deleting the only milestone of a completed project records that it left 100 %. */
  lemma DeletingTheOnlyMilestone(b: Board, pk: nat)
    requires BoardOk(b) && !b.closed && b.order == [pk] && pk in b.done
    ensures var b' := Step(b, Delete(pk));
            b'.order == [] && b'.crossings == b.crossings + [Left] && !AllDone(b'.order, b'.done)
  {
  }
}
