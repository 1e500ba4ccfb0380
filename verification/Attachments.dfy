/**
 * The claim protocol for Kobo attachments, as a state machine.
 *
 * A worker claims a row in one short transaction, downloads and stores with no
 * lock held, and confirms or fails in another transaction if its token still
 * owns the row. Any number of attempts run at once; every clock reading and
 * timeout is arbitrary, so an attempt may lose its claim at any moment.
 */
module Attachments {
  import opened Wrappers
  import opened FileNames

  datatype Status = Pending | Processing | Downloaded | Invalid | Failed

  datatype Row = Row(status: Status, startedAt: Option<int>, token: Option<Token>,
                     file: Option<string>, externalId: string)

  /** Where an attempt is, and which stored object it answers for. */
  datatype Phase =
    | Working
    | Stored(name: string)
    | Orphan(name: string)
    | Kept(name: string)
    | Leaked(name: string)
    | Over

  datatype Attempt = Attempt(row: nat, phase: Phase)

  datatype World = World(rows: seq<Row>, storage: set<string>, attempts: map<Token, Attempt>)

  datatype Action =
    | Stage(externalId: string)
    | Claim(row: nat, token: Token, now: int, timeout: int)
    | Store(token: Token, mime: Mime, saved: string)
    | Fail(token: Token, verdict: Status)
    | Confirm(token: Token)
    | ConfirmRaises(token: Token)
    | Compensate(token: Token, deleted: bool)
    | Crash(token: Token)

  /** The attempt an action belongs to. */
  function Actor(a: Action): Option<Token> {
    match a
    case Stage(_) => None
    case Claim(_, t, _, _) => Some(t)
    case Store(t, _, _) => Some(t)
    case Fail(t, _) => Some(t)
    case Confirm(t) => Some(t)
    case ConfirmRaises(t) => Some(t)
    case Compensate(t, _) => Some(t)
    case Crash(t) => Some(t)
  }

  predicate Expired(row: Row, now: int, timeout: int) {
    row.startedAt.None? || row.startedAt.value + (if timeout > 0 then timeout else 0) <= now
  }

  predicate Claimable(row: Row, now: int, timeout: int) {
    row.status == Pending || row.status == Failed || (row.status == Processing && Expired(row, now, timeout))
  }

  predicate Owns(row: Row, token: Token) {
    row.status == Processing && row.token == Some(token)
  }

  function ClaimedRow(row: Row, token: Token, now: int): Row {
    row.(status := Processing, startedAt := Some(now), token := Some(token))
  }

  function FailedRow(row: Row, verdict: Status): Row {
    row.(status := verdict, startedAt := None, token := None)
  }

  function ConfirmedRow(row: Row, name: string): Row {
    row.(status := Downloaded, file := Some(name), startedAt := None, token := None)
  }

  /** A token never used before, by an attempt or in the name of a stored object. */
  predicate Fresh(w: World, token: Token) {
    token !in w.attempts && forall n :: n in w.storage ==> TokenPart(n) != token
  }

  predicate InPhase(w: World, token: Token, f: Phase -> bool) {
    token in w.attempts && w.attempts[token].row < |w.rows| && f(w.attempts[token].phase)
  }

  function NameFor(w: World, token: Token, mime: Mime): string
    requires token in w.attempts && w.attempts[token].row < |w.rows|
  {
    SafeFilename(w.rows[w.attempts[token].row].externalId, w.attempts[token].row, mime, Some(token))
  }

  /** Storage keeps the proposed name when it is free, and otherwise picks another free one. */
  predicate Enabled(w: World, a: Action) {
    match a
    case Stage(_) => true
    case Claim(r, t, now, timeout) => r < |w.rows| && Claimable(w.rows[r], now, timeout) && Fresh(w, t)
    case Store(t, mime, saved) =>
      && InPhase(w, t, (p: Phase) => p.Working?)
      && saved !in w.storage
      && (NameFor(w, t, mime) !in w.storage ==> saved == NameFor(w, t, mime))
    case Fail(t, verdict) =>
      InPhase(w, t, (p: Phase) => p.Working?) && (verdict == Invalid || verdict == Failed)
    case Confirm(t) => InPhase(w, t, (p: Phase) => p.Stored?)
    case ConfirmRaises(t) => InPhase(w, t, (p: Phase) => p.Stored?)
    case Compensate(t, _) => InPhase(w, t, (p: Phase) => p.Orphan?)
    case Crash(t) => InPhase(w, t, (p: Phase) => p.Working? || p.Stored? || p.Orphan?)
  }

  function Enter(w: World, token: Token, phase: Phase): World
    requires token in w.attempts
  {
    w.(attempts := w.attempts[token := w.attempts[token].(phase := phase)])
  }

  function Apply(w: World, a: Action): World
    requires Enabled(w, a)
  {
    match a
    case Stage(x) => w.(rows := w.rows + [Row(Pending, None, None, None, x)])
    case Claim(r, t, now, _) =>
      w.(rows := w.rows[r := ClaimedRow(w.rows[r], t, now)], attempts := w.attempts[t := Attempt(r, Working)])
    case Store(t, _, saved) => Enter(w, t, Stored(saved)).(storage := w.storage + {saved})
    case Fail(t, verdict) =>
      var r := w.attempts[t].row;
      var over := Enter(w, t, Over);
      if Owns(w.rows[r], t) then over.(rows := w.rows[r := FailedRow(w.rows[r], verdict)]) else over
    case Confirm(t) =>
      var r, name := w.attempts[t].row, w.attempts[t].phase.name;
      if Owns(w.rows[r], t)
      then Enter(w, t, Kept(name)).(rows := w.rows[r := ConfirmedRow(w.rows[r], name)])
      else Enter(w, t, Orphan(name))
    case ConfirmRaises(t) => Enter(w, t, Orphan(w.attempts[t].phase.name))
    case Compensate(t, deleted) =>
      var name := w.attempts[t].phase.name;
      if deleted then Enter(w, t, Over).(storage := w.storage - {name}) else Enter(w, t, Leaked(name))
    case Crash(t) =>
      if w.attempts[t].phase.Working? then Enter(w, t, Over) else Enter(w, t, Leaked(w.attempts[t].phase.name))
  }

  /** An action that is not possible changes nothing, so every sequence of actions is a run. */
  function Step(w: World, a: Action): World {
    if Enabled(w, a) then Apply(w, a) else w
  }

  function Run(w: World, actions: seq<Action>): World
    decreases |actions|
  {
    if actions == [] then w else Step(Run(w, actions[..|actions| - 1]), actions[|actions| - 1])
  }

  /** No attachment staged yet; whatever objects storage already holds are foreign. */
  function Start(foreign: set<string>): World { World([], foreign, map[]) }

  /** The object an attempt answers for, if any. */
  predicate Holds(attempt: Attempt, name: string) {
    match attempt.phase
    case Stored(n) => n == name
    case Orphan(n) => n == name
    case Kept(n) => n == name
    case Leaked(n) => n == name
    case _ => false
  }

  ghost predicate AttemptOk(w: World, t: Token)
    requires t in w.attempts
  {
    var attempt := w.attempts[t];
    && attempt.row < |w.rows|
    && (forall n :: Holds(attempt, n) ==> n in w.storage && TokenPart(n) == t)
    && (attempt.phase.Kept? ==> w.rows[attempt.row].file == Some(attempt.phase.name))
  }

  ghost predicate RowOk(w: World, r: nat)
    requires r < |w.rows|
  {
    var row := w.rows[r];
    && (row.status == Processing ==>
         && row.token.Some?
         && row.token.value in w.attempts
         && w.attempts[row.token.value].row == r
         && !w.attempts[row.token.value].phase.Kept?)
    && (row.file.Some? <==> row.status == Downloaded)
    && (row.file.Some? ==>
         && TokenPart(row.file.value) in w.attempts
         && w.attempts[TokenPart(row.file.value)] == Attempt(r, Kept(row.file.value)))
  }

  ghost predicate ObjectOk(w: World, foreign: set<string>, n: string) {
    if n in foreign then TokenPart(n) !in w.attempts
    else TokenPart(n) in w.attempts && Holds(w.attempts[TokenPart(n)], n)
  }

  ghost predicate Inv(w: World, foreign: set<string>) {
    && foreign <= w.storage
    && (forall t :: t in w.attempts ==> AttemptOk(w, t))
    && (forall r :: 0 <= r < |w.rows| ==> RowOk(w, r))
    && (forall n :: n in w.storage ==> ObjectOk(w, foreign, n))
  }

  /** The name an attempt proposes is free: only that attempt could have used it. */
  lemma ProposedNameIsFree(w: World, foreign: set<string>, t: Token, mime: Mime)
    requires Inv(w, foreign) && t in w.attempts && w.attempts[t].phase.Working?
    ensures AttemptOk(w, t) && NameFor(w, t, mime) !in w.storage
  {
    assert AttemptOk(w, t);
    var r := w.attempts[t].row;
    TokenOfFilename(w.rows[r].externalId, r, mime, t);
    var name := NameFor(w, t, mime);
    assert name in w.storage ==> ObjectOk(w, foreign, name);
  }

  lemma ClaimKeeps(w: World, foreign: set<string>, a: Action)
    requires Inv(w, foreign) && Enabled(w, a) && a.Claim?
    ensures Inv(Apply(w, a), foreign)
  {
    var w' := Apply(w, a);
    forall t | t in w'.attempts ensures AttemptOk(w', t) {
      if t != a.token {
        assert AttemptOk(w, t);
        assert RowOk(w, a.row);
      }
    }
    forall r | 0 <= r < |w'.rows| ensures RowOk(w', r) {
      assert RowOk(w, r);
    }
    forall n | n in w'.storage ensures ObjectOk(w', foreign, n) {
      assert ObjectOk(w, foreign, n);
    }
  }

  lemma StoreKeeps(w: World, foreign: set<string>, a: Action)
    requires Inv(w, foreign) && Enabled(w, a) && a.Store?
    ensures Inv(Apply(w, a), foreign)
    ensures a.saved == NameFor(w, a.token, a.mime)
  {
    ProposedNameIsFree(w, foreign, a.token, a.mime);
    var r := w.attempts[a.token].row;
    TokenOfFilename(w.rows[r].externalId, r, a.mime, a.token);
    var w' := Apply(w, a);
    forall t | t in w'.attempts ensures AttemptOk(w', t) {
      assert AttemptOk(w, t);
    }
    forall r | 0 <= r < |w'.rows| ensures RowOk(w', r) {
      assert RowOk(w, r);
    }
    forall n | n in w'.storage ensures ObjectOk(w', foreign, n) {
      if n != a.saved { assert ObjectOk(w, foreign, n); }
    }
  }

  lemma FinishKeepsObject(w: World, foreign: set<string>, a: Action, n: string)
    requires Inv(w, foreign) && Enabled(w, a) && (a.Fail? || a.Confirm?) && n in w.storage
    ensures ObjectOk(Apply(w, a), foreign, n)
  {
    assert ObjectOk(w, foreign, n);
  }

  lemma FinishKeeps(w: World, foreign: set<string>, a: Action)
    requires Inv(w, foreign) && Enabled(w, a) && (a.Fail? || a.Confirm?)
    ensures Inv(Apply(w, a), foreign)
  {
    var w' := Apply(w, a);
    var own := w.attempts[a.token].row;
    assert RowOk(w, own) && AttemptOk(w, a.token);
    forall t | t in w'.attempts ensures AttemptOk(w', t) {
      assert AttemptOk(w, t);
    }
    forall r | 0 <= r < |w'.rows| ensures RowOk(w', r) {
      assert RowOk(w, r);
    }
    forall n | n in w'.storage ensures ObjectOk(w', foreign, n) {
      FinishKeepsObject(w, foreign, a, n);
    }
  }

  lemma LeaveKeeps(w: World, foreign: set<string>, a: Action)
    requires Inv(w, foreign) && Enabled(w, a) && (a.ConfirmRaises? || a.Compensate? || a.Crash?)
    ensures Inv(Apply(w, a), foreign)
  {
    var w' := Apply(w, a);
    assert AttemptOk(w, a.token);
    forall n | n in w.storage ensures ObjectOk(w, foreign, n) {}
    forall t | t in w'.attempts ensures AttemptOk(w', t) {
      assert AttemptOk(w, t);
    }
    forall r | 0 <= r < |w'.rows| ensures RowOk(w', r) {
      assert RowOk(w, r);
    }
    forall n | n in w'.storage ensures ObjectOk(w', foreign, n) {
      assert ObjectOk(w, foreign, n);
    }
    forall n | n in foreign ensures n in w'.storage {
      assert ObjectOk(w, foreign, n);
    }
  }

  lemma StageKeeps(w: World, foreign: set<string>, a: Action)
    requires Inv(w, foreign) && a.Stage?
    ensures Inv(Apply(w, a), foreign)
  {
    var w' := Apply(w, a);
    forall t | t in w'.attempts ensures AttemptOk(w', t) {
      assert AttemptOk(w, t);
    }
    forall r | 0 <= r < |w'.rows| ensures RowOk(w', r) {
      if r < |w.rows| { assert RowOk(w, r); }
    }
    forall n | n in w'.storage ensures ObjectOk(w', foreign, n) {
      assert ObjectOk(w, foreign, n);
    }
  }

  lemma StepKeeps(w: World, foreign: set<string>, a: Action)
    requires Inv(w, foreign)
    ensures Inv(Step(w, a), foreign)
  {
    if Enabled(w, a) {
      match a
      case Stage(_) => StageKeeps(w, foreign, a);
      case Claim(_, _, _, _) => ClaimKeeps(w, foreign, a);
      case Store(_, _, _) => StoreKeeps(w, foreign, a);
      case Fail(_, _) => FinishKeeps(w, foreign, a);
      case Confirm(_) => FinishKeeps(w, foreign, a);
      case ConfirmRaises(_) => LeaveKeeps(w, foreign, a);
      case Compensate(_, _) => LeaveKeeps(w, foreign, a);
      case Crash(_) => LeaveKeeps(w, foreign, a);
    }
  }

  lemma {:induction false} RunKeeps(w: World, foreign: set<string>, actions: seq<Action>)
    requires Inv(w, foreign)
    ensures Inv(Run(w, actions), foreign)
    decreases |actions|
  {
    if actions != [] {
      RunKeeps(w, foreign, actions[..|actions| - 1]);
      StepKeeps(Run(w, actions[..|actions| - 1]), foreign, actions[|actions| - 1]);
    }
  }
}
