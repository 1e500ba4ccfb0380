/**
 * The worker that downloads Kobo attachments, as imperative code. Between its
 * own transactions the rest of the world runs arbitrary actions of the claim
 * protocol, so each method is tied to a run of that protocol.
 */
module AttachmentWorker {
  import opened Wrappers
  import opened FileNames
  import opened Attachments

  /** What the row says when it is read again after the claim. */
  datatype Metadata = Metadata(hasSourceUrl: bool, declared: Option<Mime>, privacyKnown: bool)

  /** What the network gives: a client rejection, any other error, or a response. */
  datatype Fetch =
    | Rejected
    | Broken
    | Response(contentLength: Option<int>, content: seq<bv8>, mime: Option<Mime>)

  /**
   * Everything an attempt depends on beside the database and storage. `claimedType` is the
   * declared type as the claim saw it, `metadata` the row as read again after it.
   */
  datatype Attempting = Attempting(
    token: Token, now: int, timeout: int, maxBytes: int, claimedType: Option<Mime>, metadata: Metadata, fetch: Fetch,
    saveWorks: bool, confirmWorks: bool, deleteWorks: bool,
    duringDownload: seq<Action>, beforeConfirm: seq<Action>, beforeCleanup: seq<Action>)

  datatype Ticket = Ticket(row: nat, token: Token, previous: Status)

  datatype Outcome = Outcome(previous: Status, final: Status, processed: bool)

  datatype BatchResult = BatchResult(selected: nat, downloaded: nat, invalid: nat, failed: nat, skipped: nat)

  function Signature(mime: Mime): seq<bv8> {
    match mime
    case Jpeg => [0xff, 0xd8, 0xff]
    case Png => [0x89, 0x50, 0x4e, 0x47, 0x0d, 0x0a, 0x1a, 0x0a]
  }

  predicate FitsWithin(fetch: Fetch, maxBytes: int) {
    && fetch.Response?
    && (fetch.contentLength.Some? ==> fetch.contentLength.value <= maxBytes)
    && |fetch.content| <= maxBytes
  }

  /** The response may be stored: sizes within the limit, type allowed, declared and proved by its signature. */
  predicate Acceptable(p: Attempting) {
    && p.maxBytes > 0
    && p.metadata.hasSourceUrl && p.metadata.declared.Some? && p.metadata.privacyKnown
    && FitsWithin(p.fetch, p.maxBytes)
    && p.fetch.mime.Some? && p.fetch.mime == p.claimedType
    && Signature(p.fetch.mime.value) <= p.fetch.content
  }

  /** No action in the list belongs to the attempt that holds this token. */
  predicate Foreigners(actions: seq<Action>, token: Token) {
    forall i :: 0 <= i < |actions| ==> Actor(actions[i]) != Some(token)
  }

  predicate LeftAlone(p: Attempting, token: Token) {
    && Foreigners(p.duringDownload, token)
    && Foreigners(p.beforeConfirm, token)
    && Foreigners(p.beforeCleanup, token)
  }

  /** Nothing else happens while the attempt is under way. */
  predicate Alone(p: Attempting) {
    p.duringDownload == [] && p.beforeConfirm == [] && p.beforeCleanup == []
  }

  /** The attempt is over: its object is a row's file, gone, or beyond a failed deletion. */
  predicate Concluded(phase: Phase, deleteWorks: bool) {
    phase.Kept? || phase.Over? || (phase.Leaked? && !deleteWorks)
  }

  /** An action an attempt performs, or one of those that happen while it is waiting. */
  predicate MayAct(p: Attempting, a: Action) {
    || Actor(a) == Some(p.token)
    || a in p.duringDownload
    || a in p.beforeConfirm
    || a in p.beforeCleanup
  }

  predicate TraceOf(p: Attempting, trace: seq<Action>) {
    forall i :: 0 <= i < |trace| ==> MayAct(p, trace[i])
  }

  lemma {:induction false} RunAppend(w: World, xs: seq<Action>, ys: seq<Action>)
    ensures Run(w, xs + ys) == Run(Run(w, xs), ys)
    decreases |ys|
  {
    if ys == [] {
      assert xs + ys == xs;
    } else {
      var init := ys[..|ys| - 1];
      assert (xs + ys)[..|xs + ys| - 1] == xs + init;
      RunAppend(w, xs, init);
    }
  }

  lemma RunOne(w: World, a: Action)
    ensures Run(w, [a]) == Step(w, a)
  {
    assert [a][..0] == [];
  }

  /** What others do leaves an attempt, or a token nobody used yet, as it is. */
  lemma {:induction false} OthersLeaveTokens(w: World, foreign: set<string>, actions: seq<Action>, token: Token)
    requires Inv(w, foreign) && Foreigners(actions, token)
    ensures var w' := Run(w, actions);
            && Inv(w', foreign)
            && |w.rows| <= |w'.rows|
            && (token in w'.attempts <==> token in w.attempts)
            && (token in w.attempts ==> w'.attempts[token] == w.attempts[token])
            && (Fresh(w, token) ==> Fresh(w', token))
    decreases |actions|
  {
    if actions != [] {
      var init, a := actions[..|actions| - 1], actions[|actions| - 1];
      OthersLeaveTokens(w, foreign, init, token);
      var before := Run(w, init);
      StepKeeps(before, foreign, a);
      if a.Store? && Enabled(before, a) {
        StoreKeeps(before, foreign, a);
        var r := before.attempts[a.token].row;
        TokenOfFilename(before.rows[r].externalId, r, a.mime, a.token);
      }
    }
  }

  /** How many of the attempts ended with their object kept as a row's file. */
  function KeptCount(w: World, plans: seq<Attempting>): nat {
    if plans == [] then 0
    else KeptCount(w, plans[..|plans| - 1]) + if IsKept(w, plans[|plans| - 1].token) then 1 else 0
  }

  predicate IsKept(w: World, token: Token) { token in w.attempts && w.attempts[token].phase.Kept? }

  lemma {:induction false} KeptCountStable(w: World, w': World, plans: seq<Attempting>)
    requires forall i :: 0 <= i < |plans| ==> IsKept(w, plans[i].token) == IsKept(w', plans[i].token)
    ensures KeptCount(w, plans) == KeptCount(w', plans)
  {
    if plans != [] {
      KeptCountStable(w, w', plans[..|plans| - 1]);
      assert IsKept(w, plans[|plans| - 1].token) == IsKept(w', plans[|plans| - 1].token);
    }
  }

  class AttachmentStore {
    var rows: seq<Row>
    var storage: set<string>
    var attempts: map<Token, Attempt>
    ghost const foreign: set<string>

    ghost predicate Valid()
      reads this
    {
      Inv(State(), foreign)
    }

    function State(): World
      reads this
    {
      World(rows, storage, attempts)
    }

    constructor (objects: set<string>)
      ensures Valid() && State() == Start(objects) && foreign == objects
    {
      rows, storage, attempts, foreign := [], objects, map[], objects;
    }

    /** Other workers and the staging of new attachments, between two steps of this one. */
    method Others(actions: seq<Action>)
      requires Valid()
      modifies this
      ensures Valid() && State() == Run(old(State()), actions)
    {
      RunKeeps(State(), foreign, actions);
      var w := Run(State(), actions);
      rows, storage, attempts := w.rows, w.storage, w.attempts;
    }

    method ClaimProcessing(pk: nat, token: Token, now: int, timeout: int) returns (ticket: Option<Ticket>)
      requires Valid() && Fresh(State(), token)
      modifies this
      ensures Valid() && State() == Step(old(State()), Claim(pk, token, now, timeout))
      ensures ticket.Some? <==> pk < |old(rows)| && Claimable(old(rows)[pk], now, timeout)
      ensures ticket.Some? ==> ticket.value == Ticket(pk, token, old(rows)[pk].status)
      ensures ticket.Some? ==> Owns(rows[pk], token)
    {
      StepKeeps(State(), foreign, Claim(pk, token, now, timeout));
      if pk >= |rows| || !Claimable(rows[pk], now, timeout) {
        return None;
      }
      var row := rows[pk];
      ticket := Some(Ticket(pk, token, row.status));
      row := row.(status := Processing);
      row := row.(startedAt := Some(now));
      row := row.(token := Some(token));
      rows := rows[pk := row];
      attempts := attempts[token := Attempt(pk, Working)];
    }

    method FinalizeFailure(ticket: Ticket, verdict: Status) returns (outcome: Outcome)
      requires Valid() && (verdict == Invalid || verdict == Failed)
      requires ticket.token in attempts && attempts[ticket.token] == Attempt(ticket.row, Working)
      modifies this
      ensures Valid() && State() == Step(old(State()), Fail(ticket.token, verdict))
      ensures outcome.processed <==> old(ticket.row < |rows| && Owns(rows[ticket.row], ticket.token))
      ensures ticket.row < |rows| && outcome == Outcome(ticket.previous, rows[ticket.row].status, outcome.processed)
      ensures outcome.processed ==> outcome.final == verdict
    {
      assert AttemptOk(State(), ticket.token);
      StepKeeps(State(), foreign, Fail(ticket.token, verdict));
      attempts := attempts[ticket.token := Attempt(ticket.row, Over)];
      var row := rows[ticket.row];
      if !Owns(row, ticket.token) {
        return Outcome(ticket.previous, row.status, false);
      }
      row := row.(status := verdict);
      row := row.(startedAt := None, token := None);
      rows := rows[ticket.row := row];
      outcome := Outcome(ticket.previous, verdict, true);
    }

    method ConfirmDownload(ticket: Ticket, name: string) returns (outcome: Option<Outcome>)
      requires Valid()
      requires ticket.token in attempts && attempts[ticket.token] == Attempt(ticket.row, Stored(name))
      modifies this
      ensures Valid() && State() == Step(old(State()), Confirm(ticket.token))
      ensures outcome.Some? <==> old(ticket.row < |rows| && Owns(rows[ticket.row], ticket.token))
      ensures outcome.Some? ==> outcome.value == Outcome(ticket.previous, Downloaded, true)
      ensures outcome.Some? ==> ticket.row < |rows| && rows[ticket.row].status == Downloaded
                                && rows[ticket.row].file == Some(name)
    {
      assert AttemptOk(State(), ticket.token);
      StepKeeps(State(), foreign, Confirm(ticket.token));
      var row := rows[ticket.row];
      if !Owns(row, ticket.token) {
        attempts := attempts[ticket.token := Attempt(ticket.row, Orphan(name))];
        return None;
      }
      row := row.(file := Some(name));
      row := row.(status := Downloaded);
      row := row.(startedAt := None, token := None);
      rows := rows[ticket.row := row];
      attempts := attempts[ticket.token := Attempt(ticket.row, Kept(name))];
      outcome := Some(Outcome(ticket.previous, Downloaded, true));
    }

    /** Best-effort removal of the object this attempt wrote and may not keep. */
    method CompensateStoredFile(ticket: Ticket, name: string, works: bool)
      requires Valid()
      requires ticket.token in attempts && attempts[ticket.token] == Attempt(ticket.row, Orphan(name))
      modifies this
      ensures Valid() && State() == Step(old(State()), Compensate(ticket.token, works))
    {
      assert AttemptOk(State(), ticket.token);
      StepKeeps(State(), foreign, Compensate(ticket.token, works));
      if works {
        storage := storage - {name};
        attempts := attempts[ticket.token := Attempt(ticket.row, Over)];
      } else {
        attempts := attempts[ticket.token := Attempt(ticket.row, Leaked(name))];
      }
    }

    /**
     * One attempt. None is an exception of the confirming transaction, let through
     * after compensation. A processed outcome is the status of the row, DOWNLOADED only
     * for an acceptable response stored under this attempt's own name; a skipped one
     * means the row could not be claimed or the claim was lost.
     */
    method DownloadAndStore(pk: nat, p: Attempting) returns (outcome: Option<Outcome>, ghost trace: seq<Action>)
      requires Valid() && pk < |rows| && Fresh(State(), p.token) && LeftAlone(p, p.token)
      modifies this
      ensures Valid() && State() == Run(old(State()), trace) && |old(rows)| <= |rows|
      ensures TraceOf(p, trace)
      ensures outcome.Some? && outcome.value.processed ==>
                && outcome.value.final in {Downloaded, Invalid, Failed}
                && rows[pk].status == outcome.value.final
      ensures (outcome.Some? && outcome.value.processed && outcome.value.final == Downloaded)
              <==> IsKept(State(), p.token)
      ensures IsKept(State(), p.token) ==>
                && rows[pk].file == Some(attempts[p.token].phase.name)
                && TokenPart(attempts[p.token].phase.name) == p.token
                && Acceptable(p)
      ensures outcome.Some? && outcome.value.processed && outcome.value.final == Invalid ==>
                !Acceptable(p)
      ensures outcome.Some? && outcome.value.processed && outcome.value.final == Failed ==>
                p.fetch.Broken? || !p.saveWorks
      ensures outcome.Some? && !outcome.value.processed ==>
                !Claimable(old(rows)[pk], p.now, p.timeout) || !Owns(rows[pk], p.token)
      ensures p.token in attempts <==> Claimable(old(rows)[pk], p.now, p.timeout)
      ensures p.token in attempts ==> Concluded(attempts[p.token].phase, p.deleteWorks)
      ensures p.token in attempts && Alone(p) ==>
                && (outcome.Some? ==> outcome.value.processed)
                && (IsKept(State(), p.token)
                    <==> Acceptable(p) && p.saveWorks && p.confirmWorks)
      ensures outcome.None? ==> !p.confirmWorks && Acceptable(p)
    {
      ghost var w0 := State();
      var previous := rows[pk].status;
      var ticket := ClaimProcessing(pk, p.token, p.now, p.timeout);
      trace := [Claim(pk, p.token, p.now, p.timeout)];
      RunOne(w0, trace[0]);
      if ticket.None? {
        return Some(Outcome(previous, rows[pk].status, false)), trace;
      }
      if p.maxBytes <= 0 {
        outcome, trace := Conclude(w0, trace, ticket.value, Invalid, p);
        return;
      }
      trace := Wait(w0, trace, p.duringDownload, p);
      var verdict := Judge(p);
      if verdict.Some? {
        outcome, trace := Conclude(w0, trace, ticket.value, verdict.value, p);
        return;
      }
      var name;
      name, trace := SaveObject(w0, trace, pk, p);
      trace := Wait(w0, trace, p.beforeConfirm, p);
      outcome, trace := Settle(w0, trace, ticket.value, name, p);
    }

    /** The world moves on while this attempt waits; its own bookkeeping stays. */
    method Wait(ghost w0: World, ghost before: seq<Action>, actions: seq<Action>, p: Attempting)
      returns (ghost trace: seq<Action>)
      requires Valid() && State() == Run(w0, before) && TraceOf(p, before)
      requires Foreigners(actions, p.token) && p.token in attempts
      requires forall a :: a in actions ==> MayAct(p, a)
      modifies this
      ensures Valid() && State() == Run(w0, trace) && TraceOf(p, trace)
      ensures State() == Run(old(State()), actions)
      ensures |old(rows)| <= |rows|
      ensures p.token in attempts && attempts[p.token] == old(attempts)[p.token]
      ensures actions == [] ==> State() == old(State())
    {
      OthersLeaveTokens(State(), foreign, actions, p.token);
      RunAppend(w0, before, actions);
      Others(actions);
      trace := before + actions;
    }

    /** Stores the download under the name reserved to this attempt, which storage keeps. */
    method SaveObject(ghost w0: World, ghost before: seq<Action>, pk: nat, p: Attempting)
      returns (name: string, ghost trace: seq<Action>)
      requires Valid() && State() == Run(w0, before) && TraceOf(p, before)
      requires p.token in attempts && attempts[p.token] == Attempt(pk, Working) && pk < |rows|
      requires Acceptable(p)
      modifies this
      ensures Valid() && State() == Run(w0, trace) && TraceOf(p, trace) && rows == old(rows)
      ensures name !in old(storage) && storage == old(storage) + {name}
      ensures p.token in attempts && attempts[p.token] == Attempt(pk, Stored(name))
    {
      var mime := p.fetch.mime.value;
      name := SafeFilename(rows[pk].externalId, pk, mime, Some(p.token));
      ghost var step := Store(p.token, mime, name);
      ProposedNameIsFree(State(), foreign, p.token, mime);
      StepKeeps(State(), foreign, step);
      RunOne(State(), step);
      RunAppend(w0, before, [step]);
      storage := storage + {name};
      attempts := attempts[p.token := Attempt(pk, Stored(name))];
      trace := before + [step];
    }

    /** The checks between claim and storage: None to go on, or the failure to record. */
    static method Judge(p: Attempting) returns (verdict: Option<Status>)
      requires p.maxBytes > 0
      ensures verdict.None? <==> Acceptable(p) && p.saveWorks
      ensures verdict == Some(Failed) <==>
                (p.metadata.hasSourceUrl && p.metadata.declared.Some? && p.metadata.privacyKnown && p.fetch.Broken?)
                || (Acceptable(p) && !p.saveWorks)
      ensures verdict.Some? ==> verdict.value == Invalid || verdict.value == Failed
    {
      if !p.metadata.hasSourceUrl || p.metadata.declared.None? || !p.metadata.privacyKnown {
        return Some(Invalid);
      }
      match p.fetch
      case Rejected => return Some(Invalid);
      case Broken => return Some(Failed);
      case Response(contentLength, content, mime) =>
        if contentLength.Some? && contentLength.value > p.maxBytes {
          return Some(Invalid);
        }
        if |content| > p.maxBytes {
          return Some(Invalid);
        }
        if mime.None? || mime != p.claimedType {
          return Some(Invalid);
        }
        if !(Signature(mime.value) <= content) {
          return Some(Invalid);
        }
        return if p.saveWorks then None else Some(Failed);
    }

    method Conclude(ghost w0: World, ghost before: seq<Action>, ticket: Ticket, verdict: Status, p: Attempting)
      returns (outcome: Option<Outcome>, ghost trace: seq<Action>)
      requires Valid() && (verdict == Invalid || verdict == Failed) && ticket.token == p.token
      requires State() == Run(w0, before) && TraceOf(p, before)
      requires ticket.token in attempts && attempts[ticket.token] == Attempt(ticket.row, Working)
      modifies this
      ensures Valid() && State() == Run(w0, trace) && TraceOf(p, trace)
      ensures |rows| == |old(rows)| && ticket.row < |rows|
      ensures outcome.Some? && outcome.value.final == rows[ticket.row].status
      ensures outcome.value.processed ==> outcome.value.final == verdict
      ensures !outcome.value.processed ==> !Owns(rows[ticket.row], ticket.token)
      ensures p.token in attempts && attempts[p.token].phase == Over
      ensures outcome.value.processed <==> old(ticket.row < |rows| && Owns(rows[ticket.row], ticket.token))
    {
      assert AttemptOk(State(), ticket.token);
      var o := FinalizeFailure(ticket, verdict);
      RunOne(Run(w0, before), Fail(ticket.token, verdict));
      RunAppend(w0, before, [Fail(ticket.token, verdict)]);
      outcome, trace := Some(o), before + [Fail(ticket.token, verdict)];
    }

    /** The confirming transaction, which may raise and then has changed nothing. */
    method TryConfirm(ghost w0: World, ghost before: seq<Action>, ticket: Ticket, name: string, p: Attempting)
      returns (outcome: Option<Outcome>, ghost trace: seq<Action>)
      requires Valid() && State() == Run(w0, before) && TraceOf(p, before) && ticket.token == p.token
      requires ticket.token in attempts && attempts[ticket.token] == Attempt(ticket.row, Stored(name))
      modifies this
      ensures Valid() && State() == Run(w0, trace) && TraceOf(p, trace)
      ensures |rows| == |old(rows)| && ticket.row < |rows| && TokenPart(name) == p.token
      ensures outcome.Some? ==>
                && outcome.value == Outcome(ticket.previous, Downloaded, true)
                && rows[ticket.row].status == Downloaded
                && rows[ticket.row].file == Some(name)
      ensures p.token in attempts
              && attempts[p.token] == Attempt(ticket.row, if outcome.Some? then Kept(name) else Orphan(name))
      ensures outcome.None? && p.confirmWorks ==> !Owns(rows[ticket.row], p.token)
      ensures outcome.Some? <==> p.confirmWorks && old(ticket.row < |rows| && Owns(rows[ticket.row], p.token))
    {
      assert AttemptOk(State(), ticket.token);
      assert Holds(attempts[p.token], name);
      ghost var w := State();
      ghost var step := if p.confirmWorks then Confirm(p.token) else ConfirmRaises(p.token);
      if p.confirmWorks {
        outcome := ConfirmDownload(ticket, name);
      } else {
        StepKeeps(w, foreign, step);
        attempts := attempts[p.token := Attempt(ticket.row, Orphan(name))];
        outcome := None;
      }
      RunOne(w, step);
      RunAppend(w0, before, [step]);
      trace := before + [step];
    }

    /** The compensation, whatever others do before it; a claim that was lost does not come back. */
    method CleanUp(ghost w0: World, ghost before: seq<Action>, ticket: Ticket, name: string, p: Attempting)
      returns (ghost trace: seq<Action>)
      requires Valid() && State() == Run(w0, before) && TraceOf(p, before)
      requires ticket.token == p.token && LeftAlone(p, p.token) && ticket.row < |rows|
      requires ticket.token in attempts && attempts[ticket.token] == Attempt(ticket.row, Orphan(name))
      modifies this
      ensures Valid() && State() == Run(w0, trace) && TraceOf(p, trace) && |old(rows)| <= |rows|
      ensures p.token in attempts
              && attempts[p.token] == Attempt(ticket.row, if p.deleteWorks then Over else Leaked(name))
      ensures old(!Owns(rows[ticket.row], p.token)) ==> !Owns(rows[ticket.row], p.token)
    {
      ghost var w := State();
      trace := Wait(w0, before, p.beforeCleanup, p);
      if !Owns(w.rows[ticket.row], p.token) { LostForGood(w, foreign, p.beforeCleanup, p.token, ticket.row); }
      RunOne(State(), Compensate(p.token, p.deleteWorks));
      RunAppend(w0, trace, [Compensate(p.token, p.deleteWorks)]);
      CompensateStoredFile(ticket, name, p.deleteWorks);
      trace := trace + [Compensate(p.token, p.deleteWorks)];
    }

    /** Confirm, or compensate when confirming raised or the claim was lost. */
    method Settle(ghost w0: World, ghost before: seq<Action>, ticket: Ticket, name: string, p: Attempting)
      returns (outcome: Option<Outcome>, ghost trace: seq<Action>)
      requires Valid() && State() == Run(w0, before) && TraceOf(p, before)
      requires ticket.token == p.token && LeftAlone(p, p.token)
      requires ticket.token in attempts && attempts[ticket.token] == Attempt(ticket.row, Stored(name))
      modifies this
      ensures Valid() && State() == Run(w0, trace) && TraceOf(p, trace) && |old(rows)| <= |rows|
      ensures ticket.row < |rows|
      ensures outcome.Some? && outcome.value.processed ==>
                && outcome.value.final == Downloaded
                && rows[ticket.row].status == Downloaded
                && rows[ticket.row].file == Some(name)
                && IsKept(State(), p.token)
                && attempts[p.token].phase.name == name
                && TokenPart(name) == p.token
      ensures (outcome.Some? && outcome.value.processed) <==> IsKept(State(), p.token)
      ensures outcome.Some? && !outcome.value.processed ==> !Owns(rows[ticket.row], p.token)
      ensures p.token in attempts && Concluded(attempts[p.token].phase, p.deleteWorks)
      ensures outcome.Some? && outcome.value.processed
              <==> p.confirmWorks && old(ticket.row < |rows| && Owns(rows[ticket.row], p.token))
      ensures outcome.None? <==> !p.confirmWorks
    {
      var o;
      o, trace := TryConfirm(w0, before, ticket, name, p);
      if o.Some? {
        return o, trace;
      }
      trace := CleanUp(w0, trace, ticket, name, p);
      outcome := if p.confirmWorks then Some(Outcome(ticket.previous, rows[ticket.row].status, false)) else None;
    }

    /**
     * The batch over the attachments of a submission. When it returns, every selected
     * attachment is counted once, and `downloaded` is the number of objects it kept.
     */
    method ProcessPending(pks: seq<nat>, plans: seq<Attempting>)
      returns (result: Option<BatchResult>, ghost trace: seq<Action>)
      requires Valid() && |plans| == |pks|
      requires forall i :: 0 <= i < |pks| ==> pks[i] < |rows| && Fresh(State(), plans[i].token)
      requires forall i, j :: 0 <= i < j < |plans| ==> plans[i].token != plans[j].token
      requires forall i, j :: 0 <= i < |plans| && 0 <= j < |plans| ==> LeftAlone(plans[i], plans[j].token)
      modifies this
      ensures Valid() && State() == Run(old(State()), trace)
      ensures result.Some? ==>
                && result.value.selected == |pks|
                && result.value.selected
                   == result.value.downloaded + result.value.invalid + result.value.failed + result.value.skipped
                && result.value.downloaded == KeptCount(State(), plans)
      ensures result.None? ==> exists i :: 0 <= i < |plans| && !plans[i].confirmWorks
    {
      var downloaded, invalid, failed, skipped := 0, 0, 0, 0;
      trace := [];
      for i := 0 to |pks|
        invariant Valid() && State() == Run(old(State()), trace)
        invariant |old(rows)| <= |rows|
        invariant forall j :: i <= j < |plans| ==> Fresh(State(), plans[j].token)
        invariant downloaded + invalid + failed + skipped == i
        invariant downloaded == KeptCount(State(), plans[..i])
      {
        ghost var w := State();
        var outcome;
        ghost var part;
        outcome, part := DownloadAndStore(pks[i], plans[i]);
        RunAppend(old(State()), trace, part);
        trace := trace + part;
        PartLeavesOthers(w, State(), foreign, plans, part, i);
        assert plans[..i + 1][..i] == plans[..i];
        if outcome.None? {
          return None, trace;
        }
        downloaded := downloaded + if outcome.value.processed && outcome.value.final == Downloaded then 1 else 0;
        invalid := invalid + if outcome.value.processed && outcome.value.final == Invalid then 1 else 0;
        failed := failed + if outcome.value.processed && outcome.value.final == Failed then 1 else 0;
        skipped := skipped + if !outcome.value.processed then 1 else 0;
      }
      assert plans[..|pks|] == plans;
      result := Some(BatchResult(|pks|, downloaded, invalid, failed, skipped));
    }
  }

  /** A claim that was lost does not come back. */
  lemma {:induction false} LostForGood(w: World, foreign: set<string>, actions: seq<Action>, token: Token, r: nat)
    requires Inv(w, foreign) && Foreigners(actions, token) && r < |w.rows| && !Owns(w.rows[r], token)
    ensures r < |Run(w, actions).rows| && !Owns(Run(w, actions).rows[r], token)
    decreases |actions|
  {
    if actions != [] {
      LostForGood(w, foreign, actions[..|actions| - 1], token, r);
    }
  }

  /** One attempt of the batch leaves the tokens of the others as they were. */
  lemma PartLeavesOthers(
    w: World, after: World, foreign: set<string>, plans: seq<Attempting>, part: seq<Action>, i: nat)
    requires Inv(w, foreign) && i < |plans| && TraceOf(plans[i], part) && after == Run(w, part)
    requires forall i, j :: 0 <= i < j < |plans| ==> plans[i].token != plans[j].token
    requires forall j :: 0 <= j < |plans| ==> LeftAlone(plans[i], plans[j].token)
    ensures forall j :: 0 <= j < |plans| && j != i && Fresh(w, plans[j].token) ==> Fresh(after, plans[j].token)
    ensures KeptCount(after, plans[..i]) == KeptCount(w, plans[..i])
  {
    forall j | 0 <= j < |plans| && j != i
      ensures IsKept(w, plans[j].token) == IsKept(after, plans[j].token)
      ensures Fresh(w, plans[j].token) ==> Fresh(after, plans[j].token)
    {
      PartIsForeign(plans, part, i, j);
      OthersLeaveTokens(w, foreign, part, plans[j].token);
    }
    KeptCountStable(w, after, plans[..i]);
  }

  lemma PartIsForeign(plans: seq<Attempting>, part: seq<Action>, i: nat, j: nat)
    requires i < |plans| && j < |plans| && i != j
    requires forall i, j :: 0 <= i < j < |plans| ==> plans[i].token != plans[j].token
    requires LeftAlone(plans[i], plans[j].token)
    requires TraceOf(plans[i], part)
    ensures Foreigners(part, plans[j].token)
  {
    forall k | 0 <= k < |part| ensures Actor(part[k]) != Some(plans[j].token) {
      assert MayAct(plans[i], part[k]);
    }
  }
}
