/** Which attachments are tried again: the rows a claim takes, and those that can still be downloaded. */
module AttachmentRetry {
  import opened Wrappers
  import opened FileNames
  import opened Attachments
  import opened AttachmentSafety

  /** The lease of a claim taken at `since` still runs at `now`; a negative timeout counts as none. */
  predicate LeaseRuns(since: int, now: int, timeout: int) {
    now < since || now < since + timeout
  }

  /**
   * A claim leaves a row as it was exactly when the row is settled, or is being processed
   * under a lease that has not run out. In particular a FAILED row is always taken.
   */
  lemma ClaimRefusedExactly(
    foreign: set<string>, actions: seq<Action>, r: nat, token: Token, now: int, timeout: int)
    ensures var w := Run(Start(foreign), actions);
            r < |w.rows| && Fresh(w, token)
            ==> (Step(w, Claim(r, token, now, timeout)).rows[r] == w.rows[r]
                 <==> match w.rows[r].status
                      case Downloaded => true
                      case Invalid => true
                      case Processing =>
                        w.rows[r].startedAt.Some? && LeaseRuns(w.rows[r].startedAt.value, now, timeout)
                      case Pending => false
                      case Failed => false)
  {
    var w := Run(Start(foreign), actions);
    ReachableInv(foreign, actions);
    if r < |w.rows| { assert RowOk(w, r); }
  }

  /** A claim that is not refused gives the row to the claimant. */
  lemma ClaimTakes(w: World, r: nat, token: Token, now: int, timeout: int)
    requires r < |w.rows| && Fresh(w, token) && w.rows[r].status !in {Downloaded, Invalid}
    requires w.rows[r].status == Processing && w.rows[r].startedAt.Some? ==>
               !LeaseRuns(w.rows[r].startedAt.value, now, timeout)
    ensures var w' := Step(w, Claim(r, token, now, timeout));
            && |w'.rows| == |w.rows| && Owns(w'.rows[r], token)
            && token in w'.attempts && w'.attempts[token] == Attempt(r, Working) && w'.storage == w.storage
            && w'.rows[r].externalId == w.rows[r].externalId
  {
  }

  /** After an attempt that ended in FAILED, the claim of any fresh token owns the row, whatever the clock says. */
  lemma FailedIsTakenAgain(w: World, failed: Token, token: Token, now: int, timeout: int)
    requires failed in w.attempts && w.attempts[failed].phase.Working? && w.attempts[failed].row < |w.rows|
    requires Owns(w.rows[w.attempts[failed].row], failed)
    requires Fresh(Step(w, Fail(failed, Failed)), token)
    ensures var r, after := w.attempts[failed].row, Step(w, Fail(failed, Failed));
            r < |after.rows| && Owns(Step(after, Claim(r, token, now, timeout)).rows[r], token)
  {
    var r, after := w.attempts[failed].row, Step(w, Fail(failed, Failed));
    assert after.rows[r].status == Failed;
    ClaimTakes(after, r, token, now, timeout);
  }

  /** When the lease of a row has run out, or it never had one. */
  function LeaseEnd(row: Row, timeout: int): int {
    if row.startedAt.None? then 0 else row.startedAt.value + if timeout > 0 then timeout else 0
  }

  /** A fresh token claims the row, stores under the name reserved for it, and confirms. */
  function Download(w: World, r: nat, token: Token, mime: Mime, timeout: int): seq<Action>
    requires r < |w.rows|
  {
    [Claim(r, token, LeaseEnd(w.rows[r], timeout), timeout),
     Store(token, mime, SafeFilename(w.rows[r].externalId, r, mime, Some(token))),
     Confirm(token)]
  }

  lemma RunThree(w: World, x: Action, y: Action, z: Action)
    ensures Run(w, [x, y, z]) == Step(Step(Step(w, x), y), z)
  {
    assert [x, y, z][..2] == [x, y] && [x, y][..1] == [x] && [x][..0] == [];
    assert Run(w, [x]) == Step(w, x);
    assert Run(w, [x, y]) == Step(Step(w, x), y);
  }

  /** From every row that is not settled, such a run downloads the attachment, whatever the timeout. */
  lemma DownloadSucceeds(foreign: set<string>, w: World, r: nat, token: Token, mime: Mime, timeout: int)
    requires Inv(w, foreign) && r < |w.rows| && w.rows[r].status !in {Downloaded, Invalid} && Fresh(w, token)
    ensures var after := Run(w, Download(w, r, token, mime, timeout));
            && r < |after.rows| && after.rows[r].status == Downloaded
            && after.rows[r].file == Some(SafeFilename(w.rows[r].externalId, r, mime, Some(token)))
  {
    var name := SafeFilename(w.rows[r].externalId, r, mime, Some(token));
    var claim := Claim(r, token, LeaseEnd(w.rows[r], timeout), timeout);
    ClaimTakes(w, r, token, LeaseEnd(w.rows[r], timeout), timeout);
    var claimed := Step(w, claim);
    StepKeeps(w, foreign, claim);
    ProposedNameIsFree(claimed, foreign, token, mime);
    assert NameFor(claimed, token, mime) == name;
    var stored := Step(claimed, Store(token, mime, name));
    assert stored == Enter(claimed, token, Stored(name)).(storage := claimed.storage + {name});
    RunThree(w, claim, Store(token, mime, name), Confirm(token));
  }

  /** INVALID is the only status with no way to DOWNLOADED, as long as unused tokens are left. */
  lemma CanBeDownloadedExactly(foreign: set<string>, actions: seq<Action>, r: nat, token: Token)
    requires r < |Run(Start(foreign), actions).rows| && Fresh(Run(Start(foreign), actions), token)
    ensures var w := Run(Start(foreign), actions);
            (exists more :: r < |Run(w, more).rows| && Run(w, more).rows[r].status == Downloaded)
            <==> w.rows[r].status != Invalid
  {
    var w := Run(Start(foreign), actions);
    ReachableInv(foreign, actions);
    if w.rows[r].status == Invalid {
      forall more ensures r < |Run(w, more).rows| && Run(w, more).rows[r].status == Invalid {
        SettledRowsAreFinal(w, more, r);
      }
    } else if w.rows[r].status == Downloaded {
      assert Run(w, []) == w;
    } else {
      DownloadSucceeds(foreign, w, r, token, Jpeg, 0);
    }
  }

  /** In particular an attachment just staged, whatever its identifier: it has no file, and can be downloaded. */
  lemma StagedCanBeDownloaded(
    foreign: set<string>, w: World, externalId: string, token: Token, mime: Mime, timeout: int)
    requires Inv(w, foreign) && Fresh(w, token)
    ensures var staged, r := Step(w, Stage(externalId)), |w.rows|;
            && |staged.rows| == r + 1 && staged.rows[..r] == w.rows && staged.rows[r].file.None?
            && var after := Run(staged, Download(staged, r, token, mime, timeout));
               r < |after.rows| && after.rows[r].status == Downloaded
  {
    StepKeeps(w, foreign, Stage(externalId));
    DownloadSucceeds(foreign, Step(w, Stage(externalId)), |w.rows|, token, mime, timeout);
  }
}
