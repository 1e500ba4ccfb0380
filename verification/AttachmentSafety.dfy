/** What the claim protocol guarantees over every run, whatever workers, clocks and timeouts do. */
module AttachmentSafety {
  import opened Wrappers
  import opened FileNames
  import opened Attachments

  /** The token of the last attempt that claimed row r during the run. */
  ghost function LastClaimant(w: World, actions: seq<Action>, r: nat): Option<Token>
    decreases |actions|
  {
    if actions == [] then None
    else
      var before, a := actions[..|actions| - 1], actions[|actions| - 1];
      if a.Claim? && a.row == r && Enabled(Run(w, before), a) then Some(a.token) else LastClaimant(w, before, r)
  }

  /** A row in PROCESSING carries the token of its most recent claimant. */
  lemma {:induction false} TokenIsLastClaimant(foreign: set<string>, actions: seq<Action>, r: nat)
    ensures var w := Run(Start(foreign), actions);
            r < |w.rows| && w.rows[r].status == Processing
            ==> w.rows[r].token == LastClaimant(Start(foreign), actions, r)
    decreases |actions|
  {
    if actions != [] {
      TokenIsLastClaimant(foreign, actions[..|actions| - 1], r);
    }
  }

  /**
   * Fencing. A row leaves PROCESSING only by the Fail or Confirm of its most
   * recent claimant; anybody else can at best claim it again once expired.
   */
  lemma Fencing(foreign: set<string>, actions: seq<Action>, a: Action, r: nat)
    ensures var w := Run(Start(foreign), actions);
            var w' := Step(w, a);
            r < |w.rows| && w.rows[r].status == Processing && w'.rows[r] != w.rows[r]
            ==> if w'.rows[r].status == Processing
                then a.Claim? && a.row == r && Expired(w.rows[r], a.now, a.timeout)
                else (a.Fail? || a.Confirm?) && Actor(a) == LastClaimant(Start(foreign), actions, r)
  {
    TokenIsLastClaimant(foreign, actions, r);
  }

  /**
   * An attempt that is no longer the last claimant changes no row at all, and its
   * confirmation turns the object it stored into an orphan to be deleted.
   */
  lemma SupersededWorkerIsHarmless(foreign: set<string>, actions: seq<Action>, a: Action)
    ensures var w := Run(Start(foreign), actions);
            !a.Stage? && !a.Claim? && Actor(a).value in w.attempts
            && LastClaimant(Start(foreign), actions, w.attempts[Actor(a).value].row) != Actor(a)
            ==> && Step(w, a).rows == w.rows
                && (a.Confirm? && Enabled(w, a)
                    ==> Step(w, a).attempts[a.token].phase == Orphan(w.attempts[a.token].phase.name))
  {
    var w := Run(Start(foreign), actions);
    if !a.Stage? && !a.Claim? && Actor(a).value in w.attempts {
      TokenIsLastClaimant(foreign, actions, w.attempts[Actor(a).value].row);
    }
  }

  predicate Settled(status: Status) { status == Downloaded || status == Invalid }

  /** DOWNLOADED and INVALID are final: the whole row stays as it is. */
  lemma {:induction false} SettledRowsAreFinal(w: World, actions: seq<Action>, r: nat)
    requires r < |w.rows| && Settled(w.rows[r].status)
    ensures r < |Run(w, actions).rows| && Run(w, actions).rows[r] == w.rows[r]
    decreases |actions|
  {
    if actions != [] {
      SettledRowsAreFinal(w, actions[..|actions| - 1], r);
    }
  }

  /** Does this action write the file reference of row r? */
  ghost predicate WritesFile(w: World, a: Action, r: nat) {
    && a.Confirm?
    && Enabled(w, a)
    && w.attempts[a.token].row == r
    && Owns(w.rows[r], a.token)
  }

  ghost function FileWrites(w: World, actions: seq<Action>, r: nat): nat
    decreases |actions|
  {
    if actions == [] then 0
    else
      var before, a := actions[..|actions| - 1], actions[|actions| - 1];
      FileWrites(w, before, r) + if WritesFile(Run(w, before), a, r) then 1 else 0
  }

  lemma {:induction false} FileWrittenWhenDownloaded(foreign: set<string>, actions: seq<Action>, r: nat)
    ensures var w := Run(Start(foreign), actions);
            FileWrites(Start(foreign), actions, r)
            == if r < |w.rows| && w.rows[r].status == Downloaded then 1 else 0
    decreases |actions|
  {
    if actions != [] {
      FileWrittenWhenDownloaded(foreign, actions[..|actions| - 1], r);
    }
  }

  /** Only a write of the file reference changes it, and a run makes at most one per row. */
  lemma FileWrittenAtMostOnce(foreign: set<string>, actions: seq<Action>, a: Action, r: nat)
    ensures FileWrites(Start(foreign), actions, r) <= 1
    ensures var w := Run(Start(foreign), actions);
            r < |w.rows| && Step(w, a).rows[r].file != w.rows[r].file ==> WritesFile(w, a, r)
  {
    FileWrittenWhenDownloaded(foreign, actions, r);
  }

  lemma StartInv(foreign: set<string>)
    ensures Inv(Start(foreign), foreign)
  {
  }

  lemma ReachableInv(foreign: set<string>, actions: seq<Action>)
    ensures Inv(Run(Start(foreign), actions), foreign)
  {
    StartInv(foreign);
    RunKeeps(Start(foreign), foreign, actions);
  }

  /**
   * Compensation is safe: with crashes, failed deletions and superseded workers
   * included, the object of a DOWNLOADED row is in storage, as is every foreign one.
   */
  lemma DownloadedObjectIsThere(foreign: set<string>, actions: seq<Action>, r: nat)
    ensures var w := Run(Start(foreign), actions);
            && foreign <= w.storage
            && (r < |w.rows| && w.rows[r].status == Downloaded
                ==> w.rows[r].file.Some? && w.rows[r].file.value in w.storage - foreign)
  {
    ReachableInv(foreign, actions);
    var w := Run(Start(foreign), actions);
    if r < |w.rows| && w.rows[r].status == Downloaded {
      assert RowOk(w, r);
      var name := w.rows[r].file.value;
      assert AttemptOk(w, TokenPart(name));
      assert Holds(w.attempts[TokenPart(name)], name);
      assert ObjectOk(w, foreign, name);
    }
  }

  /** The files of the downloaded rows, and how many rows those are. */
  function Files(rows: seq<Row>): set<string> {
    if rows == [] then {}
    else
      var last := rows[|rows| - 1];
      Files(rows[..|rows| - 1]) + if last.file.Some? then {last.file.value} else {}
  }

  function DownloadedCount(rows: seq<Row>): nat {
    if rows == [] then 0
    else DownloadedCount(rows[..|rows| - 1]) + if rows[|rows| - 1].status == Downloaded then 1 else 0
  }

  predicate IsFileOf(row: Row, name: string) { row.file == Some(name) }

  lemma {:induction false} FilesMember(rows: seq<Row>, name: string)
    ensures name in Files(rows) <==> exists r :: 0 <= r < |rows| && IsFileOf(rows[r], name)
  {
    if rows != [] {
      var rest := rows[..|rows| - 1];
      FilesMember(rest, name);
      forall r | 0 <= r < |rows| && IsFileOf(rows[r], name) ensures name in Files(rows) {
        if r < |rest| { assert IsFileOf(rest[r], name); }
      }
      if name in Files(rest) {
        var r :| 0 <= r < |rest| && IsFileOf(rest[r], name);
        assert IsFileOf(rows[r], name);
      }
    }
  }

  ghost predicate FilesDistinct(rows: seq<Row>) {
    && (forall r :: 0 <= r < |rows| ==> (rows[r].file.Some? <==> rows[r].status == Downloaded))
    && (forall r, s :: 0 <= r < s < |rows| && rows[r].file.Some? ==> rows[r].file != rows[s].file)
  }

  lemma {:induction false} FilesCount(rows: seq<Row>)
    requires FilesDistinct(rows)
    ensures |Files(rows)| == DownloadedCount(rows)
  {
    if rows != [] {
      var rest, last := rows[..|rows| - 1], rows[|rows| - 1];
      FilesCount(rest);
      if last.file.Some? {
        FilesMember(rest, last.file.value);
        assert last.file.value !in Files(rest);
      }
    }
  }

  /** No attempt is between storing an object and settling what becomes of it. */
  ghost predicate Quiet(w: World) {
    forall t :: t in w.attempts ==> var p := w.attempts[t].phase; p.Kept? || p.Leaked? || p.Over?
  }

  ghost predicate IsLeak(w: World, name: string) {
    TokenPart(name) in w.attempts && w.attempts[TokenPart(name)].phase == Leaked(name)
  }

  /**
   * Storage accounting, crashes and failed deletions included: once no worker is
   * in flight, storage holds the foreign objects, the files of the DOWNLOADED
   * rows and what crashed or unlucky attempts left behind, and nothing else.
   */
  lemma StorageAccounted(foreign: set<string>, actions: seq<Action>, name: string)
    requires Quiet(Run(Start(foreign), actions))
    ensures var w := Run(Start(foreign), actions);
            name in w.storage <==> name in foreign || name in Files(w.rows) || IsLeak(w, name)
  {
    ReachableInv(foreign, actions);
    var w := Run(Start(foreign), actions);
    FilesMember(w.rows, name);
    if name in w.storage {
      assert ObjectOk(w, foreign, name);
      if name !in foreign {
        var t := TokenPart(name);
        assert AttemptOk(w, t);
        if w.attempts[t].phase.Kept? {
          assert IsFileOf(w.rows[w.attempts[t].row], name);
        }
      }
    }
    if IsLeak(w, name) {
      assert AttemptOk(w, TokenPart(name));
      assert Holds(w.attempts[TokenPart(name)], name);
    }
    if r :| 0 <= r < |w.rows| && IsFileOf(w.rows[r], name) {
      assert RowOk(w, r);
      DownloadedObjectIsThere(foreign, actions, r);
    }
  }

  /** No crash and no failed deletion. */
  predicate Smooth(actions: seq<Action>) {
    forall i :: 0 <= i < |actions| ==> !actions[i].Crash? && (actions[i].Compensate? ==> actions[i].deleted)
  }

  ghost predicate NoLeaks(w: World) {
    forall t :: t in w.attempts ==> !w.attempts[t].phase.Leaked?
  }

  lemma {:induction false} SmoothRunsLeakNothing(foreign: set<string>, actions: seq<Action>)
    requires Smooth(actions)
    ensures NoLeaks(Run(Start(foreign), actions))
    decreases |actions|
  {
    if actions != [] {
      SmoothRunsLeakNothing(foreign, actions[..|actions| - 1]);
      var before, last := Run(Start(foreign), actions[..|actions| - 1]), actions[|actions| - 1];
      assert !last.Crash? && (last.Compensate? ==> last.deleted);
      assert NoLeaks(Step(before, last));
    }
  }

  lemma DownloadedFilesDistinct(foreign: set<string>, actions: seq<Action>)
    ensures FilesDistinct(Run(Start(foreign), actions).rows)
  {
    ReachableInv(foreign, actions);
    var w := Run(Start(foreign), actions);
    forall r | 0 <= r < |w.rows| ensures w.rows[r].file.Some? <==> w.rows[r].status == Downloaded {
      assert RowOk(w, r);
    }
    forall r, s | 0 <= r < s < |w.rows| && w.rows[r].file.Some? ensures w.rows[r].file != w.rows[s].file {
      assert RowOk(w, r) && RowOk(w, s);
    }
  }

  lemma StorageIsFiles(foreign: set<string>, actions: seq<Action>)
    requires Smooth(actions) && Quiet(Run(Start(foreign), actions))
    ensures Run(Start(foreign), actions).storage == foreign + Files(Run(Start(foreign), actions).rows)
  {
    var w := Run(Start(foreign), actions);
    SmoothRunsLeakNothing(foreign, actions);
    forall name ensures name in w.storage <==> name in foreign + Files(w.rows) {
      StorageAccounted(foreign, actions, name);
    }
  }

  lemma FilesAreOwn(foreign: set<string>, actions: seq<Action>)
    ensures foreign !! Files(Run(Start(foreign), actions).rows)
  {
    var w := Run(Start(foreign), actions);
    ReachableInv(foreign, actions);
    forall name | name in Files(w.rows) ensures name !in foreign {
      FilesMember(w.rows, name);
      var r :| 0 <= r < |w.rows| && IsFileOf(w.rows[r], name);
      assert RowOk(w, r);
      DownloadedObjectIsThere(foreign, actions, r);
    }
  }

  /**
   * Storage exactness: without crashes and failed deletions, once no worker is in
   * flight storage has exactly one object per DOWNLOADED row beside the foreign ones.
   */
  lemma StorageExact(foreign: set<string>, actions: seq<Action>)
    requires Smooth(actions) && Quiet(Run(Start(foreign), actions))
    ensures var w := Run(Start(foreign), actions);
            && w.storage == foreign + Files(w.rows)
            && foreign !! Files(w.rows)
            && |w.storage| == |foreign| + DownloadedCount(w.rows)
  {
    var w := Run(Start(foreign), actions);
    StorageIsFiles(foreign, actions);
    FilesAreOwn(foreign, actions);
    DownloadedFilesDistinct(foreign, actions);
    FilesCount(w.rows);
  }
}
