/** Which file sets can change, over every run of the project system. */
module ProjectFreeze {
  import opened Wrappers
  import opened Projects
  import opened ProjectInvariant
  import opened ProjectRuns

  /** What a file is, apart from the progress shown for it. */
  datatype Content = Content(mediaType: string, size: nat, sha256: string)

  function ContentOf(files: map<string, File>): map<string, Content> {
    map n | n in files :: Content(files[n].mediaType, files[n].size, files[n].sha256)
  }

  /** How a snapshot row may move in one step. Only an editable snapshot takes other files. */
  ghost predicate Moves(a: Snapshot, b: Snapshot, reopened: bool) {
    && b.project == a.project
    && (ContentOf(a.files) == ContentOf(b.files) || (a.status == Editable && b.status == Editable))
    && match a.status {
         case Editable => b.status == Editable || b.status == Sealed
         case Sealed => b.status == Sealed || b.status == Active || (reopened && b.status == Editable)
         case Active => b.status == Active || b.status == Validated
         case Validated => b.status == Validated
       }
  }

  ghost predicate AllMove(s: Tables, t: Tables, reopened: Option<Id>) {
    forall d :: d in s.snapshots && d in t.snapshots ==> Moves(s.snapshots[d], t.snapshots[d], reopened == Some(d))
  }

  /** The snapshot a step opens again: that of the build it fails. */
  ghost function Reopened(y: System, step: Step): Option<Id> {
    if step.StepFail? && y.held.Some? then Some(y.held.value.snapshot) else None
  }

  lemma SameContent(files: map<string, File>, lifecycle: string, progress: nat, code: string)
    ensures ContentOf(Moved(files, lifecycle, progress)) == ContentOf(files)
    ensures ContentOf(Flagged(files, code)) == ContentOf(files)
  {
  }

  lemma UnmovedMoves(s: Tables, t: Tables, reopened: Option<Id>)
    requires forall d :: d in s.snapshots && d in t.snapshots ==> t.snapshots[d] == s.snapshots[d]
    ensures AllMove(s, t, reopened)
  {
  }

  lemma OneMoves(s: Tables, t: Tables, d: Id, reopened: Option<Id>)
    requires d in s.snapshots && d in t.snapshots && Moves(s.snapshots[d], t.snapshots[d], reopened == Some(d))
    requires forall e :: e != d && e in s.snapshots && e in t.snapshots ==> t.snapshots[e] == s.snapshots[e]
    ensures AllMove(s, t, reopened)
  {
    hide ContentOf;
  }

  lemma DraftEditable(s: Tables, p: Id, d: Id)
    requires DraftOf(s, p) == Some(d)
    ensures EditableOf(s, p, d)
  {
  }

  lemma UploadMoves(y: System, step: Step)
    requires Sound(y) && Possible(y, step)
    requires step.StepFinalize? || step.StepDelete? || step.StepSubmit?
    ensures AllMove(y.db, After(y, step).db, None)
  {
    hide Inv, Linked, Moved, DraftOf, Stored, Placed, Moves, ContentOf;
    var s, t := y.db, After(y, step).db;
    match step {
      case StepFinalize(p, u, paths, now) =>
        if FinalizeUpload(s, p, u, paths, now).Ok? {
          FinalizeMoves(s, p, u, paths, now);
        } else {
          UnmovedMoves(s, t, None);
        }
      case StepDelete(p, d, name) =>
        if DeleteFile(s, p, d, name).Ok? {
          DraftEditable(s, p, d);
          EditableMoves(s.snapshots[d], t.snapshots[d]);
          OneMoves(s, t, d, None);
        } else {
          UnmovedMoves(s, t, None);
        }
      case StepSubmit(p, j, now) =>
        if SubmitBuild(s, p, j, now).Ok? {
          var d := DraftOf(s, p).value;
          DraftEditable(s, p, d);
          SealMoves(s.snapshots[d], t.snapshots[d]);
          OneMoves(s, t, d, None);
        } else {
          UnmovedMoves(s, t, None);
        }
    }
  }

  lemma EditableMoves(a: Snapshot, b: Snapshot)
    requires a.status == Editable && b.status == Editable && a.project == b.project
    ensures Moves(a, b, false)
  {
  }

  lemma SealMoves(a: Snapshot, b: Snapshot)
    requires a.status == Editable && b == a.(status := Sealed, files := Moved(a.files, "queued", 5))
    ensures Moves(a, b, false)
  {
    SameContent(a.files, "queued", 5, "");
  }

  lemma FinalizeMoves(s: Tables, p: Id, u: Id, paths: map<Id, string>, now: int)
    requires Inv(s) && Linked(s) && FinalizeUpload(s, p, u, paths, now).Ok?
    ensures AllMove(s, FinalizeUpload(s, p, u, paths, now).value, None)
  {
    hide Stored, Placed, GoodWith, SliceOf, Moves, Owned, OneBuilding;
    var d := DraftIn(s, p);
    SliceRows(s, p);
    SessionOnDraft(p, SliceOf(s, p), d, u);
    DraftInSlice(p, SliceOf(s, p), d);
    hide Inv, Linked;
    var t := FinalizeUpload(s, p, u, paths, now).value;
    EditableMoves(s.snapshots[d], t.snapshots[d]);
    OneMoves(s, t, d, None);
  }

  /** Relabelling the files of any snapshots changes no content. */
  lemma RelabelledMoves(s: Tables, t: Tables)
    requires forall d :: d in s.snapshots && d in t.snapshots ==>
                           t.snapshots[d] == s.snapshots[d]
                           || exists lifecycle, progress ::
                                t.snapshots[d] ==
                                s.snapshots[d].(files := Moved(s.snapshots[d].files, lifecycle, progress))
    ensures AllMove(s, t, None)
  {
    hide Moved, ContentOf;
    forall d | d in s.snapshots && d in t.snapshots
      ensures Moves(s.snapshots[d], t.snapshots[d], false)
    {
      if t.snapshots[d] != s.snapshots[d] {
        var lifecycle, progress :|
          t.snapshots[d] == s.snapshots[d].(files := Moved(s.snapshots[d].files, lifecycle, progress));
        SameContent(s.snapshots[d].files, lifecycle, progress, "");
      }
    }
  }

  lemma CompleteMoves(s: Tables, b: BuildRecord, version: string, count: nat, draft: Id, now: int)
    requires Inv(s) && Holds(s, b) && draft !in s.snapshots && CompleteBuild(s, b, version, count, draft, now).Ok?
    ensures AllMove(s, CompleteBuild(s, b, version, count, draft, now).value, None)
  {
    HeldProjectOpen(s, b);
    hide Inv, CompleteBuild, Holds, Moves;
    var t := CompleteBuild(s, b, version, count, draft, now).value;
    forall d | d in s.snapshots && d in t.snapshots
      ensures Moves(s.snapshots[d], t.snapshots[d], false)
    {
      CompletedMove(s, b, version, count, draft, now, d);
    }
  }

  lemma CompletedMove(s: Tables, b: BuildRecord, version: string, count: nat, draft: Id, now: int, d: Id)
    requires draft !in s.snapshots && CompleteBuild(s, b, version, count, draft, now).Ok?
    requires b.snapshot in s.snapshots && s.snapshots[b.snapshot].status == Sealed && d in s.snapshots
    ensures
      var t := CompleteBuild(s, b, version, count, draft, now).value;
      d in t.snapshots && Moves(s.snapshots[d], t.snapshots[d], false)
  {
    hide Moved, Copied, ContentOf;
    SameContent(s.snapshots[b.snapshot].files, "ready", 100, "");
  }

  lemma FailMoves(s: Tables, b: BuildRecord, code: string)
    requires Inv(s) && Holds(s, b) && FailBuild(s, b, code).Ok?
    ensures AllMove(s, FailBuild(s, b, code).value, Some(b.snapshot))
  {
    HeldProjectOpen(s, b);
    hide Inv, Flagged, ContentOf;
    SameContent(s.snapshots[b.snapshot].files, "", 0, code);
  }

  lemma LabelMoves(y: System, step: Step)
    requires Sound(y) && Possible(y, step) && (step.StepClaim? || step.StepProgress? || step.StepRecover?)
    ensures AllMove(y.db, After(y, step).db, None)
  {
    hide Inv, Linked, Moved, AllMove, Holds, NothingBuilding, HasLive, HasBuilding;
    RelabelledMoves(y.db, After(y, step).db);
  }

  lemma PlainMoves(y: System, step: Step)
    requires Sound(y) && Possible(y, step)
    requires step.StepCreate? || step.StepUpload? || step.StepMark? || step.StepCleanup? || step.StepArchive?
             || step.StepRestore?
             || step.StepPurge? || step.StepCrash?
    ensures AllMove(y.db, After(y, step).db, None)
  {
    hide Inv, Linked, AllMove, DraftOf, Holds, SomePartAwaits, MarkParts;
    UnmovedMoves(y.db, After(y, step).db, None);
  }

  /** In one step a sealed, active or validated snapshot keeps its files; only failing its build opens it again. */
  lemma StepMoves(y: System, step: Step)
    requires Sound(y) && Possible(y, step)
    ensures AllMove(y.db, After(y, step).db, Reopened(y, step))
  {
    hide Inv, Linked, AllMove, CompleteBuild, FailBuild, RecoverBuilds, ClaimBuild, UpdateFileLifecycle, FinalizeUpload,
         DeleteFile;
    hide SubmitBuild, CreateProject, CreateUploadSession, MarkPartUploaded, CleanupExpiredUploads, Archive, Restore,
         PurgeExpired;
    match step
    case StepFinalize(_, _, _, _) => UploadMoves(y, step);
    case StepDelete(_, _, _) => UploadMoves(y, step);
    case StepSubmit(_, _, _) => UploadMoves(y, step);
    case StepClaim(_) => LabelMoves(y, step);
    case StepProgress(_, _) => LabelMoves(y, step);
    case StepRecover => LabelMoves(y, step);
    case StepComplete(version, count, d, now, _) =>
      HeldBuildCompletes(y.db, y.held.value, version, count, d, now);
      CompleteMoves(y.db, y.held.value, version, count, d, now);
    case StepFail(code) =>
      FailKeeps(y.db, y.held.value, code);
      FailMoves(y.db, y.held.value, code);
    case _ => PlainMoves(y, step);
  }

  /** The snapshot row a step may add. */
  function Fresh(step: Step): set<Id> {
    match step
    case StepCreate(_, d, _) => {d}
    case StepComplete(_, _, d, _, _) => {d}
    case _ => {}
  }

  lemma NewSnapshots(y: System, step: Step)
    requires Linked(y.db) && Possible(y, step)
    ensures After(y, step).db.snapshots.Keys <= y.db.snapshots.Keys + Fresh(step)
  {
    hide Moved, Copied, Flagged, Stored, Placed, MarkParts, NothingBuilding, OpenUploads, SomePartAwaits, HasBuilding,
         HasLive;
    match step
    case StepFinalize(p, u, paths, now) =>
      assert u in y.db.sessions ==> y.db.sessions[u].snapshot in y.db.snapshots;
    case StepClaim(_) =>
    case StepUpload(_, _, _, _) => hide Linked, DraftOf;
    case StepDelete(_, _, _) => hide Linked, DraftOf;
    case StepSubmit(_, _, _) => hide Linked, DraftOf;
    case _ => hide Linked;
  }

  /** An id that has been handed out never names a new snapshot. */
  lemma NoReturn(y: System, step: Step, d: Id)
    requires Sound(y) && Possible(y, step) && d in y.used && d in After(y, step).db.snapshots
    ensures d in y.db.snapshots
  {
    hide Inv, Linked, After;
    NewSnapshots(y, step);
  }

  /** No step of the run fails the build of this snapshot. */
  ghost predicate NeverReopened(y: System, steps: seq<Step>, d: Id)
    requires Sound(y) && Runs(y, steps)
    decreases |steps|
  {
    steps == [] || (Reopened(y, steps[0]) != Some(d)
                    && (StepSound(y, steps[0]); NeverReopened(After(y, steps[0]), steps[1..], d)))
  }

  lemma {:induction false} Gone(y: System, steps: seq<Step>, d: Id)
    requires Sound(y) && Runs(y, steps) && d in y.used && d !in y.db.snapshots
    ensures d !in Run(y, steps).db.snapshots
    decreases |steps|
  {
    if steps != [] {
      StepSound(y, steps[0]);
      if d in After(y, steps[0]).db.snapshots {
        NoReturn(y, steps[0], d);
      } else {
        NoneForgotten(y, steps[0]);
        hide Sound, After, Possible;
        Gone(After(y, steps[0]), steps[1..], d);
      }
    }
  }

  lemma NoneForgotten(y: System, step: Step)
    requires Linked(y.db) && Possible(y, step)
    ensures y.used <= After(y, step).used
  {
    hide Linked, CreateUploadSession, MarkPartUploaded, FinalizeUpload, DeleteFile, SubmitBuild, Archive, Restore,
         PurgeExpired;
    hide ClaimBuild, CompleteBuild, FailBuild, RecoverBuilds, UpdateFileLifecycle, CleanupExpiredUploads, OldestQueued,
         NothingBuilding;
  }

  lemma InUse(y: System, d: Id)
    requires Sound(y) && d in y.db.snapshots
    ensures d in y.used
  {
    hide Inv, Linked;
  }

  /** One step, for a snapshot that is not editable. */
  lemma StepFreezes(y: System, step: Step, d: Id)
    requires Sound(y) && Possible(y, step) && d in y.db.snapshots && y.db.snapshots[d].status != Editable
    ensures Sound(After(y, step)) && d in After(y, step).used
    ensures
      var t := After(y, step).db;
      d in t.snapshots && Reopened(y, step) != Some(d) ==>
        t.snapshots[d].status != Editable && ContentOf(t.snapshots[d].files) == ContentOf(y.db.snapshots[d].files)
    ensures
      var t := After(y, step).db;
      d in t.snapshots && y.db.snapshots[d].status != Sealed ==>
        t.snapshots[d].status in {Active, Validated}
        && ContentOf(t.snapshots[d].files) == ContentOf(y.db.snapshots[d].files)
  {
    hide Inv, Linked, After, ContentOf, Reopened, Possible;
    StepSound(y, step);
    StepMoves(y, step);
    NoneForgotten(y, step);
    InUse(y, d);
    if d in After(y, step).db.snapshots {
      assert Moves(y.db.snapshots[d], After(y, step).db.snapshots[d], Reopened(y, step) == Some(d));
    }
  }

  /** A snapshot that is no longer editable keeps its files as long as its build is not failed. */
  lemma {:induction false} FrozenUnlessReopened(y: System, steps: seq<Step>, d: Id)
    requires Sound(y) && Runs(y, steps) && NeverReopened(y, steps, d)
    requires d in y.db.snapshots && y.db.snapshots[d].status != Editable && d in Run(y, steps).db.snapshots
    ensures Run(y, steps).db.snapshots[d].status != Editable
    ensures ContentOf(Run(y, steps).db.snapshots[d].files) == ContentOf(y.db.snapshots[d].files)
    decreases |steps|
  {
    assert Linked(y.db);
    hide Sound, Linked, After, Possible, ContentOf, Reopened;
    if steps != [] {
      var next := After(y, steps[0]);
      StepFreezes(y, steps[0], d);
      if d in next.db.snapshots {
        FrozenUnlessReopened(next, steps[1..], d);
      } else {
        Gone(next, steps[1..], d);
      }
    }
  }

  /** The files of an active or validated snapshot never change again, in any run. */
  lemma {:induction false} ActiveFrozen(y: System, steps: seq<Step>, d: Id)
    requires Sound(y) && Runs(y, steps)
    requires d in y.db.snapshots && y.db.snapshots[d].status in {Active, Validated}
    requires d in Run(y, steps).db.snapshots
    ensures Run(y, steps).db.snapshots[d].status in {Active, Validated}
    ensures ContentOf(Run(y, steps).db.snapshots[d].files) == ContentOf(y.db.snapshots[d].files)
    decreases |steps|
  {
    assert Linked(y.db);
    hide Sound, Linked, After, Possible, ContentOf, Reopened;
    if steps != [] {
      var next := After(y, steps[0]);
      StepFreezes(y, steps[0], d);
      if d in next.db.snapshots {
        ActiveFrozen(next, steps[1..], d);
      } else {
        Gone(next, steps[1..], d);
      }
    }
  }

  /** A fresh draft starts with the content of the snapshot that was just built. */
  lemma DraftStartsFromActive(s: Tables, b: BuildRecord, version: string, count: nat, draft: Id, now: int)
    requires CompleteBuild(s, b, version, count, draft, now).Ok? && draft !in s.snapshots
    ensures
      var t := CompleteBuild(s, b, version, count, draft, now).value;
      && t.snapshots[draft].status == Editable && t.snapshots[b.snapshot].status == Active
      && ContentOf(t.snapshots[draft].files) == ContentOf(t.snapshots[b.snapshot].files) ==
         ContentOf(s.snapshots[b.snapshot].files)
  {
    CompletedRows(s, b, version, count, draft, now);
    CopiedContent(s.snapshots[b.snapshot].files, b.project);
    SameContent(s.snapshots[b.snapshot].files, "ready", 100, "");
    hide CompleteBuild, ContentOf, Moved, Copied;
  }

  lemma CompletedRows(s: Tables, b: BuildRecord, version: string, count: nat, draft: Id, now: int)
    requires CompleteBuild(s, b, version, count, draft, now).Ok? && draft !in s.snapshots
    ensures b.snapshot in s.snapshots
    ensures
      var t, files := CompleteBuild(s, b, version, count, draft, now).value, s.snapshots[b.snapshot].files;
      && draft in t.snapshots && t.snapshots[draft] == Snapshot(b.project, Editable, now, Copied(files, b.project))
      && b.snapshot in t.snapshots && t.snapshots[b.snapshot].status == Active
      && t.snapshots[b.snapshot].files == Moved(files, "ready", 100)
  {
    hide Moved, Copied;
  }

  lemma CopiedContent(files: map<string, File>, p: Id)
    ensures ContentOf(Copied(files, p)) == ContentOf(files)
  {
  }

  // ----- what soundness means, table by table -----

  ghost predicate LiveOf(s: Tables, p: Id, j: Id) { j in s.jobs && s.jobs[j].project == p && Live(s.jobs[j].status) }

  function SnapshotIds(s: Tables, p: Id): set<Id> { set d | d in s.snapshots && s.snapshots[d].project == p }

  /** A project is queued or building exactly while it has a live job, and then it has one, of that status. */
  lemma QueueMatchesState(s: Tables, p: Id)
    requires Inv(s) && p in s.projects
    ensures Busy(s.projects[p].state) <==> exists j :: LiveOf(s, p, j)
    ensures forall j, k :: LiveOf(s, p, j) && LiveOf(s, p, k) ==> j == k
    ensures forall j :: LiveOf(s, p, j) ==>
                          && s.projects[p].state == (if s.jobs[j].status == JobQueued then Queued else Building)
                          && s.jobs[j].expectedGeneration == s.projects[p].generation
                          && s.jobs[j].snapshot in s.snapshots && s.snapshots[s.jobs[j].snapshot].status == Sealed
                          && s.snapshots[s.jobs[j].snapshot].files != map[]
  {
    hide Owned, OneBuilding, Inv;
    var d := DraftIn(s, p);
    var x := SliceOf(s, p);
    hide SliceOf;
    SliceRows(s, p);
    assert forall j :: LiveOf(s, p, j) <==> LiveJob(x.jobs, j);
    StateNeedsJob(p, x, d);
    hide GoodWith;
    forall j | LiveJob(x.jobs, j)
      ensures forall k :: LiveJob(x.jobs, k) ==> k == j
      ensures x.jobs[j].snapshot == d && d in x.snapshots && x.snapshots[d].status == Sealed
      ensures x.snapshots[d].files != map[]
      ensures x.jobs[j].expectedGeneration == x.project.generation
      ensures x.project.state == (if x.jobs[j].status == JobQueued then Queued else Building)
    {
      LiveJobIs(p, x, d, j);
    }
  }

  lemma StateNeedsJob(p: Id, x: Slice, d: Id)
    requires GoodWith(p, x, d)
    ensures Busy(x.project.state) ==> exists j :: LiveJob(x.jobs, j)
  {
  }

  /** Snapshots number one more than the generation: one draft, the active one once there is one, and validated ones. */
  lemma SnapshotsMatchGeneration(s: Tables, p: Id) returns (d: Id)
    requires Inv(s) && p in s.projects
    ensures |SnapshotIds(s, p)| == s.projects[p].generation + 1
    ensures d in SnapshotIds(s, p) && s.snapshots[d].status == if Busy(s.projects[p].state) then Sealed else Editable
    ensures s.projects[p].generation > 0 <==> s.projects[p].activeSnapshot.Some?
    ensures forall e :: e in SnapshotIds(s, p) && e != d ==>
                          s.snapshots[e].status == if s.projects[p].activeSnapshot == Some(e) then Active else Validated
    ensures s.projects[p].activeSnapshot.Some? ==>
              s.projects[p].activeSnapshot.value in SnapshotIds(s, p) && s.projects[p].activeSnapshot.value != d
  {
    hide Owned, OneBuilding, Inv, Uploading, Queueing, Backed;
    d := DraftIn(s, p);
    var x := SliceOf(s, p);
    assert SnapshotIds(s, p) == x.snapshots.Keys;
    assert |x.snapshots| == |x.snapshots.Keys|;
  }
}
