/** Runs of the project system: requests, one worker that may crash and restart, and what all of them keep. */
module ProjectRuns {
  import opened Wrappers
  import opened Projects
  import opened ProjectInvariant

  // ----- restart -----

  function Requeued(job: Job): Job { if job.status == JobBuilding then job.(status := JobQueued) else job }

  ghost predicate Relabelled(before: map<Id, Snapshot>, after: map<Id, Snapshot>) {
    && before.Keys == after.Keys
    && forall d :: d in before ==>
                     after[d] == before[d] || after[d] == before[d].(files := Moved(before[d].files, "queued", 5))
  }

  ghost predicate Recovered(x: Slice, y: Slice) {
    && y.jobs.Keys == x.jobs.Keys && (forall j :: j in x.jobs ==> y.jobs[j] == Requeued(x.jobs[j]))
    && Relabelled(x.snapshots, y.snapshots)
    && y.sessions == x.sessions && y.blobs == x.blobs
    && y.project == (if SomeBuilding(x.jobs) then x.project.(state := Queued) else x.project)
  }

  ghost predicate SomeBuilding(jobs: map<Id, Job>) { exists j :: j in jobs && jobs[j].status == JobBuilding }

  lemma RecoverSlice(s: Tables, p: Id)
    requires p in s.projects
    ensures p in RecoverBuilds(s).projects && Recovered(SliceOf(s, p), SliceOf(RecoverBuilds(s), p))
  {
    hide Moved, HasLive, SomeBuilding, HasBuilding;
    var x := SliceOf(s, p);
    BuildingInSlice(s, p);
  }

  lemma BuildingInSlice(s: Tables, p: Id)
    requires p in s.projects
    ensures HasBuilding(s, p) <==> SomeBuilding(SliceOf(s, p).jobs)
  {
    var jobs := SliceOf(s, p).jobs;
    if HasBuilding(s, p) {
      var j :| j in s.jobs && s.jobs[j].project == p && s.jobs[j].status == JobBuilding;
      assert j in jobs && jobs[j].status == JobBuilding;
    }
  }

  lemma RecoveredGood(p: Id, x: Slice, y: Slice, d: Id)
    requires GoodWith(p, x, d) && Recovered(x, y)
    ensures GoodWith(p, y, d)
  {
    RecoveredQueues(p, x, y, d);
    RecoveredBacked(p, x, y);
    hide Queueing, Backed, Moved, LiveJob;
    SameSize(x.snapshots, y.snapshots);
  }

  lemma RecoveredBacked(p: Id, x: Slice, y: Slice)
    requires Backed(x, p) && Recovered(x, y)
    ensures Backed(y, p)
  {
    hide FilesBacked, Moved;
    forall d | d in y.snapshots
      ensures FilesBacked(y.snapshots[d].files, p, y.blobs)
    {
      MovedSame(x.snapshots[d].files, "queued", 5, p, x.blobs);
    }
  }

  /** A requeued job stays the live job of its project. */
  lemma RecoveredQueues(p: Id, x: Slice, y: Slice, d: Id)
    requires GoodWith(p, x, d) && Recovered(x, y)
    ensures Queueing(y, d) && Busy(y.project.state) == Busy(x.project.state)
  {
    LiveAgain(x.jobs, y.jobs);
    hide GoodWith;
    RefsAgain(p, x, y, d);
    if j :| LiveJob(x.jobs, j) {
      LiveJobIs(p, x, d, j);
      RecoveredState(x, y, j);
      hide Recovered;
      QueuedOnce(y, d, j);
    } else {
      NoneLive(x, y);
      hide Recovered;
      QueuedNever(p, x, y, d);
    }
  }

  lemma RefsAgain(p: Id, x: Slice, y: Slice, d: Id)
    requires GoodWith(p, x, d) && Recovered(x, y)
    ensures forall j :: j in y.jobs ==> j in x.jobs && y.jobs[j].snapshot in y.snapshots
    ensures forall j :: j in y.jobs ==>
                          y.jobs[j].snapshot == x.jobs[j].snapshot
                          && y.jobs[j].expectedGeneration == x.jobs[j].expectedGeneration
    ensures d in x.snapshots && d in y.snapshots && (x.snapshots[d].files != map[] ==> y.snapshots[d].files != map[])
    ensures y.project.generation == x.project.generation
  {
    MovedSame(x.snapshots[d].files, "queued", 5, p, x.blobs);
    hide Activated, Uploading, Backed, Moved, LiveJob;
    assert y.snapshots[d].files.Keys == x.snapshots[d].files.Keys;
  }

  lemma QueuedOnce(y: Slice, d: Id, j: Id)
    requires LiveJob(y.jobs, j) && (forall k :: LiveJob(y.jobs, k) ==> k == j)
    requires forall k :: k in y.jobs ==> y.jobs[k].snapshot in y.snapshots
    requires y.jobs[j].snapshot == d && y.jobs[j].status == JobQueued
    requires y.jobs[j].expectedGeneration == y.project.generation
    requires y.project.state == Queued && d in y.snapshots && y.snapshots[d].files != map[]
    ensures Queueing(y, d)
  {
  }

  lemma NoneLive(x: Slice, y: Slice)
    requires Recovered(x, y) && forall j :: !LiveJob(x.jobs, j)
    ensures y.project == x.project
  {
    hide Relabelled;
    assert forall j :: j in x.jobs ==> !LiveJob(x.jobs, j);
  }

  lemma QueuedNever(p: Id, x: Slice, y: Slice, d: Id)
    requires GoodWith(p, x, d) && (forall j :: !LiveJob(x.jobs, j)) && (forall j :: !LiveJob(y.jobs, j))
    requires y.project == x.project
    requires forall k :: k in y.jobs ==> y.jobs[k].snapshot in y.snapshots
    ensures Queueing(y, d)
  {
    hide Drafted, Activated, Uploading, Backed;
  }

  lemma LiveAgain(before: map<Id, Job>, after: map<Id, Job>)
    requires after.Keys == before.Keys && forall j :: j in before ==> after[j] == Requeued(before[j])
    ensures forall j :: LiveJob(after, j) <==> LiveJob(before, j)
    ensures forall j :: LiveJob(after, j) ==> after[j].status == JobQueued
  {
  }

  lemma RecoveredState(x: Slice, y: Slice, j: Id)
    requires Recovered(x, y) && LiveJob(x.jobs, j) && forall k :: LiveJob(x.jobs, k) ==> k == j
    requires x.project.state == if x.jobs[j].status == JobQueued then Queued else Building
    ensures y.project == x.project.(state := Queued)
  {
    hide Relabelled;
    assert forall k :: k in x.jobs && x.jobs[k].status == JobBuilding ==> LiveJob(x.jobs, k);
  }

  lemma RecoverInv(s: Tables)
    requires Inv(s)
    ensures Inv(RecoverBuilds(s)) && NothingBuilding(RecoverBuilds(s))
  {
    var t := RecoverBuilds(s);
    RecoverRows(s);
    hide RecoverBuilds, Recovered, GoodWith, SliceOf, OneBuilding, Owned, NothingBuilding;
    forall p | p in t.projects
      ensures Good(p, SliceOf(t, p))
    {
      RecoverSlice(s, p);
      var d := DraftIn(s, p);
      RecoveredGood(p, SliceOf(s, p), SliceOf(t, p), d);
    }
  }

  lemma RecoverRows(s: Tables)
    ensures var t := RecoverBuilds(s); t.projects.Keys == s.projects.Keys && NothingBuilding(t) && OneBuilding(t)
    ensures Owned(s) ==> Owned(RecoverBuilds(s))
  {
    hide Moved, HasLive, HasBuilding;
  }

  // ----- the system -----

  /** The tables, the build the worker is working on, and every id ever handed out. */
  datatype System = System(db: Tables, held: Option<BuildRecord>, used: set<Id>)

  datatype Step =
    | StepCreate(p: Id, d: Id, now: int)
    | StepUpload(p: Id, u: Id, parts: seq<Part>, expiresAt: int)
    | StepMark(part: Id, path: string, size: nat)
    | StepFinalize(p: Id, u: Id, paths: map<Id, string>, now: int)
    | StepDelete(p: Id, d: Id, name: string)
    | StepSubmit(p: Id, j: Id, now: int)
    | StepCleanup(now: int)
    | StepArchive(p: Id, now: int)
    | StepRestore(p: Id, now: int, retention: int)
    | StepPurge(p: Id, now: int, retention: int)
    | StepClaim(j: Id)
    | StepProgress(lifecycle: string, progress: nat)
    | StepComplete(version: string, count: nat, d: Id, now: int, code: string)
    | StepFail(code: string)
    | StepCrash
    | StepRecover

  /** New ids are new; the worker claims only when it holds nothing, and reports only on the build it holds. */
  ghost predicate Possible(y: System, step: Step) {
    match step
    case StepCreate(p, d, _) => p !in y.used && d !in y.used
    case StepUpload(_, u, parts, _) => u !in y.used && forall i :: 0 <= i < |parts| ==> !parts[i].uploaded
    case StepSubmit(_, j, _) => j !in y.used
    case StepClaim(j) => y.held == None && NothingBuilding(y.db) && OldestQueued(y.db, j)
    case StepProgress(_, _) => y.held.Some?
    case StepComplete(_, _, d, _, _) => y.held.Some? && d !in y.used
    case StepFail(_) => y.held.Some?
    case StepRecover => y.held == None
    case _ => true
  }

  function Try(y: System, r: Result<Tables, Refusal>): System { if r.Ok? then y.(db := r.value) else y }

  function Failing(y: System, code: string): System
    requires y.held.Some?
  {
    var r := FailBuild(y.db, y.held.value, code);
    (if r.Ok? then y.(db := r.value) else y).(held := None)
  }

  ghost function After(y: System, step: Step): System
    requires Linked(y.db) && Possible(y, step)
  {
    match step
    case StepCreate(p, d, now) => y.(db := CreateProject(y.db, p, d, now), used := y.used + {p, d})
    case StepUpload(p, u, parts, expiresAt) =>
      Try(y, CreateUploadSession(y.db, p, u, parts, expiresAt)).(used := y.used + {u})
    case StepMark(part, path, size) => Try(y, MarkPartUploaded(y.db, part, path, size))
    case StepFinalize(p, u, paths, now) => Try(y, FinalizeUpload(y.db, p, u, paths, now))
    case StepDelete(p, d, name) => Try(y, DeleteFile(y.db, p, d, name))
    case StepSubmit(p, j, now) => Try(y, SubmitBuild(y.db, p, j, now)).(used := y.used + {j})
    case StepCleanup(now) => y.(db := CleanupExpiredUploads(y.db, now))
    case StepArchive(p, now) => Try(y, Archive(y.db, p, now))
    case StepRestore(p, now, retention) => Try(y, Restore(y.db, p, now, retention))
    case StepPurge(p, now, retention) => Try(y, PurgeExpired(y.db, p, now, retention))
    case StepClaim(j) => y.(db := ClaimBuild(y.db, j), held := Some(RecordOf(j, y.db.jobs[j])))
    case StepProgress(lifecycle, progress) =>
      y.(db := UpdateFileLifecycle(y.db, y.held.value.snapshot, lifecycle, progress))
    case StepComplete(version, count, d, now, code) =>
      var r := CompleteBuild(y.db, y.held.value, version, count, d, now);
      if r.Ok? then System(r.value, None, y.used + {d}) else Failing(y, code).(used := y.used + {d})
    case StepFail(code) => Failing(y, code)
    case StepCrash => y.(held := None)
    case StepRecover => y.(db := RecoverBuilds(y.db))
  }

  /** Ids in the tables were handed out, and the worker holds a building job or nothing. */
  ghost predicate Sound(y: System) {
    && Inv(y.db) && Linked(y.db)
    && y.db.projects.Keys + y.db.snapshots.Keys + y.db.jobs.Keys + y.db.sessions.Keys <= y.used
    && (y.held.Some? ==> Holds(y.db, y.held.value))
  }

  const START := System(EMPTY, None, {})

  lemma StartSound()
    ensures Sound(START)
  {
  }

  lemma HeldProjectOpen(s: Tables, b: BuildRecord)
    requires Inv(s) && Holds(s, b)
    ensures b.project in s.projects && s.projects[b.project].state == Building
    ensures b.snapshot in s.snapshots && s.snapshots[b.snapshot].status == Sealed
  {
    hide GoodWith, SliceOf;
    var p := b.project;
    assert p in s.projects;
    var d := DraftIn(s, p);
    SliceRows(s, p);
    LiveJobIs(p, SliceOf(s, p), d, b.id);
  }

  // ----- every step keeps the system sound -----

  /** The ids in the tables after a step. */
  function Ids(s: Tables): set<Id> { s.projects.Keys + s.snapshots.Keys + s.jobs.Keys + s.sessions.Keys }

  lemma SoundFrom(t: Tables, held: Option<BuildRecord>, used: set<Id>)
    requires Inv(t) && Ids(t) <= used && (held.Some? ==> Holds(t, held.value))
    ensures Sound(System(t, held, used))
  {
    InvLinked(t);
  }

  /** The jobs that are building stay as they are. */
  ghost predicate BuildsKept(s: Tables, t: Tables) {
    forall j :: j in s.jobs && s.jobs[j].status == JobBuilding ==> j in t.jobs && t.jobs[j] == s.jobs[j]
  }

  lemma RequestSound(y: System, t: Tables, more: set<Id>)
    requires Sound(y) && Inv(t) && Ids(t) <= Ids(y.db) + more && BuildsKept(y.db, t)
    ensures Sound(System(t, y.held, y.used + more))
  {
    hide Inv;
    SoundFrom(t, y.held, y.used + more);
  }

  lemma CreateSound(y: System, p: Id, d: Id, now: int)
    requires Sound(y) && p !in y.used && d !in y.used
    ensures Sound(After(y, StepCreate(p, d, now)))
  {
    CreateInv(y.db, p, d, now);
    hide Inv, Linked;
    RequestSound(y, CreateProject(y.db, p, d, now), {p, d});
  }

  lemma UploadSound(y: System, p: Id, u: Id, parts: seq<Part>, expiresAt: int)
    requires Sound(y) && Possible(y, StepUpload(p, u, parts, expiresAt))
    ensures Sound(After(y, StepUpload(p, u, parts, expiresAt)))
  {
    hide Inv, Linked, DraftOf;
    var r := CreateUploadSession(y.db, p, u, parts, expiresAt);
    if r.Ok? {
      UploadInv(y.db, p, u, parts, expiresAt);
      RequestSound(y, r.value, {u});
    } else {
      RequestSound(y, y.db, {u});
    }
  }

  lemma FinalizeRows(s: Tables, p: Id, u: Id, paths: map<Id, string>, now: int)
    requires Linked(s) && FinalizeUpload(s, p, u, paths, now).Ok?
    ensures
      var t := FinalizeUpload(s, p, u, paths, now).value;
      Ids(t) == Ids(s) && t.jobs == s.jobs
  {
    hide Projects.Stored, Placed;
    var t := FinalizeUpload(s, p, u, paths, now).value;
    assert t.snapshots.Keys == s.snapshots.Keys && t.sessions.Keys == s.sessions.Keys;
  }

  lemma FinalizeSound(y: System, p: Id, u: Id, paths: map<Id, string>, now: int)
    requires Sound(y)
    ensures Sound(After(y, StepFinalize(p, u, paths, now)))
  {
    hide Inv, Linked, FinalizeUpload, Ids;
    var r := FinalizeUpload(y.db, p, u, paths, now);
    if r.Ok? {
      FinalizeInv(y.db, p, u, paths, now);
      FinalizeRows(y.db, p, u, paths, now);
      RequestSound(y, r.value, {});
      assert y.used + {} == y.used;
    }
  }

  lemma DeleteSound(y: System, p: Id, d: Id, name: string)
    requires Sound(y)
    ensures Sound(After(y, StepDelete(p, d, name)))
  {
    hide Inv, Linked, DraftOf;
    var r := DeleteFile(y.db, p, d, name);
    if r.Ok? {
      DeleteInv(y.db, p, d, name);
      RequestSound(y, r.value, {});
      assert y.used + {} == y.used;
    }
  }

  lemma SubmitSound(y: System, p: Id, j: Id, now: int)
    requires Sound(y) && j !in y.used
    ensures Sound(After(y, StepSubmit(p, j, now)))
  {
    hide Inv, Linked, DraftOf, Moved;
    var r := SubmitBuild(y.db, p, j, now);
    if r.Ok? {
      SubmitInv(y.db, p, j, now);
      RequestSound(y, r.value, {j});
    } else {
      RequestSound(y, y.db, {j});
    }
  }

  lemma ArchiveSound(y: System, p: Id, now: int)
    requires Sound(y)
    ensures Sound(After(y, StepArchive(p, now)))
  {
    hide Inv, Linked;
    var r := Archive(y.db, p, now);
    if r.Ok? {
      ArchiveInv(y.db, p, now);
      RequestSound(y, r.value, {});
      assert y.used + {} == y.used;
    }
  }

  lemma RestoreSound(y: System, p: Id, now: int, retention: int)
    requires Sound(y)
    ensures Sound(After(y, StepRestore(p, now, retention)))
  {
    hide Inv, Linked;
    var r := Restore(y.db, p, now, retention);
    if r.Ok? {
      RestoreInv(y.db, p, now, retention);
      RequestSound(y, r.value, {});
      assert y.used + {} == y.used;
    }
  }

  lemma PurgeSound(y: System, p: Id, now: int, retention: int)
    requires Sound(y)
    ensures Sound(After(y, StepPurge(p, now, retention)))
  {
    var r := PurgeExpired(y.db, p, now, retention);
    if r.Ok? {
      PurgeInv(y.db, p, now, retention);
      hide GoodWith, Owned, Linked, SliceOf;
      forall j | j in y.db.jobs && y.db.jobs[j].status == JobBuilding
        ensures j in r.value.jobs && r.value.jobs[j] == y.db.jobs[j]
      {
        HeldProjectOpen(y.db, RecordOf(j, y.db.jobs[j]));
      }
      hide Inv;
      RequestSound(y, r.value, {});
      assert y.used + {} == y.used;
    }
  }

  lemma SessionsSound(y: System, step: Step)
    requires Sound(y) && (step.StepMark? || step.StepCleanup?)
    ensures Sound(After(y, step))
  {
    hide Inv, Linked;
    if step.StepCleanup? {
      CleanupInv(y.db, step.now);
    } else if MarkPartUploaded(y.db, step.part, step.path, step.size).Ok? {
      MarkInv(y.db, step.part, step.path, step.size);
    }
    RequestSound(y, After(y, step).db, {});
    assert y.used + {} == y.used;
  }

  lemma ClaimSound(y: System, j: Id)
    requires Sound(y) && Possible(y, StepClaim(j))
    ensures Sound(After(y, StepClaim(j)))
  {
    ClaimInv(y.db, j);
    ClaimRows(y.db, j);
    hide Inv, ClaimBuild, NothingBuilding, OldestQueued, Linked, Ids, Holds;
    SoundFrom(ClaimBuild(y.db, j), Some(RecordOf(j, y.db.jobs[j])), y.used);
  }

  lemma ClaimRows(s: Tables, j: Id)
    requires Linked(s) && OldestQueued(s, j)
    ensures Ids(ClaimBuild(s, j)) == Ids(s) && Holds(ClaimBuild(s, j), RecordOf(j, s.jobs[j]))
  {
    hide Moved;
    var t := ClaimBuild(s, j);
    assert t.projects.Keys == s.projects.Keys && t.snapshots.Keys == s.snapshots.Keys && t.jobs.Keys == s.jobs.Keys;
  }

  lemma ProgressSound(y: System, lifecycle: string, progress: nat)
    requires Sound(y) && y.held.Some?
    ensures Sound(After(y, StepProgress(lifecycle, progress)))
  {
    hide Inv, Linked, Moved;
    var d := y.held.value.snapshot;
    LifecycleInv(y.db, d, lifecycle, progress);
    RequestSound(y, UpdateFileLifecycle(y.db, d, lifecycle, progress), {});
    assert y.used + {} == y.used;
  }

  lemma CompleteIds(s: Tables, b: BuildRecord, version: string, count: nat, d: Id, now: int)
    requires CompleteBuild(s, b, version, count, d, now).Ok?
    ensures Ids(CompleteBuild(s, b, version, count, d, now).value) == Ids(s) + {d}
  {
    hide Moved, Copied;
  }

  lemma CompleteSound(y: System, version: string, count: nat, d: Id, now: int, code: string)
    requires Sound(y) && Possible(y, StepComplete(version, count, d, now, code))
    ensures Sound(After(y, StepComplete(version, count, d, now, code)))
  {
    hide Inv, Linked, CompleteBuild, Holds;
    CompleteInv(y.db, y.held.value, version, count, d, now);
    CompleteIds(y.db, y.held.value, version, count, d, now);
    SoundFrom(CompleteBuild(y.db, y.held.value, version, count, d, now).value, None, y.used + {d});
  }

  lemma FailIds(s: Tables, b: BuildRecord, code: string)
    requires FailBuild(s, b, code).Ok?
    ensures Ids(FailBuild(s, b, code).value) == Ids(s)
  {
    hide Flagged;
  }

  lemma FailSound(y: System, code: string)
    requires Sound(y) && y.held.Some?
    ensures Sound(After(y, StepFail(code)))
  {
    hide Inv, Linked, FailBuild;
    FailKeeps(y.db, y.held.value, code);
    FailIds(y.db, y.held.value, code);
    SoundFrom(FailBuild(y.db, y.held.value, code).value, None, y.used);
  }

  lemma RecoverSound(y: System)
    requires Sound(y) && y.held == None
    ensures Sound(After(y, StepRecover))
  {
    hide Inv, Linked, Moved, HasLive, HasBuilding, NothingBuilding;
    RecoverInv(y.db);
    assert Ids(RecoverBuilds(y.db)) == Ids(y.db);
    SoundFrom(RecoverBuilds(y.db), None, y.used);
  }

  /** Every step, of any user or of the worker, keeps the system sound. */
  lemma StepSound(y: System, step: Step)
    requires Sound(y) && Possible(y, step)
    ensures Sound(After(y, step))
  {
    hide CompleteBuild, FailBuild, RecoverBuilds, ClaimBuild, UpdateFileLifecycle, FinalizeUpload, DeleteFile,
         SubmitBuild;
    hide CreateProject, CreateUploadSession, MarkPartUploaded, CleanupExpiredUploads, Archive, Restore, PurgeExpired;
    match step
    case StepCreate(p, d, now) => CreateSound(y, p, d, now);
    case StepUpload(p, u, parts, expiresAt) => UploadSound(y, p, u, parts, expiresAt);
    case StepMark(_, _, _) => SessionsSound(y, step);
    case StepFinalize(p, u, paths, now) => FinalizeSound(y, p, u, paths, now);
    case StepDelete(p, d, name) => DeleteSound(y, p, d, name);
    case StepSubmit(p, j, now) => SubmitSound(y, p, j, now);
    case StepCleanup(_) => SessionsSound(y, step);
    case StepArchive(p, now) => ArchiveSound(y, p, now);
    case StepRestore(p, now, retention) => RestoreSound(y, p, now, retention);
    case StepPurge(p, now, retention) => PurgeSound(y, p, now, retention);
    case StepClaim(j) => ClaimSound(y, j);
    case StepProgress(lifecycle, progress) => ProgressSound(y, lifecycle, progress);
    case StepComplete(version, count, d, now, code) => CompleteSound(y, version, count, d, now, code);
    case StepFail(code) => FailSound(y, code);
    case StepCrash =>
      hide Inv, Linked;
      SoundFrom(y.db, None, y.used);
    case StepRecover => RecoverSound(y);
  }

  // ----- runs -----

  /** Each step is possible where it happens. */
  ghost predicate Runs(y: System, steps: seq<Step>)
    requires Sound(y)
    decreases |steps|
  {
    steps == [] || (Possible(y, steps[0]) && (StepSound(y, steps[0]); Runs(After(y, steps[0]), steps[1..])))
  }

  ghost function Run(y: System, steps: seq<Step>): System
    requires Sound(y) && Runs(y, steps)
    decreases |steps|
  {
    if steps == [] then y
    else
      StepSound(y, steps[0]);
      Run(After(y, steps[0]), steps[1..])
  }

  /** Every run from a sound state ends in one. */
  lemma {:induction false} RunSound(y: System, steps: seq<Step>)
    requires Sound(y) && Runs(y, steps)
    ensures Sound(Run(y, steps))
    decreases |steps|
  {
    if steps != [] {
      StepSound(y, steps[0]);
      hide Sound, After, Possible;
      RunSound(After(y, steps[0]), steps[1..]);
    }
  }

  /** A state that some run from the empty system ends in. */
  ghost predicate Reachable(y: System) {
    StartSound();
    exists steps :: Runs(START, steps) && Run(START, steps) == y
  }

  /** Every reachable state is sound. */
  lemma ReachableSound(y: System)
    requires Reachable(y)
    ensures Sound(y)
  {
    StartSound();
    hide Sound, Runs, Run;
    var steps :| Runs(START, steps) && Run(START, steps) == y;
    RunSound(START, steps);
  }
}
