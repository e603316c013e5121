/** The repository as an object whose tables its methods update, and the worker that drives the builds. */
module ProjectRepository {
  import opened Wrappers
  import opened Projects
  import I = ProjectInvariant
  import R = ProjectRuns

  /** What a request reports and leaves behind: the specified tables, or the refusal and the tables as they were. */
  ghost predicate Did(specified: Result<Tables, Refusal>, before: Tables, after: Tables, refused: Option<Refusal>) {
    match specified
    case Ok(t) => refused == None && after == t
    case Err(e) => refused == Some(e) && after == before
  }

  ghost predicate Consistent(s: Tables) { I.Inv(s) && Linked(s) }

  lemma StillConsistent(s: Tables)
    requires I.Inv(s)
    ensures Consistent(s)
  {
    I.InvLinked(s);
  }

  class Repository {
    var projects: map<Id, Project>
    var snapshots: map<Id, Snapshot>
    var jobs: map<Id, Job>
    var sessions: map<Id, Session>
    var blobs: map<(Id, string), Blob>

    function View(): Tables
      reads this
    {
      Tables(projects, snapshots, jobs, sessions, blobs)
    }

    ghost predicate Valid()
      reads this
    {
      Consistent(View())
    }

    constructor ()
      ensures Valid() && View() == EMPTY
    {
      projects, snapshots, jobs, sessions, blobs := map[], map[], map[], map[], map[];
    }

    // ----- projects -----

    method CreateProject(p: Id, d: Id, now: int)
      requires Valid() && p !in projects && d !in snapshots
      modifies this
      ensures Valid() && View() == Projects.CreateProject(old(View()), p, d, now)
    {
      hide I.Inv, Linked;
      I.CreateInv(View(), p, d, now);
      StillConsistent(Projects.CreateProject(View(), p, d, now));
      projects := projects[p := Project(Draft, None, None, None, 0, 0)];
      snapshots := snapshots[d := Snapshot(p, Editable, now, map[])];
    }

    method Archive(p: Id, now: int) returns (refused: Option<Refusal>)
      requires Valid()
      modifies this
      ensures Valid() && Did(Projects.Archive(old(View()), p, now), old(View()), View(), refused)
    {
      hide I.Inv, Linked;
      if p !in projects {
        return Some(NotFound);
      }
      if Busy(projects[p].state) {
        return Some(Conflict);
      }
      I.ArchiveInv(View(), p, now);
      StillConsistent(Projects.Archive(View(), p, now).value);
      projects := projects[p := projects[p].(state := Archived, archivedAt := Some(now))];
      refused := None;
    }

    method Restore(p: Id, now: int, retention: int) returns (refused: Option<Refusal>)
      requires Valid()
      modifies this
      ensures Valid() && Did(Projects.Restore(old(View()), p, now, retention), old(View()), View(), refused)
    {
      hide I.Inv, Linked;
      if p !in projects {
        return Some(NotFound);
      }
      var project := projects[p];
      if project.state != Archived || project.archivedAt.None? {
        return Some(Conflict);
      }
      if project.archivedAt.value < now - retention {
        return Some(Conflict);
      }
      I.RestoreInv(View(), p, now, retention);
      StillConsistent(Projects.Restore(View(), p, now, retention).value);
      var state := if Truthy(project.activeGraphVersion) then Ready else Draft;
      projects := projects[p := project.(state := state, archivedAt := None)];
      refused := None;
    }

    method PurgeExpired(p: Id, now: int, retention: int) returns (refused: Option<Refusal>)
      requires Valid()
      modifies this
      ensures Valid() && Did(Projects.PurgeExpired(old(View()), p, now, retention), old(View()), View(), refused)
    {
      hide I.Inv, Linked;
      if p !in projects {
        return Some(NotFound);
      }
      var project := projects[p];
      if project.state != Archived || project.archivedAt.None? || project.archivedAt.value > now - retention {
        return Some(Conflict);
      }
      I.PurgeInv(View(), p, now, retention);
      StillConsistent(Projects.PurgeExpired(View(), p, now, retention).value);
      blobs := map b | b in blobs && b.0 != p :: blobs[b];
      projects := projects - {p};
      snapshots := map d | d in snapshots && snapshots[d].project != p :: snapshots[d];
      jobs := map j | j in jobs && jobs[j].project != p :: jobs[j];
      sessions := map u | u in sessions && sessions[u].project != p :: sessions[u];
      refused := None;
    }

    // ----- the draft -----

    /** The editable snapshot created last, found by looking at every row. */
    method FindDraft(p: Id) returns (draft: Option<Id>)
      requires Valid() && p in projects
      ensures draft == DraftOf(View(), p)
      ensures draft.Some? ==> draft.value in snapshots && snapshots[draft.value].project == p
    {
      draft := None;
      var rest := snapshots.Keys;
      while rest != {}
        invariant rest <= snapshots.Keys
        invariant draft.Some? ==> EditableOf(View(), p, draft.value)
        invariant forall d :: d in snapshots && d !in rest && EditableOf(View(), p, d) ==>
                                draft.Some? && snapshots[d].createdAt <= snapshots[draft.value].createdAt
        decreases |rest|
      {
        var d :| d in rest;
        rest := rest - {d};
        if EditableOf(View(), p, d) && (draft.None? || snapshots[draft.value].createdAt < snapshots[d].createdAt) {
          draft := Some(d);
        }
      }
      OnlyDraft(p, draft);
    }

    lemma OnlyDraft(p: Id, draft: Option<Id>)
      requires Valid() && p in projects
      requires draft.Some? ==> LatestEditable(View(), p, draft.value)
      requires draft.None? ==> forall d :: !EditableOf(View(), p, d)
      ensures draft == DraftOf(View(), p)
    {
      var e := I.DraftIn(View(), p);
      I.DraftIs(View(), p, e);
      hide I.Inv, Linked, I.GoodWith;
      if draft.Some? {
        I.DraftAlone(View(), p, e, draft.value);
      }
    }

    // ----- uploads -----

    method CreateUploadSession(p: Id, u: Id, parts: seq<Part>, expiresAt: int) returns (refused: Option<Refusal>)
      requires Valid() && u !in sessions
      modifies this
      ensures Valid()
      ensures Did(Projects.CreateUploadSession(old(View()), p, u, parts, expiresAt), old(View()), View(), refused)
    {
      hide I.Inv, Linked, DraftOf;
      if p !in projects {
        return Some(NotFound);
      }
      if Closed(projects[p].state) {
        return Some(Conflict);
      }
      var draft := FindDraft(p);
      if draft.None? {
        return Some(Conflict);
      }
      I.UploadInv(View(), p, u, parts, expiresAt);
      StillConsistent(Projects.CreateUploadSession(View(), p, u, parts, expiresAt).value);
      sessions := sessions[u := Session(p, draft.value, Open, expiresAt, parts)];
      refused := None;
    }

    method MarkPartUploaded(part: Id, path: string, size: nat) returns (refused: Option<Refusal>)
      requires Valid()
      modifies this
      ensures Valid() && Did(Projects.MarkPartUploaded(old(View()), part, path, size), old(View()), View(), refused)
    {
      hide I.Inv, Linked;
      if !(exists u ::
             u in sessions && exists i :: 0 <= i < |sessions[u].parts| && Awaits(sessions[u].parts[i], part))
      {
        return Some(Conflict);
      }
      I.MarkInv(View(), part, path, size);
      StillConsistent(Projects.MarkPartUploaded(View(), part, path, size).value);
      sessions := map u | u in sessions :: sessions[u].(parts := MarkParts(sessions[u].parts, part, path, size));
      refused := None;
    }

    /** One part after another is given its blob and its row; nothing is written unless all of them can be. */
    method FinalizeUpload(p: Id, u: Id, paths: map<Id, string>, now: int) returns (refused: Option<Refusal>)
      requires Valid()
      modifies this
      ensures Valid() && Did(Projects.FinalizeUpload(old(View()), p, u, paths, now), old(View()), View(), refused)
    {
      if u !in sessions || sessions[u].project != p {
        return Some(NotFound);
      }
      var upload := sessions[u];
      if upload.state != Open || upload.expiresAt <= now {
        return Some(Conflict);
      }
      assert upload.snapshot in snapshots && p in projects;
      hide I.Inv, Linked;
      if Closed(projects[p].state) {
        return Some(Conflict);
      }
      if exists i :: 0 <= i < |upload.parts| && !upload.parts[i].uploaded {
        return Some(Conflict);
      }
      var stored, files := blobs, snapshots[upload.snapshot].files;
      hide Stored, Placed;
      PartsStart(blobs, files, p, upload.parts, paths);
      for i := 0 to |upload.parts|
        invariant View() == old(View())
        invariant AllPathed(upload.parts[..i], paths)
        invariant stored == Stored(blobs, p, upload.parts[..i], paths)
        invariant files == Placed(snapshots[upload.snapshot].files, p, upload.parts[..i])
      {
        var part := upload.parts[i];
        if part.id !in paths {
          assert !AllPathed(upload.parts, paths);
          return Some(Conflict);
        }
        PartsNext(blobs, snapshots[upload.snapshot].files, p, upload.parts, paths, i);
        if (p, part.sha256) !in stored {
          stored := stored[(p, part.sha256) := Blob(part.size, paths[part.id])];
        }
        files := files[part.name := File(p, part.mediaType, part.size, part.sha256, "uploaded", 0, None)];
      }
      assert upload.parts[..|upload.parts|] == upload.parts;
      I.FinalizeInv(View(), p, u, paths, now);
      StillConsistent(Projects.FinalizeUpload(View(), p, u, paths, now).value);
      blobs := stored;
      snapshots := snapshots[upload.snapshot := snapshots[upload.snapshot].(files := files)];
      sessions := sessions[u := upload.(state := Finalized)];
      refused := None;
    }

    method DeleteFile(p: Id, d: Id, name: string) returns (refused: Option<Refusal>)
      requires Valid()
      modifies this
      ensures Valid() && Did(Projects.DeleteFile(old(View()), p, d, name), old(View()), View(), refused)
    {
      hide I.Inv, Linked, DraftOf;
      if p !in projects {
        return Some(NotFound);
      }
      if Closed(projects[p].state) {
        return Some(Conflict);
      }
      var draft := FindDraft(p);
      if draft.None? {
        return Some(Conflict);
      }
      if draft.value != d || name !in snapshots[d].files {
        return Some(NotFound);
      }
      I.DeleteInv(View(), p, d, name);
      StillConsistent(Projects.DeleteFile(View(), p, d, name).value);
      snapshots := snapshots[d := snapshots[d].(files := snapshots[d].files - {name})];
      refused := None;
    }

    method CleanupExpiredUploads(now: int)
      requires Valid()
      modifies this
      ensures Valid() && View() == Projects.CleanupExpiredUploads(old(View()), now)
    {
      hide I.Inv, Linked;
      I.CleanupInv(View(), now);
      StillConsistent(Projects.CleanupExpiredUploads(View(), now));
      sessions :=
        map u | u in sessions ::
          if sessions[u].state == Open && sessions[u].expiresAt < now then sessions[u].(state := Expired)
          else sessions[u];
    }

    // ----- builds -----

    method SubmitBuild(p: Id, j: Id, now: int) returns (refused: Option<Refusal>)
      requires Valid() && j !in jobs
      modifies this
      ensures Valid() && Did(Projects.SubmitBuild(old(View()), p, j, now), old(View()), View(), refused)
    {
      hide I.Inv, Linked, DraftOf;
      if p !in projects {
        return Some(NotFound);
      }
      if Closed(projects[p].state) {
        return Some(Conflict);
      }
      var draft := FindDraft(p);
      if draft.None? {
        return Some(Conflict);
      }
      var d := draft.value;
      if exists u ::
          u in sessions && sessions[u].project == p && sessions[u].snapshot == d && sessions[u].state == Open
      {
        return Some(Conflict);
      }
      if snapshots[d].files == map[] {
        return Some(Conflict);
      }
      I.SubmitInv(View(), p, j, now);
      StillConsistent(Projects.SubmitBuild(View(), p, j, now).value);
      jobs := jobs[j := Job(p, d, JobQueued, projects[p].generation, now, None, None)];
      snapshots := snapshots[d := snapshots[d].(status := Sealed, files := Moved(snapshots[d].files, "queued", 5))];
      projects := projects[p := projects[p].(state := Queued)];
      refused := None;
    }

    /** Nothing while some build runs; otherwise the job that has waited longest, if any waits. */
    method ClaimBuild() returns (claimed: Option<BuildRecord>)
      requires Valid()
      modifies this
      ensures Valid()
      ensures claimed.None? ==>
                && View() == old(View())
                && (!NothingBuilding(View()) || forall j :: j in jobs ==> jobs[j].status != JobQueued)
      ensures claimed.Some? ==>
                var b := claimed.value;
                && NothingBuilding(old(View())) && OldestQueued(old(View()), b.id)
                && old(jobs[b.id].project in projects && jobs[b.id].snapshot in snapshots)
                && View() == Projects.ClaimBuild(old(View()), b.id) && I.Holds(View(), b)
    {
      if exists j :: j in jobs && jobs[j].status == JobBuilding {
        return None;
      }
      var row := FindOldest();
      if row.None? {
        return None;
      }
      var j := row.value;
      var job := jobs[j];
      assert job.project in projects && job.snapshot in snapshots;
      I.ClaimInv(View(), j);
      hide I.Inv, Linked;
      StillConsistent(Projects.ClaimBuild(View(), j));
      jobs := jobs[j := job.(status := JobBuilding)];
      projects := projects[job.project := projects[job.project].(state := Building)];
      var files := Moved(snapshots[job.snapshot].files, "validating", 15);
      snapshots := snapshots[job.snapshot := snapshots[job.snapshot].(files := files)];
      claimed := Some(BuildRecord(j, job.project, job.snapshot, job.expectedGeneration));
    }

    method FindOldest() returns (row: Option<Id>)
      ensures row.Some? ==> OldestQueued(View(), row.value)
      ensures row.None? ==> forall j :: j in jobs ==> jobs[j].status != JobQueued
    {
      row := None;
      var rest := jobs.Keys;
      while rest != {}
        invariant rest <= jobs.Keys
        invariant row.Some? ==> row.value in jobs && jobs[row.value].status == JobQueued
        invariant forall j :: j in jobs && j !in rest && jobs[j].status == JobQueued ==>
                                row.Some? && jobs[row.value].createdAt <= jobs[j].createdAt
        decreases |rest|
      {
        var j :| j in rest;
        rest := rest - {j};
        if jobs[j].status == JobQueued && (row.None? || jobs[j].createdAt < jobs[row.value].createdAt) {
          row := Some(j);
        }
      }
    }

    method UpdateFileLifecycle(d: Id, lifecycle: string, progress: nat)
      requires Valid()
      modifies this
      ensures Valid() && View() == Projects.UpdateFileLifecycle(old(View()), d, lifecycle, progress)
    {
      hide I.Inv, Linked;
      I.LifecycleInv(View(), d, lifecycle, progress);
      StillConsistent(Projects.UpdateFileLifecycle(View(), d, lifecycle, progress));
      if d in snapshots {
        snapshots := snapshots[d := snapshots[d].(files := Moved(snapshots[d].files, lifecycle, progress))];
      }
    }

    method CompleteBuild(b: BuildRecord, version: string, count: nat, draft: Id, now: int)
      returns (refused: Option<Refusal>)
      requires Valid() && draft !in snapshots
      modifies this
      ensures Did(Projects.CompleteBuild(old(View()), b, version, count, draft, now), old(View()), View(), refused)
      ensures old(I.Holds(View(), b)) ==> Valid() && refused == None
    {
      hide I.Inv, Linked, I.Holds;
      if I.Holds(View(), b) {
        I.CompleteInv(View(), b, version, count, draft, now);
        StillConsistent(Projects.CompleteBuild(View(), b, version, count, draft, now).value);
      }
      if b.project !in projects {
        return Some(NotFound);
      }
      var project := projects[b.project];
      if project.generation != b.expectedGeneration {
        return Some(Conflict);
      }
      if b.id !in jobs || b.snapshot !in snapshots || jobs[b.id].status != JobBuilding {
        return Some(Conflict);
      }
      var built := snapshots[b.snapshot];
      snapshots := map d | d in snapshots ::
          if snapshots[d].project == b.project && snapshots[d].status == Active then snapshots[d].(status := Validated)
          else snapshots[d];
      projects :=
        projects[b.project :=
          project.(activeSnapshot := Some(b.snapshot), activeGraphVersion := Some(version),
                   activeDocumentCount := count,
                   generation := project.generation + 1, state := Ready)];
      jobs := jobs[b.id := jobs[b.id].(status := JobReady, graphVersion := Some(version))];
      snapshots := snapshots[b.snapshot := built.(status := Active, files := Moved(built.files, "ready", 100))];
      snapshots := snapshots[draft := Snapshot(b.project, Editable, now, Copied(built.files, b.project))];
      refused := None;
    }

    method FailBuild(b: BuildRecord, code: string) returns (refused: Option<Refusal>)
      requires Valid()
      modifies this
      ensures Did(Projects.FailBuild(old(View()), b, code), old(View()), View(), refused)
      ensures old(I.Holds(View(), b)) ==> Valid() && refused == None
    {
      hide I.Inv, Linked;
      if I.Holds(View(), b) {
        I.FailKeeps(View(), b, code);
        StillConsistent(Projects.FailBuild(View(), b, code).value);
      }
      if b.project !in projects {
        return Some(NotFound);
      }
      if b.id in jobs {
        jobs := jobs[b.id := jobs[b.id].(status := JobFailed, error := Some(code))];
      }
      if b.snapshot in snapshots {
        var files := Flagged(snapshots[b.snapshot].files, code);
        snapshots := snapshots[b.snapshot := snapshots[b.snapshot].(status := Editable, files := files)];
      }
      var state := if Truthy(projects[b.project].activeGraphVersion) then Ready else Failed;
      projects := projects[b.project := projects[b.project].(state := state)];
      refused := None;
    }

    method RecoverBuilds()
      requires Valid()
      modifies this
      ensures Valid() && View() == Projects.RecoverBuilds(old(View())) && NothingBuilding(View())
    {
      RecoveredConsistent(View());
      RecoveredIs(View());
      hide I.Inv, Linked, Consistent, NothingBuilding, RequeuedIn, RelabelledIn, IdleIn, InterruptedIn, WaitingIn,
           Projects.RecoverBuilds;
      var interrupted := InterruptedIn(jobs);
      jobs := RequeuedIn(jobs);
      var waiting := WaitingIn(jobs);
      snapshots := RelabelledIn(snapshots, waiting);
      projects := IdleIn(projects, interrupted);
    }
  }

  function RequeuedIn(jobs: map<Id, Job>): map<Id, Job> {
    map j | j in jobs :: if jobs[j].status == JobBuilding then jobs[j].(status := JobQueued) else jobs[j]
  }

  function RelabelledIn(snapshots: map<Id, Snapshot>, waiting: set<Id>): map<Id, Snapshot> {
    map d | d in snapshots ::
      if d in waiting then snapshots[d].(files := Moved(snapshots[d].files, "queued", 5)) else snapshots[d]
  }

  function IdleIn(projects: map<Id, Project>, interrupted: set<Id>): map<Id, Project> {
    map p | p in projects :: if p in interrupted then projects[p].(state := Queued) else projects[p]
  }

  /** The three updates, one after another, are what recovery does. */
  lemma RecoveredIs(s: Tables)
    ensures
      Projects.RecoverBuilds(s) ==
      s.(jobs := RequeuedIn(s.jobs), snapshots := RelabelledIn(s.snapshots, WaitingIn(RequeuedIn(s.jobs))),
         projects := IdleIn(s.projects, InterruptedIn(s.jobs)))
  {
    InterruptedAre(s);
    WaitingAre(s, RequeuedIn(s.jobs));
    hide InterruptedIn, WaitingIn, HasLive, HasBuilding, Moved;
  }

  lemma RecoveredConsistent(s: Tables)
    requires Consistent(s)
    ensures Consistent(Projects.RecoverBuilds(s)) && NothingBuilding(Projects.RecoverBuilds(s))
  {
    R.RecoverInv(s);
    StillConsistent(Projects.RecoverBuilds(s));
  }

  function InterruptedIn(jobs: map<Id, Job>): set<Id> {
    set j | j in jobs && jobs[j].status == JobBuilding :: jobs[j].project
  }

  function WaitingIn(jobs: map<Id, Job>): set<Id> {
    set j | j in jobs && jobs[j].status == JobQueued :: jobs[j].snapshot
  }

  lemma InterruptedAre(s: Tables)
    ensures forall p :: p in InterruptedIn(s.jobs) <==> HasBuilding(s, p)
  {
  }

  /** Once the interrupted jobs are queued again, the waiting snapshots are those of the jobs that were live. */
  lemma WaitingAre(s: Tables, jobs: map<Id, Job>)
    requires jobs == RequeuedIn(s.jobs)
    ensures forall d :: d in WaitingIn(jobs) <==> HasLive(s, d)
  {
    forall d
      ensures d in WaitingIn(jobs) <==> HasLive(s, d)
    {
      if HasLive(s, d) {
        var j :| j in s.jobs && s.jobs[j].snapshot == d && Live(s.jobs[j].status);
        assert j in jobs && jobs[j].snapshot == d && jobs[j].status == JobQueued;
      }
    }
  }

  lemma PartsStart(
    blobs: map<(Id, string), Blob>, files: map<string, File>, p: Id, parts: seq<Part>, paths: map<Id, string>)
    ensures AllPathed(parts[..0], paths) && Stored(blobs, p, parts[..0], paths) == blobs
    ensures Placed(files, p, parts[..0]) == files
  {
  }

  lemma PartsNext(
    blobs: map<(Id, string), Blob>, files: map<string, File>, p: Id, parts: seq<Part>, paths: map<Id, string>, i: nat)
    requires i < |parts| && AllPathed(parts[..i], paths) && parts[i].id in paths
    ensures AllPathed(parts[..i + 1], paths)
    ensures
      var before, part := Stored(blobs, p, parts[..i], paths), parts[i];
      Stored(blobs, p, parts[..i + 1], paths) ==
      if (p, part.sha256) in before then before else before[(p, part.sha256) := Blob(part.size, paths[part.id])]
    ensures
      var part := parts[i];
      Placed(files, p, parts[..i + 1]) ==
      Placed(files, p, parts[..i])[part.name := File(p, part.mediaType, part.size, part.sha256, "uploaded", 0, None)]
  {
    assert parts[..i + 1][..i] == parts[..i];
  }

  // ----- the worker -----

  /** What came of running a build: a graph version and a document count, or an exception's code. */
  datatype Outcome = Built(version: string, count: nat) | Raised(code: string)

  /** One turn of the worker's loop. A build it claims ends ready or failed, and completing it is never refused. */
  method Turn(repository: Repository, phases: seq<(string, nat)>, outcome: Outcome, draft: Id, now: int)
    returns (worked: Option<BuildRecord>)
    requires repository.Valid() && draft !in repository.snapshots
    modifies repository
    ensures repository.Valid()
    ensures worked.None? ==> repository.View() == old(repository.View())
    ensures worked.Some? ==>
              var b := worked.value;
              && old(OldestQueued(repository.View(), b.id))
              && Ended(repository.View(), b, if outcome.Built? then JobReady else JobFailed)
  {
    var claimed := repository.ClaimBuild();
    if claimed.None? {
      return None;
    }
    var b := claimed.value;
    assert draft !in repository.snapshots;
    hide I.Inv, Linked, NothingBuilding, OldestQueued, Moved, Copied, Flagged;
    for i := 0 to |phases|
      invariant repository.Valid() && I.Holds(repository.View(), b) && draft !in repository.snapshots
    {
      repository.UpdateFileLifecycle(b.snapshot, phases[i].0, phases[i].1);
    }
    OnlyOne(repository.View(), b);
    match outcome {
      case Built(version, count) =>
        CompletingEndsIt(repository.View(), b, version, count, draft, now);
        var refused := repository.CompleteBuild(b, version, count, draft, now);
      case Raised(code) =>
        FailingEndsIt(repository.View(), b, code);
        var refused := repository.FailBuild(b, code);
    }
    worked := Some(b);
  }

  ghost predicate Ended(s: Tables, b: BuildRecord, status: JobStatus) {
    b.id in s.jobs && s.jobs[b.id].status == status && NothingBuilding(s)
  }

  lemma CompletingEndsIt(s: Tables, b: BuildRecord, version: string, count: nat, draft: Id, now: int)
    requires I.Inv(s) && I.Holds(s, b)
    ensures
      var r := CompleteBuild(s, b, version, count, draft, now);
      r.Ok? && Ended(r.value, b, JobReady)
  {
    I.HeldBuildCompletes(s, b, version, count, draft, now);
    OnlyOne(s, b);
    hide I.Inv, Moved, Copied, Retired;
  }

  lemma FailingEndsIt(s: Tables, b: BuildRecord, code: string)
    requires I.Inv(s) && I.Holds(s, b)
    ensures
      var r := FailBuild(s, b, code);
      r.Ok? && Ended(r.value, b, JobFailed)
  {
    OnlyOne(s, b);
    hide I.Inv, Flagged;
  }

  lemma OnlyOne(s: Tables, b: BuildRecord)
    requires I.Inv(s) && I.Holds(s, b)
    ensures forall j :: j in s.jobs && s.jobs[j].status == JobBuilding ==> j == b.id
    ensures b.project in s.projects
  {
    I.HeldBuildCompletes(s, b, "", 0, "", 0);
  }
}
