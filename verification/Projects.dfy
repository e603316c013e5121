/** Projects, their file snapshots and their builds: the tables, and what each repository operation does to them. */
module Projects {
  import opened Wrappers

  type Id = string

  datatype ProjectState = Draft | Queued | Building | Ready | Failed | Archived

  datatype Project = Project(
    state: ProjectState, archivedAt: Option<int>, activeSnapshot: Option<Id>, activeGraphVersion: Option<string>,
    activeDocumentCount: nat, generation: nat)

  datatype SnapshotStatus = Editable | Sealed | Active | Validated

  datatype File = File(
    project: Id, mediaType: string, size: nat, sha256: string, lifecycle: string, progress: nat, error: Option<string>)

  /** A snapshot row with its file rows; the logical filename is unique in a snapshot. */
  datatype Snapshot = Snapshot(project: Id, status: SnapshotStatus, createdAt: int, files: map<string, File>)

  datatype Blob = Blob(size: nat, path: string)

  datatype Part = Part(
    id: Id, name: string, mediaType: string, size: nat, sha256: string, uploaded: bool, tempPath: Option<string>,
    received: Option<nat>)

  datatype SessionState = Open | Finalized | Expired

  datatype Session = Session(project: Id, snapshot: Id, state: SessionState, expiresAt: int, parts: seq<Part>)

  datatype JobStatus = JobQueued | JobBuilding | JobReady | JobFailed

  datatype Job = Job(
    project: Id, snapshot: Id, status: JobStatus, expectedGeneration: nat, createdAt: int, graphVersion: Option<string>,
    error: Option<string>)

  /** What a claim hands to the worker. */
  datatype BuildRecord = BuildRecord(id: Id, project: Id, snapshot: Id, expectedGeneration: nat)

  datatype Tables = Tables(
    projects: map<Id, Project>, snapshots: map<Id, Snapshot>, jobs: map<Id, Job>, sessions: map<Id, Session>,
    blobs: map<(Id, string), Blob>)

  datatype Refusal = NotFound | Conflict

  const EMPTY := Tables(map[], map[], map[], map[], map[])

  /** The foreign keys of the tables. */
  ghost predicate Linked(s: Tables) {
    && (forall d :: d in s.snapshots ==> s.snapshots[d].project in s.projects)
    && (forall j :: j in s.jobs ==>
          && s.jobs[j].project in s.projects && s.jobs[j].snapshot in s.snapshots
          && s.snapshots[s.jobs[j].snapshot].project == s.jobs[j].project)
    && (forall u :: u in s.sessions ==>
          && s.sessions[u].project in s.projects && s.sessions[u].snapshot in s.snapshots
          && s.snapshots[s.sessions[u].snapshot].project == s.sessions[u].project)
  }

  predicate Busy(state: ProjectState) { state == Queued || state == Building }

  predicate Closed(state: ProjectState) { Busy(state) || state == Archived }

  predicate Live(status: JobStatus) { status == JobQueued || status == JobBuilding }

  predicate Truthy(version: Option<string>) { version.Some? && version.value != "" }

  // ----- queries -----

  predicate EditableOf(s: Tables, p: Id, d: Id) {
    d in s.snapshots && s.snapshots[d].project == p && s.snapshots[d].status == Editable
  }

  ghost predicate LatestEditable(s: Tables, p: Id, d: Id) {
    EditableOf(s, p, d) && forall e :: EditableOf(s, p, e) ==> s.snapshots[e].createdAt <= s.snapshots[d].createdAt
  }

  /** The editable snapshot created last. */
  ghost function DraftOf(s: Tables, p: Id): Option<Id> {
    if d :| LatestEditable(s, p, d) then Some(d) else None
  }

  ghost predicate OldestQueued(s: Tables, j: Id) {
    && j in s.jobs && s.jobs[j].status == JobQueued
    && forall k :: k in s.jobs && s.jobs[k].status == JobQueued ==> s.jobs[j].createdAt <= s.jobs[k].createdAt
  }

  ghost predicate NothingBuilding(s: Tables) { forall j :: j in s.jobs ==> s.jobs[j].status != JobBuilding }

  /** The file rows of a snapshot joined with the blobs that hold their bytes. */
  ghost function SnapshotFiles(s: Tables, d: Id): map<string, (File, string)>
    requires d in s.snapshots
  {
    var files := s.snapshots[d].files;
    map n | n in files && (files[n].project, files[n].sha256) in s.blobs ::
      (files[n], s.blobs[(files[n].project, files[n].sha256)].path)
  }

  // ----- projects -----

  function CreateProject(s: Tables, p: Id, d: Id, now: int): Tables {
    s.(projects := s.projects[p := Project(Draft, None, None, None, 0, 0)],
       snapshots := s.snapshots[d := Snapshot(p, Editable, now, map[])])
  }

  function Archive(s: Tables, p: Id, now: int): Result<Tables, Refusal> {
    if p !in s.projects then Err(NotFound)
    else if Busy(s.projects[p].state) then Err(Conflict)
    else Ok(s.(projects := s.projects[p := s.projects[p].(state := Archived, archivedAt := Some(now))]))
  }

  function Restore(s: Tables, p: Id, now: int, retention: int): Result<Tables, Refusal> {
    if p !in s.projects then Err(NotFound)
    else
      var project := s.projects[p];
      if project.state != Archived || project.archivedAt.None? then Err(Conflict)
      else if project.archivedAt.value < now - retention then Err(Conflict)
      else
        Ok(s.(projects :=
                s.projects[p := project.(
                             state := if Truthy(project.activeGraphVersion) then Ready else Draft,
                             archivedAt := None)]))
  }

  /** The project goes, with everything that refers to it. */
  function PurgeExpired(s: Tables, p: Id, now: int, retention: int): Result<Tables, Refusal> {
    if p !in s.projects then Err(NotFound)
    else
      var project := s.projects[p];
      if project.state != Archived || project.archivedAt.None? || project.archivedAt.value > now - retention then
        Err(Conflict)
      else
        Ok(Tables(
             s.projects - {p},
             map d | d in s.snapshots && s.snapshots[d].project != p :: s.snapshots[d],
             map j | j in s.jobs && s.jobs[j].project != p :: s.jobs[j],
             map u | u in s.sessions && s.sessions[u].project != p :: s.sessions[u],
             map b | b in s.blobs && b.0 != p :: s.blobs[b]))
  }

  // ----- uploads -----

  ghost function CreateUploadSession(s: Tables, p: Id, u: Id, parts: seq<Part>, expiresAt: int): Result<Tables, Refusal>
  {
    if p !in s.projects then Err(NotFound)
    else if Closed(s.projects[p].state) then Err(Conflict)
    else
      match DraftOf(s, p)
      case None => Err(Conflict)
      case Some(d) => Ok(s.(sessions := s.sessions[u := Session(p, d, Open, expiresAt, parts)]))
  }

  predicate Awaits(part: Part, id: Id) { part.id == id && !part.uploaded }

  function MarkParts(parts: seq<Part>, id: Id, path: string, size: nat): seq<Part> {
    if parts == [] then []
    else
      var part := parts[|parts| - 1];
      MarkParts(parts[..|parts| - 1], id, path, size)
      + [if Awaits(part, id) then part.(uploaded := true, tempPath := Some(path), received := Some(size)) else part]
  }

  predicate SomePartAwaits(s: Tables, id: Id) {
    exists u :: u in s.sessions && exists i :: 0 <= i < |s.sessions[u].parts| && Awaits(s.sessions[u].parts[i], id)
  }

  function MarkPartUploaded(s: Tables, id: Id, path: string, size: nat): Result<Tables, Refusal> {
    if !SomePartAwaits(s, id) then Err(Conflict)
    else
      Ok(s.(sessions :=
              map u | u in s.sessions :: s.sessions[u].(parts := MarkParts(s.sessions[u].parts, id, path, size))))
  }

  /** The blobs after the first parts of an upload: an existing blob stays as it is. */
  function Stored(
    blobs: map<(Id, string), Blob>, p: Id, parts: seq<Part>, paths: map<Id, string>): map<(Id, string), Blob>
    requires forall i :: 0 <= i < |parts| ==> parts[i].id in paths
  {
    if parts == [] then blobs
    else
      var part := parts[|parts| - 1];
      var before := Stored(blobs, p, parts[..|parts| - 1], paths);
      if (p, part.sha256) in before then before else before[(p, part.sha256) := Blob(part.size, paths[part.id])]
  }

  /** The files after the first parts of an upload: a part replaces the row of the same name. */
  function Placed(files: map<string, File>, p: Id, parts: seq<Part>): map<string, File> {
    if parts == [] then files
    else
      var part := parts[|parts| - 1];
      var file := File(p, part.mediaType, part.size, part.sha256, "uploaded", 0, None);
      Placed(files, p, parts[..|parts| - 1])[part.name := file]
  }

  predicate AllUploaded(parts: seq<Part>) { forall i :: 0 <= i < |parts| ==> parts[i].uploaded }

  predicate AllPathed(parts: seq<Part>, paths: map<Id, string>) {
    forall i :: 0 <= i < |parts| ==> parts[i].id in paths
  }

  ghost function FinalizeUpload(s: Tables, p: Id, u: Id, paths: map<Id, string>, now: int): Result<Tables, Refusal>
    requires Linked(s)
  {
    if u !in s.sessions || s.sessions[u].project != p then Err(NotFound)
    else
      var session := s.sessions[u];
      if session.state != Open || session.expiresAt <= now then Err(Conflict)
      else if Closed(s.projects[p].state) then Err(Conflict)
      else if !AllUploaded(session.parts) || !AllPathed(session.parts, paths) then Err(Conflict)
      else
        var d := s.snapshots[session.snapshot];
        Ok(s.(blobs := Stored(s.blobs, p, session.parts, paths),
              snapshots := s.snapshots[session.snapshot := d.(files := Placed(d.files, p, session.parts))],
              sessions := s.sessions[u := session.(state := Finalized)]))
  }

  function CleanupExpiredUploads(s: Tables, now: int): Tables {
    s.(sessions :=
         map u | u in s.sessions ::
           if s.sessions[u].state == Open && s.sessions[u].expiresAt < now then s.sessions[u].(state := Expired)
           else s.sessions[u])
  }

  ghost function DeleteFile(s: Tables, p: Id, snapshot: Id, name: string): Result<Tables, Refusal> {
    if p !in s.projects then Err(NotFound)
    else if Closed(s.projects[p].state) then Err(Conflict)
    else
      match DraftOf(s, p)
      case None => Err(Conflict)
      case Some(d) =>
        if d !in s.snapshots || d != snapshot || name !in s.snapshots[d].files then Err(NotFound)
        else Ok(s.(snapshots := s.snapshots[d := s.snapshots[d].(files := s.snapshots[d].files - {name})]))
  }

  // ----- builds -----

  /** Every file row of a snapshot moves to a lifecycle status. */
  function Moved(files: map<string, File>, lifecycle: string, progress: nat): map<string, File> {
    map n | n in files :: files[n].(lifecycle := lifecycle, progress := progress, error := None)
  }

  predicate OpenUploads(s: Tables, p: Id, d: Id) {
    exists u ::
      u in s.sessions && s.sessions[u].project == p && s.sessions[u].snapshot == d && s.sessions[u].state == Open
  }

  ghost function SubmitBuild(s: Tables, p: Id, j: Id, now: int): Result<Tables, Refusal> {
    if p !in s.projects then Err(NotFound)
    else if Closed(s.projects[p].state) then Err(Conflict)
    else
      match DraftOf(s, p)
      case None => Err(Conflict)
      case Some(d) =>
        if d !in s.snapshots || OpenUploads(s, p, d) || s.snapshots[d].files == map[] then Err(Conflict)
        else
          Ok(s.(jobs := s.jobs[j := Job(p, d, JobQueued, s.projects[p].generation, now, None, None)],
                snapshots := s.snapshots[d := s.snapshots[d].(
                                           status := Sealed, files := Moved(s.snapshots[d].files, "queued", 5))],
                projects := s.projects[p := s.projects[p].(state := Queued)]))
  }

  /** The chosen job starts building. */
  function ClaimBuild(s: Tables, j: Id): Tables
    requires j in s.jobs && s.jobs[j].project in s.projects && s.jobs[j].snapshot in s.snapshots
  {
    var job := s.jobs[j];
    var d := s.snapshots[job.snapshot];
    s.(jobs := s.jobs[j := job.(status := JobBuilding)],
       projects := s.projects[job.project := s.projects[job.project].(state := Building)],
       snapshots := s.snapshots[job.snapshot := d.(files := Moved(d.files, "validating", 15))])
  }

  function RecordOf(j: Id, job: Job): BuildRecord { BuildRecord(j, job.project, job.snapshot, job.expectedGeneration) }

  function UpdateFileLifecycle(s: Tables, d: Id, lifecycle: string, progress: nat): Tables {
    if d in s.snapshots then
      var files := Moved(s.snapshots[d].files, lifecycle, progress);
      s.(snapshots := s.snapshots[d := s.snapshots[d].(files := files)])
    else s
  }

  function Retired(s: Tables, p: Id): map<Id, Snapshot> {
    map d | d in s.snapshots ::
      if s.snapshots[d].project == p && s.snapshots[d].status == Active then s.snapshots[d].(status := Validated)
      else s.snapshots[d]
  }

  /** The copies a fresh draft starts with. */
  function Copied(files: map<string, File>, p: Id): map<string, File> {
    map n | n in files :: File(p, files[n].mediaType, files[n].size, files[n].sha256, "ready", 100, None)
  }

  predicate Completable(s: Tables, b: BuildRecord)
    requires b.project in s.projects
  {
    && s.projects[b.project].generation == b.expectedGeneration
    && b.id in s.jobs && b.snapshot in s.snapshots && s.jobs[b.id].status == JobBuilding
  }

  /** The built snapshot becomes the active one, and a fresh draft starts with copies of its files. */
  function CompleteBuild(
    s: Tables, b: BuildRecord, version: string, count: nat, draft: Id, now: int): Result<Tables, Refusal>
  {
    if b.project !in s.projects then Err(NotFound)
    else if !Completable(s, b) then Err(Conflict)
    else
      var project, built := s.projects[b.project], s.snapshots[b.snapshot];
      Ok(s.(snapshots :=
              Retired(s, b.project)
              [b.snapshot := built.(status := Active, files := Moved(built.files, "ready", 100))]
              [draft := Snapshot(b.project, Editable, now, Copied(built.files, b.project))],
            projects :=
              s.projects[b.project :=
                project.(activeSnapshot := Some(b.snapshot), activeGraphVersion := Some(version),
                         activeDocumentCount := count,
                         generation := project.generation + 1, state := Ready)],
            jobs := s.jobs[b.id := s.jobs[b.id].(status := JobReady, graphVersion := Some(version))]))
  }

  function Flagged(files: map<string, File>, code: string): map<string, File> {
    map n | n in files :: files[n].(lifecycle := "failed", error := Some(code))
  }

  /** The snapshot is open for editing again. Nothing checks what state the job was in. */
  function FailBuild(s: Tables, b: BuildRecord, code: string): Result<Tables, Refusal> {
    if b.project !in s.projects then Err(NotFound)
    else
      var project := s.projects[b.project];
      Ok(s.(jobs := if b.id in s.jobs then s.jobs[b.id := s.jobs[b.id].(status := JobFailed, error := Some(code))]
            else s.jobs,
            snapshots :=
              if b.snapshot in s.snapshots
              then s.snapshots[b.snapshot := s.snapshots[b.snapshot].(
                                 status := Editable, files := Flagged(s.snapshots[b.snapshot].files, code))]
              else s.snapshots,
            projects := s.projects[b.project := project.(state := if Truthy(project.activeGraphVersion) then Ready
                                                         else Failed)]))
  }

  predicate HasBuilding(s: Tables, p: Id) {
    exists j :: j in s.jobs && s.jobs[j].project == p && s.jobs[j].status == JobBuilding
  }

  predicate HasLive(s: Tables, d: Id) { exists j :: j in s.jobs && s.jobs[j].snapshot == d && Live(s.jobs[j].status) }

  /** At start-up every interrupted build goes back into the queue. */
  function RecoverBuilds(s: Tables): Tables {
    s.(jobs := map j | j in s.jobs ::
         if s.jobs[j].status == JobBuilding then s.jobs[j].(status := JobQueued) else s.jobs[j],
       snapshots :=
         map d | d in s.snapshots ::
           if HasLive(s, d) then s.snapshots[d].(files := Moved(s.snapshots[d].files, "queued", 5)) else s.snapshots[d],
       projects := map p | p in s.projects ::
         if HasBuilding(s, p) then s.projects[p].(state := Queued) else s.projects[p])
  }
}
