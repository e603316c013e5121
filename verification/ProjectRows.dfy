/** What each repository operation does, row by row and field by field: when it is refused, what changes, what stays. */
module ProjectRows {
  import opened Wrappers
  import opened Projects
  import opened Rows

  // ----- rows -----

  /** The same file, with other labels. */
  ghost predicate SameFile(x: File, y: File) {
    y.project == x.project && y.mediaType == x.mediaType && y.size == x.size && y.sha256 == x.sha256
  }

  ghost predicate Labelled(before: map<string, File>, after: map<string, File>, lifecycle: string, progress: nat) {
    && (forall n :: n in after <==> n in before)
    && forall n :: n in before ==>
                     SameFile(before[n], after[n])
                     && after[n].lifecycle == lifecycle && after[n].progress == progress && after[n].error == None
  }

  /** The active snapshot, its graph and the generation stay. */
  ghost predicate SameActive(x: Project, y: Project) {
    && y.activeSnapshot == x.activeSnapshot && y.activeGraphVersion == x.activeGraphVersion
    && y.activeDocumentCount == x.activeDocumentCount && y.generation == x.generation
  }

  /** Neither building nor waiting to, nor archived. */
  ghost predicate OpenForEditing(s: Tables, p: Id) {
    p in s.projects && s.projects[p].state in {Draft, Ready, Failed}
  }

  /** `d` is an editable snapshot of the project, and none was created later. */
  ghost predicate IsDraft(s: Tables, p: Id, d: Id) {
    && d in s.snapshots && s.snapshots[d].project == p && s.snapshots[d].status == Editable
    && forall e :: e in s.snapshots && s.snapshots[e].project == p && s.snapshots[e].status == Editable ==>
                     s.snapshots[e].createdAt <= s.snapshots[d].createdAt
  }

  lemma DraftRows(s: Tables, p: Id)
    ensures DraftOf(s, p).Some? ==> IsDraft(s, p, DraftOf(s, p).value)
    ensures DraftOf(s, p).None? ==> forall d :: !IsDraft(s, p, d)
  {
    forall d
      ensures IsDraft(s, p, d) <==> LatestEditable(s, p, d)
    {
    }
  }

  // ----- projects -----

  lemma CreateProjectRows(s: Tables, p: Id, d: Id, now: int)
    ensures
      var t := CreateProject(s, p, d, now);
      && OnlyRow(s.projects, t.projects, p) && OnlyRow(s.snapshots, t.snapshots, d)
      && t.jobs == s.jobs && t.sessions == s.sessions && t.blobs == s.blobs
      && var project, snapshot := t.projects[p], t.snapshots[d];
      && project.state == Draft && project.archivedAt == None && project.activeSnapshot == None
      && project.activeGraphVersion == None && project.activeDocumentCount == 0 && project.generation == 0
      && snapshot.project == p && snapshot.status == Editable && snapshot.createdAt == now && snapshot.files == map[]
  {
  }

  lemma ArchiveRows(s: Tables, p: Id, now: int)
    ensures
      var r := Archive(s, p, now);
      && (r == Err(NotFound) <==> p !in s.projects)
      && (r.Ok? <==> p in s.projects && s.projects[p].state !in {Queued, Building})
      && (r.Ok? ==>
            var t := r.value;
            && OnlyRow(s.projects, t.projects, p) && SameActive(s.projects[p], t.projects[p])
            && t.projects[p].state == Archived && t.projects[p].archivedAt == Some(now)
            && t.snapshots == s.snapshots && t.jobs == s.jobs && t.sessions == s.sessions && t.blobs == s.blobs)
  {
  }

  lemma RestoreRows(s: Tables, p: Id, now: int, retention: int)
    ensures
      var r := Restore(s, p, now, retention);
      && (r == Err(NotFound) <==> p !in s.projects)
      && (r.Ok? <==>
            && p in s.projects && s.projects[p].state == Archived && s.projects[p].archivedAt.Some?
            && s.projects[p].archivedAt.value >= now - retention)
      && (r.Ok? ==>
            var t := r.value;
            && OnlyRow(s.projects, t.projects, p) && SameActive(s.projects[p], t.projects[p])
            && t.projects[p].archivedAt == None
            && (t.projects[p].state == Ready <==>
                s.projects[p].activeGraphVersion.Some? && s.projects[p].activeGraphVersion.value != "")
            && t.projects[p].state in {Ready, Draft}
            && t.snapshots == s.snapshots && t.jobs == s.jobs && t.sessions == s.sessions && t.blobs == s.blobs)
  {
  }

  /** The rows that do not refer to the project. */
  ghost predicate Without(s: Tables, t: Tables, p: Id) {
    && (forall q :: q in t.projects <==> q in s.projects && q != p)
    && (forall d :: d in t.snapshots <==> d in s.snapshots && s.snapshots[d].project != p)
    && (forall j :: j in t.jobs <==> j in s.jobs && s.jobs[j].project != p)
    && (forall u :: u in t.sessions <==> u in s.sessions && s.sessions[u].project != p)
    && (forall owner, sha :: (owner, sha) in t.blobs <==> (owner, sha) in s.blobs && owner != p)
    && (forall q :: q in t.projects ==> t.projects[q] == s.projects[q])
    && (forall d :: d in t.snapshots ==> t.snapshots[d] == s.snapshots[d])
    && (forall j :: j in t.jobs ==> t.jobs[j] == s.jobs[j])
    && (forall u :: u in t.sessions ==> t.sessions[u] == s.sessions[u])
    && (forall owner, sha :: (owner, sha) in t.blobs ==> t.blobs[(owner, sha)] == s.blobs[(owner, sha)])
  }

  lemma PurgeExpiredRows(s: Tables, p: Id, now: int, retention: int)
    ensures
      var r := PurgeExpired(s, p, now, retention);
      && (r == Err(NotFound) <==> p !in s.projects)
      && (r.Ok? <==>
            && p in s.projects && s.projects[p].state == Archived && s.projects[p].archivedAt.Some?
            && s.projects[p].archivedAt.value <= now - retention)
      && (r.Ok? ==> Without(s, r.value, p))
  {
  }

  // ----- uploads -----

  lemma CreateUploadSessionRows(s: Tables, p: Id, u: Id, parts: seq<Part>, expiresAt: int)
    ensures
      var r := CreateUploadSession(s, p, u, parts, expiresAt);
      && (r == Err(NotFound) <==> p !in s.projects)
      && (r.Ok? <==> OpenForEditing(s, p) && exists d :: IsDraft(s, p, d))
      && (r.Ok? ==>
            var t := r.value;
            && OnlyRow(s.sessions, t.sessions, u) && IsDraft(s, p, t.sessions[u].snapshot)
            && t.sessions[u].project == p && t.sessions[u].state == Open
            && t.sessions[u].expiresAt == expiresAt && t.sessions[u].parts == parts
            && t.projects == s.projects && t.snapshots == s.snapshots && t.jobs == s.jobs && t.blobs == s.blobs)
  {
    DraftRows(s, p);
    hide DraftOf;
  }

  /** The part with this id that has not arrived is marked; the others stay. */
  ghost predicate Marked(before: Part, after: Part, id: Id, path: string, size: nat) {
    if before.id == id && !before.uploaded then
      && after.id == before.id && after.name == before.name && after.mediaType == before.mediaType
      && after.size == before.size && after.sha256 == before.sha256
      && after.uploaded && after.tempPath == Some(path) && after.received == Some(size)
    else after == before
  }

  lemma {:induction false} MarkedParts(parts: seq<Part>, id: Id, path: string, size: nat)
    ensures |MarkParts(parts, id, path, size)| == |parts|
    ensures forall i :: 0 <= i < |parts| ==> Marked(parts[i], MarkParts(parts, id, path, size)[i], id, path, size)
  {
    if parts != [] {
      MarkedParts(parts[..|parts| - 1], id, path, size);
    }
  }

  /** Every session keeps everything but what is marked of its parts. */
  ghost predicate SessionMarked(before: Session, after: Session, id: Id, path: string, size: nat) {
    && after.project == before.project && after.snapshot == before.snapshot && after.state == before.state
    && after.expiresAt == before.expiresAt && |after.parts| == |before.parts|
    && forall i :: 0 <= i < |before.parts| ==> Marked(before.parts[i], after.parts[i], id, path, size)
  }

  lemma MarkPartUploadedRows(s: Tables, id: Id, path: string, size: nat)
    ensures
      var r := MarkPartUploaded(s, id, path, size);
      && (r.Ok? <==>
            exists u, i :: u in s.sessions && 0 <= i < |s.sessions[u].parts|
                           && s.sessions[u].parts[i].id == id && !s.sessions[u].parts[i].uploaded)
      && (r.Err? ==> r.error == Conflict)
      && (r.Ok? ==>
            var t := r.value;
            && (forall u :: u in t.sessions <==> u in s.sessions)
            && (forall u :: u in s.sessions ==> SessionMarked(s.sessions[u], t.sessions[u], id, path, size))
            && t.projects == s.projects && t.snapshots == s.snapshots && t.jobs == s.jobs && t.blobs == s.blobs)
  {
    forall u | u in s.sessions
      ensures
        var parts := s.sessions[u].parts;
        && |MarkParts(parts, id, path, size)| == |parts|
        && forall i :: 0 <= i < |parts| ==> Marked(parts[i], MarkParts(parts, id, path, size)[i], id, path, size)
    {
      MarkedParts(s.sessions[u].parts, id, path, size);
    }
    hide MarkParts, Marked;
  }

  /** The last part of a name gives the row of that name. */
  ghost predicate PlacedBy(p: Id, parts: seq<Part>, i: nat, n: string, f: File) {
    && i < |parts| && parts[i].name == n && (forall j :: i < j < |parts| ==> parts[j].name != n)
    && f.project == p && f.mediaType == parts[i].mediaType && f.size == parts[i].size && f.sha256 == parts[i].sha256
    && f.lifecycle == "uploaded" && f.progress == 0 && f.error == None
  }

  /** Rows named by no part stay, the others come from the parts. */
  ghost predicate FilesPlaced(before: map<string, File>, after: map<string, File>, p: Id, parts: seq<Part>) {
    && (forall n :: n in after <==> n in before || exists i :: 0 <= i < |parts| && parts[i].name == n)
    && (forall n :: n in after ==>
          (n in before && after[n] == before[n] && forall i :: 0 <= i < |parts| ==> parts[i].name != n)
          || exists i :: PlacedBy(p, parts, i, n, after[n]))
  }

  lemma {:induction false} PlacedRows(files: map<string, File>, p: Id, parts: seq<Part>)
    ensures FilesPlaced(files, Placed(files, p, parts), p, parts)
  {
    if parts != [] {
      var init, last := parts[..|parts| - 1], parts[|parts| - 1];
      PlacedRows(files, p, init);
      var before, after := Placed(files, p, init), Placed(files, p, parts);
      assert forall i :: 0 <= i < |init| ==> init[i] == parts[i];
      forall n | n in after
        ensures (n in files && after[n] == files[n] && forall i :: 0 <= i < |parts| ==> parts[i].name != n)
                || exists i :: PlacedBy(p, parts, i, n, after[n])
      {
        if n == last.name {
          assert PlacedBy(p, parts, |init|, n, after[n]);
        } else if i :| PlacedBy(p, init, i, n, before[n]) {
          assert PlacedBy(p, parts, i, n, after[n]);
        }
      }
      assert parts[|init|].name == last.name;
    }
  }

  /** The first part with some content gives the blob. */
  ghost predicate StoredBy(parts: seq<Part>, paths: map<Id, string>, i: nat, sha: string, b: Blob) {
    && i < |parts| && parts[i].sha256 == sha && (forall j :: 0 <= j < i ==> parts[j].sha256 != sha)
    && parts[i].id in paths && b.size == parts[i].size && b.path == paths[parts[i].id]
  }

  /** A blob that is there stays; one comes for each new content of the project. */
  ghost predicate BlobsStored(
    before: map<(Id, string), Blob>, after: map<(Id, string), Blob>, p: Id, parts: seq<Part>, paths: map<Id, string>)
  {
    && (forall b :: b in before ==> b in after && after[b] == before[b])
    && (forall owner, sha :: (owner, sha) in after <==>
          (owner, sha) in before || (owner == p && exists i :: 0 <= i < |parts| && parts[i].sha256 == sha))
    && (forall sha :: (p, sha) in after && (p, sha) !in before ==>
          exists i :: StoredBy(parts, paths, i, sha, after[(p, sha)]))
  }

  lemma {:induction false} StoredRows(
    blobs: map<(Id, string), Blob>, p: Id, parts: seq<Part>, paths: map<Id, string>)
    requires forall i :: 0 <= i < |parts| ==> parts[i].id in paths
    ensures BlobsStored(blobs, Stored(blobs, p, parts, paths), p, parts, paths)
  {
    if parts != [] {
      var init, last := parts[..|parts| - 1], parts[|parts| - 1];
      StoredRows(blobs, p, init, paths);
      var before, after := Stored(blobs, p, init, paths), Stored(blobs, p, parts, paths);
      assert forall i :: 0 <= i < |init| ==> init[i] == parts[i];
      assert parts[|init|] == last;
      forall sha | (p, sha) in after && (p, sha) !in blobs
        ensures exists i :: StoredBy(parts, paths, i, sha, after[(p, sha)])
      {
        if (p, sha) in before {
          var i :| StoredBy(init, paths, i, sha, before[(p, sha)]);
          assert StoredBy(parts, paths, i, sha, after[(p, sha)]);
        } else {
          assert StoredBy(parts, paths, |init|, sha, after[(p, sha)]);
        }
      }
    }
  }

  /** An upload that can be finalized: open, in time, for a project open for editing, every part there with a path. */
  ghost predicate Finalizable(s: Tables, p: Id, u: Id, paths: map<Id, string>, now: int) {
    && u in s.sessions && s.sessions[u].project == p
    && s.sessions[u].state == Open && s.sessions[u].expiresAt > now && OpenForEditing(s, p)
    && forall i :: 0 <= i < |s.sessions[u].parts| ==>
                     s.sessions[u].parts[i].uploaded && s.sessions[u].parts[i].id in paths
  }

  /** The parts are files of the upload's snapshot, their contents are stored, and the upload is closed. */
  ghost predicate UploadFinalized(s: Tables, t: Tables, p: Id, u: Id, paths: map<Id, string>)
    requires u in s.sessions && s.sessions[u].snapshot in s.snapshots
  {
    var session := s.sessions[u];
    && OnlyRow(s.snapshots, t.snapshots, session.snapshot) && OnlyRow(s.sessions, t.sessions, u)
    && t.projects == s.projects && t.jobs == s.jobs
    && t.sessions[u].project == session.project && t.sessions[u].snapshot == session.snapshot
    && t.sessions[u].expiresAt == session.expiresAt && t.sessions[u].parts == session.parts
    && t.sessions[u].state == Finalized
    && var x, y := s.snapshots[session.snapshot], t.snapshots[session.snapshot];
    && y.project == x.project && y.status == x.status && y.createdAt == x.createdAt
    && FilesPlaced(x.files, y.files, p, session.parts)
    && BlobsStored(s.blobs, t.blobs, p, session.parts, paths)
  }

  lemma FinalizeUploadRows(s: Tables, p: Id, u: Id, paths: map<Id, string>, now: int)
    requires Linked(s)
    ensures
      var r := FinalizeUpload(s, p, u, paths, now);
      && (r == Err(NotFound) <==> u !in s.sessions || s.sessions[u].project != p)
      && (r.Ok? <==> Finalizable(s, p, u, paths, now))
      && (r.Ok? ==> s.sessions[u].snapshot in s.snapshots && UploadFinalized(s, r.value, p, u, paths))
  {
    FinalizeRefused(s, p, u, paths, now);
    if FinalizeUpload(s, p, u, paths, now).Ok? {
      FinalizeDone(s, p, u, paths, now);
    }
    hide *;
  }

  lemma FinalizeRefused(s: Tables, p: Id, u: Id, paths: map<Id, string>, now: int)
    requires Linked(s)
    ensures
      var r := FinalizeUpload(s, p, u, paths, now);
      && (r == Err(NotFound) <==> u !in s.sessions || s.sessions[u].project != p)
      && (r.Ok? <==> Finalizable(s, p, u, paths, now))
  {
    hide Placed, Stored;
    assert u in s.sessions ==> s.sessions[u].project in s.projects && s.sessions[u].snapshot in s.snapshots;
  }

  lemma FinalizeDone(s: Tables, p: Id, u: Id, paths: map<Id, string>, now: int)
    requires Linked(s) && FinalizeUpload(s, p, u, paths, now).Ok?
    ensures u in s.sessions && s.sessions[u].snapshot in s.snapshots
    ensures UploadFinalized(s, FinalizeUpload(s, p, u, paths, now).value, p, u, paths)
  {
    assert u in s.sessions && s.sessions[u].project == p && AllPathed(s.sessions[u].parts, paths);
    assert s.sessions[u].snapshot in s.snapshots;
    var session := s.sessions[u];
    var d := s.snapshots[session.snapshot];
    assert FinalizeUpload(s, p, u, paths, now).value ==
           s.(blobs := Stored(s.blobs, p, session.parts, paths),
              snapshots := s.snapshots[session.snapshot := d.(files := Placed(d.files, p, session.parts))],
              sessions := s.sessions[u := session.(state := Finalized)]);
    PlacedRows(d.files, p, session.parts);
    StoredRows(s.blobs, p, session.parts, paths);
    hide *;
    FinalizedRows(s, p, u, paths, Placed(d.files, p, session.parts), Stored(s.blobs, p, session.parts, paths));
  }

  lemma FinalizedRows(
    s: Tables, p: Id, u: Id, paths: map<Id, string>, files: map<string, File>, blobs: map<(Id, string), Blob>)
    requires u in s.sessions && s.sessions[u].snapshot in s.snapshots
    requires FilesPlaced(s.snapshots[s.sessions[u].snapshot].files, files, p, s.sessions[u].parts)
    requires BlobsStored(s.blobs, blobs, p, s.sessions[u].parts, paths)
    ensures
      var session := s.sessions[u];
      UploadFinalized(
        s,
        s.(blobs := blobs,
           snapshots := s.snapshots[session.snapshot := s.snapshots[session.snapshot].(files := files)],
           sessions := s.sessions[u := session.(state := Finalized)]),
        p, u, paths)
  {
    hide FilesPlaced, BlobsStored;
  }

  lemma CleanupExpiredUploadsRows(s: Tables, now: int)
    ensures
      var t := CleanupExpiredUploads(s, now);
      && (forall u :: u in t.sessions <==> u in s.sessions)
      && (forall u :: u in s.sessions ==>
            var x, y := s.sessions[u], t.sessions[u];
            && y.project == x.project && y.snapshot == x.snapshot && y.expiresAt == x.expiresAt && y.parts == x.parts
            && y.state == (if x.state == Open && x.expiresAt < now then Expired else x.state))
      && t.projects == s.projects && t.snapshots == s.snapshots && t.jobs == s.jobs && t.blobs == s.blobs
  {
  }

  /** `d` is the draft (see `DraftRows`) and has a file of that name. */
  ghost predicate HasFile(s: Tables, p: Id, d: Id, name: string) {
    DraftOf(s, p) == Some(d) && d in s.snapshots && name in s.snapshots[d].files
  }

  /** The file of that name goes from the draft; every other file, and every other row of the tables, stays. */
  lemma DeleteFileRows(s: Tables, p: Id, d: Id, name: string)
    ensures
      var r := DeleteFile(s, p, d, name);
      && (r.Ok? <==> OpenForEditing(s, p) && HasFile(s, p, d, name))
      && (r == Err(NotFound) <==>
          p !in s.projects || (OpenForEditing(s, p) && DraftOf(s, p).Some? && !HasFile(s, p, d, name)))
      && (r.Ok? ==>
            var t := r.value;
            && OnlyRow(s.snapshots, t.snapshots, d)
            && var x, y := s.snapshots[d], t.snapshots[d];
            && y.project == x.project && y.status == x.status && y.createdAt == x.createdAt
            && (forall n :: n in y.files <==> n in x.files && n != name)
            && (forall n :: n in y.files ==> y.files[n] == x.files[n])
            && t.projects == s.projects && t.jobs == s.jobs && t.sessions == s.sessions && t.blobs == s.blobs)
  {
    DraftRows(s, p);
    hide DraftOf;
  }

  // ----- builds -----

  lemma MovedRows(files: map<string, File>, lifecycle: string, progress: nat)
    ensures Labelled(files, Moved(files, lifecycle, progress), lifecycle, progress)
  {
  }

  ghost predicate NoOpenUpload(s: Tables, p: Id, d: Id) {
    forall u :: u in s.sessions && s.sessions[u].project == p && s.sessions[u].snapshot == d ==>
                  s.sessions[u].state != Open
  }

  /** The draft is sealed with its files queued, and a job waits for it. */
  ghost predicate Submitted(s: Tables, t: Tables, p: Id, d: Id, j: Id, now: int)
    requires p in s.projects && d in s.snapshots
  {
    && OnlyRow(s.jobs, t.jobs, j) && OnlyRow(s.snapshots, t.snapshots, d) && OnlyRow(s.projects, t.projects, p)
    && t.sessions == s.sessions && t.blobs == s.blobs
    && var job, x, y := t.jobs[j], s.snapshots[d], t.snapshots[d];
    && job.project == p && job.snapshot == d && job.status == JobQueued && job.createdAt == now
    && job.expectedGeneration == s.projects[p].generation && job.graphVersion == None && job.error == None
    && y.project == x.project && y.createdAt == x.createdAt && y.status == Sealed
    && Labelled(x.files, y.files, "queued", 5)
    && SameActive(s.projects[p], t.projects[p]) && t.projects[p].state == Queued
    && t.projects[p].archivedAt == s.projects[p].archivedAt
  }

  /** Something to build and nothing still coming. */
  ghost predicate Buildable(s: Tables, p: Id, d: Id) {
    IsDraft(s, p, d) && NoOpenUpload(s, p, d) && s.snapshots[d].files != map[]
  }

  lemma SubmitBuildRows(s: Tables, p: Id, j: Id, now: int)
    ensures
      var r := SubmitBuild(s, p, j, now);
      && (p !in s.projects <==> r == Err(NotFound))
      && (r.Ok? <==> OpenForEditing(s, p) && DraftOf(s, p).Some? && Buildable(s, p, DraftOf(s, p).value))
      && (r.Ok? ==> Submitted(s, r.value, p, DraftOf(s, p).value, j, now))
  {
    DraftRows(s, p);
    hide DraftOf, Moved, Labelled;
    var draft := DraftOf(s, p);
    if draft.Some? && draft.value in s.snapshots {
      MovedRows(s.snapshots[draft.value].files, "queued", 5);
      assert OpenUploads(s, p, draft.value) <==> !NoOpenUpload(s, p, draft.value);
    }
  }

  lemma ClaimBuildRows(s: Tables, j: Id)
    requires j in s.jobs && s.jobs[j].project in s.projects && s.jobs[j].snapshot in s.snapshots
    ensures
      var t, job := ClaimBuild(s, j), s.jobs[j];
      && OnlyRow(s.jobs, t.jobs, j) && OnlyRow(s.projects, t.projects, job.project)
      && OnlyRow(s.snapshots, t.snapshots, job.snapshot) && t.sessions == s.sessions && t.blobs == s.blobs
      && t.jobs[j].project == job.project && t.jobs[j].snapshot == job.snapshot && t.jobs[j].status == JobBuilding
      && t.jobs[j].expectedGeneration == job.expectedGeneration && t.jobs[j].createdAt == job.createdAt
      && t.jobs[j].graphVersion == job.graphVersion && t.jobs[j].error == job.error
      && SameActive(s.projects[job.project], t.projects[job.project]) && t.projects[job.project].state == Building
      && t.projects[job.project].archivedAt == s.projects[job.project].archivedAt
      && var x, y := s.snapshots[job.snapshot], t.snapshots[job.snapshot];
      && y.project == x.project && y.status == x.status && y.createdAt == x.createdAt
      && Labelled(x.files, y.files, "validating", 15)
  {
    MovedRows(s.snapshots[s.jobs[j].snapshot].files, "validating", 15);
    hide Moved, Labelled;
  }

  lemma UpdateFileLifecycleRows(s: Tables, d: Id, lifecycle: string, progress: nat)
    ensures
      var t := UpdateFileLifecycle(s, d, lifecycle, progress);
      && t.projects == s.projects && t.jobs == s.jobs && t.sessions == s.sessions && t.blobs == s.blobs
      && (d !in s.snapshots ==> t == s)
      && (d in s.snapshots ==>
            && OnlyRow(s.snapshots, t.snapshots, d)
            && var x, y := s.snapshots[d], t.snapshots[d];
            && y.project == x.project && y.status == x.status && y.createdAt == x.createdAt
            && Labelled(x.files, y.files, lifecycle, progress))
  {
    if d in s.snapshots {
      MovedRows(s.snapshots[d].files, lifecycle, progress);
    }
    hide Moved, Labelled;
  }

  /** Copies of the built files, ready for the next round of editing. */
  ghost predicate Copies(before: map<string, File>, after: map<string, File>, p: Id) {
    && (forall n :: n in after <==> n in before)
    && forall n :: n in before ==>
                     && after[n].project == p && after[n].mediaType == before[n].mediaType
                     && after[n].size == before[n].size && after[n].sha256 == before[n].sha256
                     && after[n].lifecycle == "ready" && after[n].progress == 100 && after[n].error == None
  }

  /** The built snapshot is the active one, the one before it is validated, and a draft starts from copies. */
  ghost predicate SnapshotsCompleted(
    before: map<Id, Snapshot>, after: map<Id, Snapshot>, p: Id, built: Id, draft: Id, now: int)
    requires built in before
  {
    && (forall d :: d in after <==> d in before || d == draft)
    && (forall d :: d in before && d != built && d != draft ==>
          && after[d].project == before[d].project && after[d].createdAt == before[d].createdAt
          && after[d].files == before[d].files
          && after[d].status ==
             (if before[d].project == p && before[d].status == Active then Validated else before[d].status))
    && (built != draft ==>
          && after[built].project == before[built].project && after[built].createdAt == before[built].createdAt
          && after[built].status == Active && Labelled(before[built].files, after[built].files, "ready", 100))
    && after[draft].project == p && after[draft].status == Editable && after[draft].createdAt == now
    && Copies(before[built].files, after[draft].files, p)
  }

  ghost predicate ProjectCompleted(x: Project, y: Project, built: Id, version: string, count: nat) {
    && y.activeSnapshot == Some(built) && y.activeGraphVersion == Some(version) && y.activeDocumentCount == count
    && y.generation == x.generation + 1 && y.state == Ready && y.archivedAt == x.archivedAt
  }

  ghost predicate JobCompleted(x: Job, y: Job, version: string) {
    && y.project == x.project && y.snapshot == x.snapshot && y.createdAt == x.createdAt
    && y.expectedGeneration == x.expectedGeneration && y.error == x.error
    && y.status == JobReady && y.graphVersion == Some(version)
  }

  lemma SnapshotsCompletedRows(s: Tables, p: Id, built: Id, draft: Id, now: int)
    requires built in s.snapshots
    ensures
      var x := s.snapshots[built];
      SnapshotsCompleted(
        s.snapshots,
        Retired(s, p)[built := x.(status := Active, files := Moved(x.files, "ready", 100))]
        [draft := Snapshot(p, Editable, now, Copied(x.files, p))],
        p, built, draft, now)
  {
    MovedRows(s.snapshots[built].files, "ready", 100);
    CopiedRows(s.snapshots[built].files, p);
    hide Moved, Labelled, Copied, Copies;
    var x := s.snapshots[built];
    var retired := Retired(s, p);
    assert retired.Keys == s.snapshots.Keys;
    var done := retired[built := x.(status := Active, files := Moved(x.files, "ready", 100))];
    assert done.Keys == s.snapshots.Keys;
    var after := done[draft := Snapshot(p, Editable, now, Copied(x.files, p))];
    assert forall d :: d in after <==> d in s.snapshots || d == draft;
    assert forall d :: d in s.snapshots && d != built && d != draft ==> after[d] == retired[d];
  }

  lemma CopiedRows(files: map<string, File>, p: Id)
    ensures Copies(files, Copied(files, p), p)
  {
  }

  lemma CompleteBuildRows(s: Tables, b: BuildRecord, version: string, count: nat, draft: Id, now: int)
    ensures
      var r := CompleteBuild(s, b, version, count, draft, now);
      && (r == Err(NotFound) <==> b.project !in s.projects)
      && (r.Ok? <==>
            && b.project in s.projects && s.projects[b.project].generation == b.expectedGeneration
            && b.id in s.jobs && b.snapshot in s.snapshots && s.jobs[b.id].status == JobBuilding)
      && (r.Ok? ==>
            var t := r.value;
            && t.sessions == s.sessions && t.blobs == s.blobs
            && SnapshotsCompleted(s.snapshots, t.snapshots, b.project, b.snapshot, draft, now)
            && OnlyRow(s.projects, t.projects, b.project) && OnlyRow(s.jobs, t.jobs, b.id)
            && ProjectCompleted(s.projects[b.project], t.projects[b.project], b.snapshot, version, count)
            && JobCompleted(s.jobs[b.id], t.jobs[b.id], version))
  {
    if b.snapshot in s.snapshots {
      SnapshotsCompletedRows(s, b.project, b.snapshot, draft, now);
    }
    hide Moved, Labelled, Retired, Copied, SnapshotsCompleted;
  }

  /** The job has failed, its snapshot is editable, and its files say why. */
  ghost predicate FailedRows(s: Tables, t: Tables, b: BuildRecord, code: string)
    requires b.project in s.projects
  {
    && t.sessions == s.sessions && t.blobs == s.blobs
    && OnlyRow(s.projects, t.projects, b.project) && SameActive(s.projects[b.project], t.projects[b.project])
    && t.projects[b.project].archivedAt == s.projects[b.project].archivedAt
    && t.projects[b.project].state in {Ready, Failed}
    && (t.projects[b.project].state == Ready <==>
        s.projects[b.project].activeGraphVersion.Some? && s.projects[b.project].activeGraphVersion.value != "")
    && (b.id !in s.jobs ==> t.jobs == s.jobs)
    && (b.id in s.jobs ==>
          && OnlyRow(s.jobs, t.jobs, b.id)
          && var job, done := s.jobs[b.id], t.jobs[b.id];
          && done.project == job.project && done.snapshot == job.snapshot && done.createdAt == job.createdAt
          && done.expectedGeneration == job.expectedGeneration && done.graphVersion == job.graphVersion
          && done.status == JobFailed && done.error == Some(code))
    && (b.snapshot !in s.snapshots ==> t.snapshots == s.snapshots)
    && (b.snapshot in s.snapshots ==>
          && OnlyRow(s.snapshots, t.snapshots, b.snapshot)
          && var x, y := s.snapshots[b.snapshot], t.snapshots[b.snapshot];
          && y.project == x.project && y.createdAt == x.createdAt && y.status == Editable
          && (forall n :: n in y.files <==> n in x.files)
          && forall n :: n in x.files ==>
                           && SameFile(x.files[n], y.files[n]) && y.files[n].progress == x.files[n].progress
                           && y.files[n].lifecycle == "failed" && y.files[n].error == Some(code))
  }

  lemma FailBuildRows(s: Tables, b: BuildRecord, code: string)
    ensures
      var r := FailBuild(s, b, code);
      if b.project !in s.projects then r == Err(NotFound) else r.Ok? && FailedRows(s, r.value, b, code)
  {
  }

  /** A job of a snapshot that waits or builds. */
  ghost predicate Waits(s: Tables, d: Id) {
    exists j :: j in s.jobs && s.jobs[j].snapshot == d && s.jobs[j].status in {JobQueued, JobBuilding}
  }

  ghost predicate Interrupted(s: Tables, p: Id) {
    exists j :: j in s.jobs && s.jobs[j].project == p && s.jobs[j].status == JobBuilding
  }

  lemma RecoverBuildsRows(s: Tables)
    ensures
      var t := RecoverBuilds(s);
      && t.sessions == s.sessions && t.blobs == s.blobs
      && (forall j :: j in t.jobs <==> j in s.jobs) && (forall d :: d in t.snapshots <==> d in s.snapshots)
      && (forall p :: p in t.projects <==> p in s.projects)
      && (forall j :: j in s.jobs ==>
            var x, y := s.jobs[j], t.jobs[j];
            && y.project == x.project && y.snapshot == x.snapshot && y.expectedGeneration == x.expectedGeneration
            && y.createdAt == x.createdAt && y.graphVersion == x.graphVersion && y.error == x.error
            && y.status == (if x.status == JobBuilding then JobQueued else x.status))
      && (forall d :: d in s.snapshots ==>
            var x, y := s.snapshots[d], t.snapshots[d];
            && y.project == x.project && y.status == x.status && y.createdAt == x.createdAt
            && if Waits(s, d) then Labelled(x.files, y.files, "queued", 5) else y.files == x.files)
      && (forall p :: p in s.projects ==>
            var x, y := s.projects[p], t.projects[p];
            && SameActive(x, y) && y.archivedAt == x.archivedAt
            && y.state == (if Interrupted(s, p) then Queued else x.state))
  {
    forall d | d in s.snapshots
      ensures Labelled(s.snapshots[d].files, Moved(s.snapshots[d].files, "queued", 5), "queued", 5)
      ensures HasLive(s, d) <==> Waits(s, d)
    {
      MovedRows(s.snapshots[d].files, "queued", 5);
    }
    assert forall p :: HasBuilding(s, p) <==> Interrupted(s, p);
    hide Moved, Labelled, HasLive, Waits, HasBuilding, Interrupted;
  }
}
