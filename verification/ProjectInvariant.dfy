/** What every reachable state of the project tables keeps. */
module ProjectInvariant {
  import opened Wrappers
  import opened Projects

  /** Everything that belongs to one project. */
  datatype Slice = Slice(
    project: Project, snapshots: map<Id, Snapshot>, jobs: map<Id, Job>, sessions: map<Id, Session>, blobs: set<string>)

  function SliceOf(s: Tables, p: Id): Slice
    requires p in s.projects
  {
    Slice(
      s.projects[p],
      map d | d in s.snapshots && s.snapshots[d].project == p :: s.snapshots[d],
      map j | j in s.jobs && s.jobs[j].project == p :: s.jobs[j],
      map u | u in s.sessions && s.sessions[u].project == p :: s.sessions[u],
      set b | b in s.blobs && b.0 == p :: b.1)
  }

  /** One snapshot `d` is being worked on; it is sealed exactly while a build is queued or running. */
  ghost predicate Drafted(x: Slice, d: Id) {
    && d in x.snapshots && (x.snapshots[d].status == if Busy(x.project.state) then Sealed else Editable)
    && forall e :: e in x.snapshots && e != d ==> x.snapshots[e].status == Active || x.snapshots[e].status == Validated
  }

  /** One snapshot is active exactly when some build has succeeded, and each success added a snapshot. */
  ghost predicate Activated(x: Slice) {
    && (x.project.generation > 0 <==> x.project.activeSnapshot.Some?)
    && (forall e :: e in x.snapshots && x.snapshots[e].status == Active ==> x.project.activeSnapshot == Some(e))
    && (x.project.activeSnapshot.Some? ==>
          x.project.activeSnapshot.value in x.snapshots && x.snapshots[x.project.activeSnapshot.value].status == Active)
    && |x.snapshots| == x.project.generation + 1
  }

  /** Only the draft has open uploads, and only while it is editable. */
  ghost predicate Uploading(x: Slice, d: Id) {
    forall u :: u in x.sessions ==>
                  && x.sessions[u].snapshot in x.snapshots
                  && (x.sessions[u].state == Open ==> x.sessions[u].snapshot == d && !Busy(x.project.state))
  }

  predicate LiveJob(jobs: map<Id, Job>, j: Id) { j in jobs && Live(jobs[j].status) }

  /** A project is queued or building exactly while it has a live job of that status; there is never a second one. */
  ghost predicate Queueing(x: Slice, d: Id) {
    && (forall j :: j in x.jobs ==> x.jobs[j].snapshot in x.snapshots)
    && (forall j :: LiveJob(x.jobs, j) ==>
          && x.jobs[j].snapshot == d && x.jobs[j].expectedGeneration == x.project.generation
          && x.project.state == (if x.jobs[j].status == JobQueued then Queued else Building))
    && (forall j, k :: LiveJob(x.jobs, j) && LiveJob(x.jobs, k) ==> j == k)
    && (Busy(x.project.state) ==> (exists j :: LiveJob(x.jobs, j)) && d in x.snapshots && x.snapshots[d].files != map[])
  }

  /** Every file row belongs to the project and has its blob. */
  ghost predicate Backed(x: Slice, p: Id) {
    forall d :: d in x.snapshots ==> FilesBacked(x.snapshots[d].files, p, x.blobs)
  }

  ghost predicate FilesBacked(files: map<string, File>, p: Id, blobs: set<string>) {
    forall n :: n in files ==> files[n].project == p && files[n].sha256 in blobs
  }

  ghost predicate GoodWith(p: Id, x: Slice, d: Id) {
    && Drafted(x, d) && Activated(x) && Uploading(x, d) && Queueing(x, d) && Backed(x, p)
    && (x.project.state == Archived ==> x.project.archivedAt.Some?)
  }

  ghost predicate Good(p: Id, x: Slice) { exists d :: GoodWith(p, x, d) }

  /** At most one build runs, over all projects. */
  ghost predicate OneBuilding(s: Tables) {
    forall j, k :: j in s.jobs && k in s.jobs && s.jobs[j].status == JobBuilding && s.jobs[k].status == JobBuilding ==>
                     j == k
  }

  /** Every row belongs to a project that exists. */
  ghost predicate Owned(s: Tables) {
    && (forall d :: d in s.snapshots ==> s.snapshots[d].project in s.projects)
    && (forall j :: j in s.jobs ==> s.jobs[j].project in s.projects)
    && (forall u :: u in s.sessions ==> s.sessions[u].project in s.projects)
  }

  ghost predicate Inv(s: Tables) {
    && Owned(s) && OneBuilding(s)
    && forall p {:trigger Good(p, SliceOf(s, p))} :: p in s.projects ==> Good(p, SliceOf(s, p))
  }

  /** The snapshot a project is working on. */
  lemma DraftIn(s: Tables, p: Id) returns (d: Id)
    requires Inv(s) && p in s.projects
    ensures GoodWith(p, SliceOf(s, p), d)
  {
    hide GoodWith, SliceOf;
    assert Good(p, SliceOf(s, p));
    d :| GoodWith(p, SliceOf(s, p), d);
  }

  // ----- an operation touches one project -----

  ghost predicate SameElsewhere(s: Tables, t: Tables, p: Id) {
    && (forall q :: q != p ==> (q in s.projects <==> q in t.projects))
    && (forall q :: q in s.projects && q != p ==> t.projects[q] == s.projects[q])
    && (forall d :: d in s.snapshots && s.snapshots[d].project != p ==>
                      d in t.snapshots && t.snapshots[d] == s.snapshots[d])
    && (forall d :: d in t.snapshots && t.snapshots[d].project != p ==>
                      d in s.snapshots && t.snapshots[d] == s.snapshots[d])
    && (forall j :: j in s.jobs && s.jobs[j].project != p ==> j in t.jobs && t.jobs[j] == s.jobs[j])
    && (forall j :: j in t.jobs && t.jobs[j].project != p ==> j in s.jobs && t.jobs[j] == s.jobs[j])
    && (forall u :: u in s.sessions && s.sessions[u].project != p ==> u in t.sessions && t.sessions[u] == s.sessions[u])
    && (forall u :: u in t.sessions && t.sessions[u].project != p ==> u in s.sessions && t.sessions[u] == s.sessions[u])
    && (forall b :: b in s.blobs && b.0 != p ==> b in t.blobs)
    && (forall b :: b in t.blobs && b.0 != p ==> b in s.blobs)
  }

  lemma ElsewhereTransitive(s: Tables, t: Tables, u: Tables, p: Id)
    requires SameElsewhere(s, t, p) && SameElsewhere(t, u, p)
    ensures SameElsewhere(s, u, p)
  {
  }

  lemma ElsewhereSame(s: Tables, t: Tables, p: Id, q: Id)
    requires SameElsewhere(s, t, p) && q != p && q in s.projects
    ensures q in t.projects && SliceOf(t, q) == SliceOf(s, q)
  {
    assert SliceOf(t, q).snapshots == SliceOf(s, q).snapshots;
    assert SliceOf(t, q).jobs == SliceOf(s, q).jobs;
    assert SliceOf(t, q).sessions == SliceOf(s, q).sessions;
    assert SliceOf(t, q).blobs == SliceOf(s, q).blobs;
  }

  ghost predicate NoRows(s: Tables, p: Id) {
    && (forall d :: d in s.snapshots ==> s.snapshots[d].project != p)
    && (forall j :: j in s.jobs ==> s.jobs[j].project != p)
    && (forall u :: u in s.sessions ==> s.sessions[u].project != p)
  }

  lemma StillOwned(s: Tables, t: Tables, p: Id)
    requires Owned(s) && SameElsewhere(s, t, p) && (p in t.projects || NoRows(t, p))
    ensures Owned(t)
  {
  }

  lemma StepInv(s: Tables, t: Tables, p: Id)
    requires Inv(s) && SameElsewhere(s, t, p) && OneBuilding(t)
    requires if p in t.projects then Good(p, SliceOf(t, p)) else NoRows(t, p)
    ensures Inv(t)
  {
    hide SameElsewhere, Good, SliceOf, Owned, OneBuilding, NoRows;
    StillOwned(s, t, p);
    forall q | q in t.projects
      ensures Good(q, SliceOf(t, q))
    {
      if q != p {
        InBoth(s, t, p, q);
        ElsewhereSame(s, t, p, q);
      }
    }
  }

  lemma InBoth(s: Tables, t: Tables, p: Id, q: Id)
    requires SameElsewhere(s, t, p) && q != p && q in t.projects
    ensures q in s.projects
  {
  }

  // ----- one row changes -----

  lemma PutProject(s: Tables, p: Id, row: Project)
    requires p in s.projects
    ensures
      var t := s.(projects := s.projects[p := row]);
      SameElsewhere(s, t, p) && SliceOf(t, p) == SliceOf(s, p).(project := row)
      && SliceOf(s, p).project == s.projects[p]
  {
  }

  lemma PutSnapshot(s: Tables, p: Id, d: Id, row: Snapshot)
    requires p in s.projects && row.project == p && (d in s.snapshots ==> s.snapshots[d].project == p)
    ensures
      var t := s.(snapshots := s.snapshots[d := row]);
      SameElsewhere(s, t, p) && SliceOf(t, p) == SliceOf(s, p).(snapshots := SliceOf(s, p).snapshots[d := row])
  {
    var t := s.(snapshots := s.snapshots[d := row]);
    assert SliceOf(t, p).snapshots == SliceOf(s, p).snapshots[d := row];
  }

  lemma PutJob(s: Tables, p: Id, j: Id, row: Job)
    requires p in s.projects && row.project == p && (j in s.jobs ==> s.jobs[j].project == p)
    ensures
      var t := s.(jobs := s.jobs[j := row]);
      SameElsewhere(s, t, p) && SliceOf(t, p) == SliceOf(s, p).(jobs := SliceOf(s, p).jobs[j := row])
  {
    var t := s.(jobs := s.jobs[j := row]);
    assert SliceOf(t, p).jobs == SliceOf(s, p).jobs[j := row];
  }

  lemma PutSession(s: Tables, p: Id, u: Id, row: Session)
    requires p in s.projects && row.project == p && (u in s.sessions ==> s.sessions[u].project == p)
    ensures
      var t := s.(sessions := s.sessions[u := row]);
      SameElsewhere(s, t, p) && SliceOf(t, p) == SliceOf(s, p).(sessions := SliceOf(s, p).sessions[u := row])
  {
    var t := s.(sessions := s.sessions[u := row]);
    assert SliceOf(t, p).sessions == SliceOf(s, p).sessions[u := row];
  }

  // ----- the draft -----

  lemma DraftIs(s: Tables, p: Id, d: Id)
    requires p in s.projects && GoodWith(p, SliceOf(s, p), d)
    ensures DraftOf(s, p) == if Busy(s.projects[p].state) then None else Some(d)
    ensures d in s.snapshots && s.snapshots[d].project == p && SliceOf(s, p).snapshots[d] == s.snapshots[d]
  {
    hide Activated, Uploading, Queueing, Backed;
    var x := SliceOf(s, p);
    assert forall e :: EditableOf(s, p, e) ==> e in x.snapshots;
    if !Busy(s.projects[p].state) {
      assert EditableOf(s, p, d);
      assert LatestEditable(s, p, d);
    }
  }

  /** The draft is the only editable snapshot. */
  lemma DraftAlone(s: Tables, p: Id, d: Id, e: Id)
    requires p in s.projects && GoodWith(p, SliceOf(s, p), d) && EditableOf(s, p, e)
    ensures e == d && !Busy(s.projects[p].state)
  {
    hide Activated, Uploading, Queueing, Backed;
    assert e in SliceOf(s, p).snapshots;
  }

  lemma DraftInSlice(p: Id, x: Slice, d: Id)
    requires GoodWith(p, x, d)
    ensures d in x.snapshots && x.snapshots[d].status == if Busy(x.project.state) then Sealed else Editable
  {
  }

  // ----- operations on an idle project -----

  /** Moving an idle project between idle states keeps everything. */
  lemma ProjectOnly(s: Tables, p: Id, row: Project)
    requires Inv(s) && p in s.projects
    requires row == s.projects[p].(state := row.state, archivedAt := row.archivedAt)
    requires !Busy(s.projects[p].state) && !Busy(row.state) && (row.state == Archived ==> row.archivedAt.Some?)
    ensures Inv(s.(projects := s.projects[p := row]))
  {
    hide SliceOf, SameElsewhere, GoodWith;
    var d := DraftIn(s, p);
    PutProject(s, p, row);
    IdleGood(p, SliceOf(s, p), d, row);
    StepInv(s, s.(projects := s.projects[p := row]), p);
  }

  lemma IdleGood(p: Id, x: Slice, d: Id, row: Project)
    requires GoodWith(p, x, d) && !Busy(x.project.state) && !Busy(row.state)
    requires row == x.project.(state := row.state, archivedAt := row.archivedAt)
    requires row.state == Archived ==> row.archivedAt.Some?
    ensures GoodWith(p, x.(project := row), d)
  {
    hide FilesBacked;
  }

  lemma ArchiveInv(s: Tables, p: Id, now: int)
    requires Inv(s) && Archive(s, p, now).Ok?
    ensures Inv(Archive(s, p, now).value)
  {
    hide Inv;
    ProjectOnly(s, p, s.projects[p].(state := Archived, archivedAt := Some(now)));
  }

  lemma RestoreInv(s: Tables, p: Id, now: int, retention: int)
    requires Inv(s) && Restore(s, p, now, retention).Ok?
    ensures Inv(Restore(s, p, now, retention).value)
  {
    hide Inv;
    ProjectOnly(s, p, Restore(s, p, now, retention).value.projects[p]);
  }

  lemma CreateInv(s: Tables, p: Id, d: Id, now: int)
    requires Inv(s) && p !in s.projects && d !in s.snapshots
    ensures Inv(CreateProject(s, p, d, now))
  {
    hide SliceOf, SameElsewhere, GoodWith;
    var t := CreateProject(s, p, d, now);
    CreateSlice(s, p, d, now);
    FreshGood(p, d, now, SliceOf(t, p).blobs);
    StepInv(s, t, p);
  }

  function FreshSlice(p: Id, d: Id, now: int, blobs: set<string>): Slice {
    Slice(Project(Draft, None, None, None, 0, 0), map[d := Snapshot(p, Editable, now, map[])], map[], map[], blobs)
  }

  lemma CreateSlice(s: Tables, p: Id, d: Id, now: int)
    requires Owned(s) && p !in s.projects && d !in s.snapshots
    ensures
      var t := CreateProject(s, p, d, now);
      SameElsewhere(s, t, p) && SliceOf(t, p) == FreshSlice(p, d, now, SliceOf(t, p).blobs)
  {
    var t := CreateProject(s, p, d, now);
    var y := SliceOf(t, p);
    assert y.snapshots == map[d := t.snapshots[d]];
    assert y.jobs == map[];
    assert y.sessions == map[];
  }

  lemma FreshGood(p: Id, d: Id, now: int, blobs: set<string>)
    ensures GoodWith(p, FreshSlice(p, d, now, blobs), d)
  {
    assert |FreshSlice(p, d, now, blobs).snapshots| == 1;
  }

  lemma PurgeInv(s: Tables, p: Id, now: int, retention: int)
    requires Inv(s) && PurgeExpired(s, p, now, retention).Ok?
    ensures Inv(PurgeExpired(s, p, now, retention).value)
  {
    var t := PurgeExpired(s, p, now, retention).value;
    PurgeSlice(s, p, now, retention);
    hide PurgeExpired, SliceOf, SameElsewhere, Good, Owned;
    StepInv(s, t, p);
  }

  lemma PurgeSlice(s: Tables, p: Id, now: int, retention: int)
    requires PurgeExpired(s, p, now, retention).Ok?
    ensures
      var t := PurgeExpired(s, p, now, retention).value;
      SameElsewhere(s, t, p) && NoRows(t, p) && p !in t.projects
    ensures OneBuilding(s) ==> OneBuilding(PurgeExpired(s, p, now, retention).value)
  {
  }

  // ----- uploads -----

  lemma UploadInv(s: Tables, p: Id, u: Id, parts: seq<Part>, expiresAt: int)
    requires Inv(s) && CreateUploadSession(s, p, u, parts, expiresAt).Ok? && u !in s.sessions
    ensures Inv(CreateUploadSession(s, p, u, parts, expiresAt).value)
  {
    hide SliceOf, SameElsewhere, GoodWith, DraftOf;
    var d := DraftIn(s, p);
    DraftIs(s, p, d);
    DraftInSlice(p, SliceOf(s, p), d);
    var row := Session(p, d, Open, expiresAt, parts);
    PutSession(s, p, u, row);
    SliceProject(s, p);
    SessionGood(p, SliceOf(s, p), d, u, row);
    StepInv(s, s.(sessions := s.sessions[u := row]), p);
  }

  lemma SliceProject(s: Tables, p: Id)
    requires p in s.projects
    ensures SliceOf(s, p).project == s.projects[p]
  {
  }

  lemma SessionGood(p: Id, x: Slice, d: Id, u: Id, row: Session)
    requires GoodWith(p, x, d) && row.snapshot in x.snapshots
    requires row.state == Open ==> row.snapshot == d && !Busy(x.project.state)
    ensures GoodWith(p, x.(sessions := x.sessions[u := row]), d)
  {
    hide FilesBacked;
  }

  /** The sessions may close and their parts may change; nothing else moves. */
  ghost predicate Aged(before: map<Id, Session>, aged: map<Id, Session>) {
    && before.Keys == aged.Keys
    && forall u :: u in before ==>
                     && aged[u].project == before[u].project && aged[u].snapshot == before[u].snapshot
                     && (aged[u].state == Open ==> before[u].state == Open)
  }

  lemma SessionsOnly(s: Tables, sessions: map<Id, Session>)
    requires Inv(s) && Aged(s.sessions, sessions)
    ensures Inv(s.(sessions := sessions))
  {
    hide Good, SliceOf;
    var t := s.(sessions := sessions);
    forall p | p in t.projects
      ensures Good(p, SliceOf(t, p))
    {
      AgedSlice(s, sessions, p);
      hide Good;
      AgedGood(p, SliceOf(s, p), SliceOf(t, p).sessions);
    }
  }

  lemma AgedSlice(s: Tables, sessions: map<Id, Session>, p: Id)
    requires p in s.projects && Aged(s.sessions, sessions)
    ensures
      var t := s.(sessions := sessions);
      Aged(SliceOf(s, p).sessions, SliceOf(t, p).sessions)
      && SliceOf(t, p) == SliceOf(s, p).(sessions := SliceOf(t, p).sessions)
  {
  }

  lemma AgedGood(p: Id, x: Slice, sessions: map<Id, Session>)
    requires Good(p, x) && Aged(x.sessions, sessions)
    ensures Good(p, x.(sessions := sessions))
  {
    var d :| GoodWith(p, x, d);
    AgedUploads(x, sessions, d);
    hide Drafted, Activated, Uploading, Queueing, Backed;
    assert GoodWith(p, x.(sessions := sessions), d) by {
      SessionsAside(x, sessions, p, d);
    }
  }

  lemma AgedUploads(x: Slice, sessions: map<Id, Session>, d: Id)
    requires Uploading(x, d) && Aged(x.sessions, sessions)
    ensures Uploading(x.(sessions := sessions), d)
  {
  }

  /** Nothing but the uploads looks at the sessions. */
  lemma SessionsAside(x: Slice, sessions: map<Id, Session>, p: Id, d: Id)
    ensures
      var y := x.(sessions := sessions);
      && (Drafted(x, d) <==> Drafted(y, d)) && (Activated(x) <==> Activated(y))
      && (Queueing(x, d) <==> Queueing(y, d)) && (Backed(x, p) <==> Backed(y, p))
  {
    hide FilesBacked, LiveJob;
  }

  lemma MarkInv(s: Tables, id: Id, path: string, size: nat)
    requires Inv(s) && MarkPartUploaded(s, id, path, size).Ok?
    ensures Inv(MarkPartUploaded(s, id, path, size).value)
  {
    hide Inv;
    SessionsOnly(s, MarkPartUploaded(s, id, path, size).value.sessions);
  }

  lemma CleanupInv(s: Tables, now: int)
    requires Inv(s)
    ensures Inv(CleanupExpiredUploads(s, now))
  {
    hide Inv;
    SessionsOnly(s, CleanupExpiredUploads(s, now).sessions);
  }

  lemma {:induction false} StoredKeeps(blobs: map<(Id, string), Blob>, p: Id, parts: seq<Part>, paths: map<Id, string>)
    requires AllPathed(parts, paths)
    ensures
      var more := Stored(blobs, p, parts, paths);
      && (forall b :: b in blobs ==> b in more && more[b] == blobs[b])
      && (forall b :: b in more && b !in blobs ==> b.0 == p)
      && (forall i :: 0 <= i < |parts| ==> (p, parts[i].sha256) in more)
  {
    if parts != [] {
      StoredKeeps(blobs, p, parts[..|parts| - 1], paths);
      assert forall i :: 0 <= i < |parts| - 1 ==> parts[..|parts| - 1][i] == parts[i];
    }
  }

  lemma {:induction false} PlacedBacked(files: map<string, File>, p: Id, parts: seq<Part>, blobs: set<string>)
    requires FilesBacked(files, p, blobs) && forall i :: 0 <= i < |parts| ==> parts[i].sha256 in blobs
    ensures FilesBacked(Placed(files, p, parts), p, blobs)
  {
    if parts != [] {
      PlacedBacked(files, p, parts[..|parts| - 1], blobs);
    }
  }

  lemma PutBlobs(s: Tables, p: Id, more: map<(Id, string), Blob>)
    requires p in s.projects
    requires forall b :: b in s.blobs ==> b in more
    requires forall b :: b in more && b !in s.blobs ==> b.0 == p
    ensures
      var t := s.(blobs := more);
      && SameElsewhere(s, t, p) && SliceOf(t, p) == SliceOf(s, p).(blobs := SliceOf(t, p).blobs)
      && SliceOf(s, p).blobs <= SliceOf(t, p).blobs && forall h :: (p, h) in more ==> h in SliceOf(t, p).blobs
  {
  }

  /** The draft takes other files, all of them backed. */
  lemma FilesGood(p: Id, x: Slice, d: Id, files: map<string, File>, blobs: set<string>)
    requires GoodWith(p, x, d) && x.blobs <= blobs && FilesBacked(files, p, blobs)
    requires Busy(x.project.state) ==> files != map[]
    ensures d in x.snapshots
    ensures GoodWith(p, x.(blobs := blobs, snapshots := x.snapshots[d := x.snapshots[d].(files := files)]), d)
  {
    var row := x.snapshots[d].(files := files);
    assert x.snapshots[d := row].Keys == x.snapshots.Keys;
    assert |x.snapshots[d := row]| == |x.snapshots|;
  }

  lemma DraftBacked(p: Id, x: Slice, d: Id)
    requires GoodWith(p, x, d)
    ensures d in x.snapshots && FilesBacked(x.snapshots[d].files, p, x.blobs)
  {
  }

  lemma SessionOnDraft(p: Id, x: Slice, d: Id, u: Id)
    requires GoodWith(p, x, d) && u in x.sessions && x.sessions[u].state == Open
    ensures x.sessions[u].snapshot == d && d in x.snapshots && !Busy(x.project.state)
  {
  }

  lemma GoodRefers(p: Id, x: Slice)
    requires Good(p, x)
    ensures forall j :: j in x.jobs ==> x.jobs[j].snapshot in x.snapshots
    ensures forall u :: u in x.sessions ==> x.sessions[u].snapshot in x.snapshots
  {
    hide Drafted, Activated, Backed;
  }

  /** The foreign keys hold, and stay within a project. */
  lemma InvLinked(s: Tables)
    requires Inv(s)
    ensures Linked(s)
  {
    hide Good, OneBuilding;
    forall j | j in s.jobs
      ensures s.jobs[j].snapshot in s.snapshots && s.snapshots[s.jobs[j].snapshot].project == s.jobs[j].project
    {
      var x := SliceOf(s, s.jobs[j].project);
      GoodRefers(s.jobs[j].project, x);
      assert j in x.jobs;
    }
    forall u | u in s.sessions
      ensures s.sessions[u].snapshot in s.snapshots
      ensures s.snapshots[s.sessions[u].snapshot].project == s.sessions[u].project
    {
      var x := SliceOf(s, s.sessions[u].project);
      GoodRefers(s.sessions[u].project, x);
      assert u in x.sessions;
    }
  }

  lemma SliceRows(s: Tables, p: Id)
    requires p in s.projects
    ensures
      var x := SliceOf(s, p);
      && x.project == s.projects[p]
      && (forall d :: d in x.snapshots <==> d in s.snapshots && s.snapshots[d].project == p)
      && (forall d :: d in x.snapshots ==> x.snapshots[d] == s.snapshots[d])
      && (forall j :: j in x.jobs <==> j in s.jobs && s.jobs[j].project == p)
      && (forall j :: j in x.jobs ==> x.jobs[j] == s.jobs[j])
      && (forall u :: u in x.sessions <==> u in s.sessions && s.sessions[u].project == p)
      && (forall u :: u in x.sessions ==> x.sessions[u] == s.sessions[u])
  {
  }

  lemma FinalizeInv(s: Tables, p: Id, u: Id, paths: map<Id, string>, now: int)
    requires Inv(s) && Linked(s) && FinalizeUpload(s, p, u, paths, now).Ok?
    ensures Inv(FinalizeUpload(s, p, u, paths, now).value)
  {
    hide SliceOf, SameElsewhere, GoodWith, Stored, Placed;
    var d := DraftIn(s, p);
    var session := s.sessions[u];
    SliceRows(s, p);
    SessionOnDraft(p, SliceOf(s, p), d, u);
    DraftBacked(p, SliceOf(s, p), d);
    var more := Stored(s.blobs, p, session.parts, paths);
    StoredKeeps(s.blobs, p, session.parts, paths);
    PutBlobs(s, p, more);
    var t := s.(blobs := more);
    var blobs := SliceOf(t, p).blobs;
    PlacedBacked(s.snapshots[d].files, p, session.parts, blobs);
    var files := Placed(s.snapshots[d].files, p, session.parts);
    FilesGood(p, SliceOf(s, p), d, files, blobs);
    PutSnapshot(t, p, d, s.snapshots[d].(files := files));
    var v := t.(snapshots := s.snapshots[d := s.snapshots[d].(files := files)]);
    ElsewhereTransitive(s, t, v, p);
    var row := session.(state := Finalized);
    PutSession(v, p, u, row);
    var w := v.(sessions := s.sessions[u := row]);
    ElsewhereTransitive(s, v, w, p);
    SessionGood(p, SliceOf(v, p), d, u, row);
    StepInv(s, w, p);
  }

  lemma DeleteInv(s: Tables, p: Id, snapshot: Id, name: string)
    requires Inv(s) && DeleteFile(s, p, snapshot, name).Ok?
    ensures Inv(DeleteFile(s, p, snapshot, name).value)
  {
    hide SliceOf, SameElsewhere, GoodWith, DraftOf;
    var d := DraftIn(s, p);
    DraftIs(s, p, d);
    SliceRows(s, p);
    DraftBacked(p, SliceOf(s, p), d);
    var files := s.snapshots[d].files - {name};
    FilesGood(p, SliceOf(s, p), d, files, SliceOf(s, p).blobs);
    PutSnapshot(s, p, d, s.snapshots[d].(files := files));
    StepInv(s, s.(snapshots := s.snapshots[d := s.snapshots[d].(files := files)]), p);
  }

  lemma SubmitInv(s: Tables, p: Id, j: Id, now: int)
    requires Inv(s) && j !in s.jobs && SubmitBuild(s, p, j, now).Ok?
    ensures Inv(SubmitBuild(s, p, j, now).value)
  {
    hide SliceOf, SameElsewhere, GoodWith, DraftOf, Moved;
    var d := DraftIn(s, p);
    DraftIs(s, p, d);
    SliceRows(s, p);
    DraftInSlice(p, SliceOf(s, p), d);
    var x := SliceOf(s, p);
    var job := Job(p, d, JobQueued, s.projects[p].generation, now, None, None);
    var files := Moved(s.snapshots[d].files, "queued", 5);
    PutJob(s, p, j, job);
    var t := s.(jobs := s.jobs[j := job]);
    PutSnapshot(t, p, d, s.snapshots[d].(status := Sealed, files := files));
    var v := t.(snapshots := s.snapshots[d := s.snapshots[d].(status := Sealed, files := files)]);
    ElsewhereTransitive(s, t, v, p);
    PutProject(v, p, s.projects[p].(state := Queued));
    var w := v.(projects := s.projects[p := s.projects[p].(state := Queued)]);
    ElsewhereTransitive(s, v, w, p);
    NoOpenUploads(s, p, d);
    MovedSame(s.snapshots[d].files, "queued", 5, p, x.blobs);
    SubmitGood(p, x, d, j, job, files);
    StepInv(s, w, p);
  }

  lemma NoOpenUploads(s: Tables, p: Id, d: Id)
    requires p in s.projects && !OpenUploads(s, p, d)
    ensures forall u :: u in SliceOf(s, p).sessions && SliceOf(s, p).sessions[u].snapshot == d ==>
                          SliceOf(s, p).sessions[u].state != Open
  {
  }

  lemma MovedSame(files: map<string, File>, lifecycle: string, progress: nat, p: Id, blobs: set<string>)
    ensures Moved(files, lifecycle, progress).Keys == files.Keys
    ensures FilesBacked(files, p, blobs) ==> FilesBacked(Moved(files, lifecycle, progress), p, blobs)
  {
  }

  lemma SubmitGood(p: Id, x: Slice, d: Id, j: Id, job: Job, files: map<string, File>)
    requires GoodWith(p, x, d) && !Closed(x.project.state) && j !in x.jobs
    requires job.snapshot == d && job.status == JobQueued && job.expectedGeneration == x.project.generation
    requires forall u :: u in x.sessions && x.sessions[u].snapshot == d ==> x.sessions[u].state != Open
    requires d in x.snapshots && files != map[]
    requires FilesBacked(x.snapshots[d].files, p, x.blobs) ==> FilesBacked(files, p, x.blobs)
    ensures
      GoodWith(p, x.(jobs := x.jobs[j := job],
                     snapshots := x.snapshots[d := x.snapshots[d].(status := Sealed, files := files)],
                     project := x.project.(state := Queued)), d)
  {
    SubmitQueues(p, x, d, j, job, files);
    hide FilesBacked, Queueing;
    var y := x.(jobs := x.jobs[j := job],
                snapshots := x.snapshots[d := x.snapshots[d].(status := Sealed, files := files)],
                project := x.project.(state := Queued));
    SameSize(y.snapshots, x.snapshots);
  }

  lemma SubmitQueues(p: Id, x: Slice, d: Id, j: Id, job: Job, files: map<string, File>)
    requires GoodWith(p, x, d) && !Closed(x.project.state) && j !in x.jobs
    requires job.snapshot == d && job.status == JobQueued && job.expectedGeneration == x.project.generation
    requires d in x.snapshots && files != map[]
    ensures
      Queueing(x.(jobs := x.jobs[j := job],
                  snapshots := x.snapshots[d := x.snapshots[d].(status := Sealed, files := files)],
                  project := x.project.(state := Queued)), d)
  {
    hide Drafted, Activated, Uploading, Backed;
    var jobs := x.jobs[j := job];
    assert forall k :: !LiveJob(x.jobs, k);
    assert LiveJob(jobs, j);
    assert forall k :: LiveJob(jobs, k) ==> k == j;
  }

  // ----- builds -----

  lemma SameSize<R>(a: map<Id, R>, b: map<Id, R>)
    requires a.Keys == b.Keys
    ensures |a| == |b|
  {
    assert |a| == |a.Keys| && |b| == |b.Keys|;
  }

  lemma LiveJobIs(p: Id, x: Slice, d: Id, j: Id)
    requires GoodWith(p, x, d) && LiveJob(x.jobs, j)
    ensures x.jobs[j].snapshot == d && d in x.snapshots && x.snapshots[d].status == Sealed
    ensures x.snapshots[d].files != map[]
    ensures x.jobs[j].expectedGeneration == x.project.generation
    ensures x.project.state == (if x.jobs[j].status == JobQueued then Queued else Building)
    ensures forall k :: LiveJob(x.jobs, k) ==> k == j
  {
    hide Activated, Uploading, Backed;
  }

  /** The only live job changes status between queued and building, and the project with it. */
  lemma RequeuedGood(p: Id, x: Slice, d: Id, j: Id, job: Job, state: ProjectState, files: map<string, File>)
    requires GoodWith(p, x, d) && LiveJob(x.jobs, j) && Live(job.status) && job == x.jobs[j].(status := job.status)
    requires state == (if job.status == JobQueued then Queued else Building)
    requires d in x.snapshots && files.Keys == x.snapshots[d].files.Keys
    requires FilesBacked(x.snapshots[d].files, p, x.blobs) ==> FilesBacked(files, p, x.blobs)
    ensures
      GoodWith(p, x.(jobs := x.jobs[j := job], snapshots := x.snapshots[d := x.snapshots[d].(files := files)],
                     project := x.project.(state := state)), d)
  {
    LiveJobIs(p, x, d, j);
    RequeuedQueues(p, x, d, j, job, state, files);
    hide FilesBacked, Queueing, LiveJob;
    SameSize(x.snapshots[d := x.snapshots[d].(files := files)], x.snapshots);
  }

  lemma RequeuedQueues(p: Id, x: Slice, d: Id, j: Id, job: Job, state: ProjectState, files: map<string, File>)
    requires GoodWith(p, x, d) && LiveJob(x.jobs, j) && Live(job.status) && job == x.jobs[j].(status := job.status)
    requires state == (if job.status == JobQueued then Queued else Building)
    requires d in x.snapshots && files.Keys == x.snapshots[d].files.Keys
    ensures
      Queueing(x.(jobs := x.jobs[j := job], snapshots := x.snapshots[d := x.snapshots[d].(files := files)],
                  project := x.project.(state := state)), d)
  {
    LiveJobIs(p, x, d, j);
    hide Drafted, Activated, Uploading, Backed;
    var jobs := x.jobs[j := job];
    assert LiveJob(jobs, j) && files != map[];
    assert forall k :: LiveJob(jobs, k) ==> LiveJob(x.jobs, k);
  }

  lemma ClaimInv(s: Tables, j: Id)
    requires Inv(s) && Linked(s) && OldestQueued(s, j) && NothingBuilding(s)
    ensures Inv(ClaimBuild(s, j))
  {
    hide SliceOf, SameElsewhere, GoodWith, Moved, FilesBacked;
    var job := s.jobs[j];
    var p := job.project;
    var d := DraftIn(s, p);
    var x := SliceOf(s, p);
    SliceRows(s, p);
    LiveJobIs(p, x, d, j);
    var files := Moved(s.snapshots[d].files, "validating", 15);
    MovedSame(s.snapshots[d].files, "validating", 15, p, x.blobs);
    RequeuedGood(p, x, d, j, job.(status := JobBuilding), Building, files);
    Three(s, p, s.projects[p].(state := Building), d, s.snapshots[d].(files := files), j, job.(status := JobBuilding));
    StepInv(s, ClaimBuild(s, j), p);
  }

  /** A step that rewrites one project row, one snapshot row and one job row. */
  lemma Three(s: Tables, p: Id, project: Project, d: Id, snapshot: Snapshot, j: Id, job: Job)
    requires p in s.projects && snapshot.project == p && job.project == p
    requires (d in s.snapshots ==> s.snapshots[d].project == p) && (j in s.jobs ==> s.jobs[j].project == p)
    ensures
      var t := s.(projects := s.projects[p := project], snapshots := s.snapshots[d := snapshot],
                  jobs := s.jobs[j := job]);
      var x := SliceOf(s, p);
      && SameElsewhere(s, t, p)
      && SliceOf(t, p) == x.(project := project, snapshots := x.snapshots[d := snapshot], jobs := x.jobs[j := job])
  {
    hide SliceOf, SameElsewhere;
    PutJob(s, p, j, job);
    var t := s.(jobs := s.jobs[j := job]);
    PutSnapshot(t, p, d, snapshot);
    var v := t.(snapshots := s.snapshots[d := snapshot]);
    ElsewhereTransitive(s, t, v, p);
    PutProject(v, p, project);
    ElsewhereTransitive(s, v, v.(projects := s.projects[p := project]), p);
  }

  /** The record names a job that is building. */
  ghost predicate Holds(s: Tables, b: BuildRecord) {
    b.id in s.jobs && s.jobs[b.id].status == JobBuilding && b == RecordOf(b.id, s.jobs[b.id])
  }

  lemma LifecycleInv(s: Tables, d: Id, lifecycle: string, progress: nat)
    requires Inv(s)
    ensures Inv(UpdateFileLifecycle(s, d, lifecycle, progress))
  {
    if d in s.snapshots {
      assert s.snapshots[d].project in s.projects;
      hide *;
      Relabel(s, s.snapshots[d].project, d, Moved(s.snapshots[d].files, lifecycle, progress), lifecycle, progress);
      LifecycleIs(s, d, lifecycle, progress);
    }
  }

  lemma LifecycleIs(s: Tables, d: Id, lifecycle: string, progress: nat)
    requires d in s.snapshots
    ensures UpdateFileLifecycle(s, d, lifecycle, progress) ==
            var files := Moved(s.snapshots[d].files, lifecycle, progress);
            s.(snapshots := s.snapshots[d := s.snapshots[d].(files := files)])
  {
  }

  lemma Relabel(s: Tables, p: Id, d: Id, files: map<string, File>, lifecycle: string, progress: nat)
    requires Inv(s) && d in s.snapshots && s.snapshots[d].project == p && p in s.projects
    requires files == Moved(s.snapshots[d].files, lifecycle, progress)
    ensures Inv(s.(snapshots := s.snapshots[d := s.snapshots[d].(files := files)]))
  {
    hide SliceOf, SameElsewhere, GoodWith, Moved, FilesBacked, OneBuilding, Owned;
    var e := DraftIn(s, p);
    var x := SliceOf(s, p);
    SliceRows(s, p);
    MovedSame(s.snapshots[d].files, lifecycle, progress, p, x.blobs);
    PutSnapshot(s, p, d, s.snapshots[d].(files := files));
    RelabelGood(p, x, e, d, files);
    var t := s.(snapshots := s.snapshots[d := s.snapshots[d].(files := files)]);
    SameJobs(s, t);
    StepInv(s, t, p);
  }

  lemma SameJobs(s: Tables, t: Tables)
    requires OneBuilding(s) && s.jobs == t.jobs
    ensures OneBuilding(t)
  {
  }

  lemma RelabelGood(p: Id, x: Slice, d: Id, e: Id, files: map<string, File>)
    requires GoodWith(p, x, d) && e in x.snapshots && files.Keys == x.snapshots[e].files.Keys
    requires FilesBacked(x.snapshots[e].files, p, x.blobs) ==> FilesBacked(files, p, x.blobs)
    ensures GoodWith(p, x.(snapshots := x.snapshots[e := x.snapshots[e].(files := files)]), d)
  {
    hide FilesBacked, LiveJob;
    var y := x.(snapshots := x.snapshots[e := x.snapshots[e].(files := files)]);
    SameSize(y.snapshots, x.snapshots);
    RelabelQueues(x, d, e, files);
    assert Drafted(y, d) && Activated(y) && Uploading(y, d) && Backed(y, p) by {
      hide Queueing;
    }
    hide Drafted, Activated, Uploading, Queueing, Backed;
  }

  lemma RelabelQueues(x: Slice, d: Id, e: Id, files: map<string, File>)
    requires Queueing(x, d) && e in x.snapshots && files.Keys == x.snapshots[e].files.Keys
    ensures Queueing(x.(snapshots := x.snapshots[e := x.snapshots[e].(files := files)]), d)
  {
    hide LiveJob;
    assert files == map[] <==> files.Keys == {};
    assert x.snapshots[e].files == map[] <==> x.snapshots[e].files.Keys == {};
  }

  // ----- a build succeeds -----

  function RetiredRows(rows: map<Id, Snapshot>): map<Id, Snapshot> {
    map d | d in rows :: if rows[d].status == Active then rows[d].(status := Validated) else rows[d]
  }

  function CompletedSlice(x: Slice, b: BuildRecord, version: string, count: nat, draft: Id, now: int): Slice
    requires b.snapshot in x.snapshots && b.id in x.jobs
  {
    var built := x.snapshots[b.snapshot];
    x.(snapshots :=
         RetiredRows(x.snapshots)
         [b.snapshot := built.(status := Active, files := Moved(built.files, "ready", 100))]
         [draft := Snapshot(b.project, Editable, now, Copied(built.files, b.project))],
       project :=
         x.project.(activeSnapshot := Some(b.snapshot), activeGraphVersion := Some(version),
                    activeDocumentCount := count,
                    generation := x.project.generation + 1, state := Ready),
       jobs := x.jobs[b.id := x.jobs[b.id].(status := JobReady, graphVersion := Some(version))])
  }

  lemma RetireSlice(s: Tables, p: Id)
    requires p in s.projects
    ensures
      var t := s.(snapshots := Retired(s, p));
      SameElsewhere(s, t, p) && SliceOf(t, p) == SliceOf(s, p).(snapshots := RetiredRows(SliceOf(s, p).snapshots))
  {
    var t := s.(snapshots := Retired(s, p));
    RetireElsewhere(s, p);
    hide SameElsewhere;
    var rows, retired := SliceOf(s, p).snapshots, SliceOf(t, p).snapshots;
    assert forall d :: d in retired <==> d in rows;
    assert forall d :: d in rows ==> retired[d] == RetiredRows(rows)[d];
    assert retired == RetiredRows(rows);
  }

  lemma RetireElsewhere(s: Tables, p: Id)
    ensures SameElsewhere(s, s.(snapshots := Retired(s, p)), p)
  {
  }

  lemma CompleteSlice(s: Tables, b: BuildRecord, version: string, count: nat, draft: Id, now: int)
    requires CompleteBuild(s, b, version, count, draft, now).Ok? && draft !in s.snapshots
    requires s.jobs[b.id].project == b.project && s.snapshots[b.snapshot].project == b.project
    ensures
      var t := CompleteBuild(s, b, version, count, draft, now).value;
      && SameElsewhere(s, t, b.project) && b.snapshot in SliceOf(s, b.project).snapshots
      && b.id in SliceOf(s, b.project).jobs
      && SliceOf(t, b.project) == CompletedSlice(SliceOf(s, b.project), b, version, count, draft, now)
  {
    hide SliceOf, SameElsewhere, Moved, Copied;
    var p := b.project;
    SliceRows(s, p);
    RetireSlice(s, p);
    var r := s.(snapshots := Retired(s, p));
    var t := CompleteBuild(s, b, version, count, draft, now).value;
    Three(r, p, t.projects[p], b.snapshot, t.snapshots[b.snapshot], b.id, t.jobs[b.id]);
    var v := r.(projects := t.projects, snapshots := r.snapshots[b.snapshot := t.snapshots[b.snapshot]],
                jobs := t.jobs);
    ElsewhereTransitive(s, r, v, p);
    PutSnapshot(v, p, draft, t.snapshots[draft]);
    ElsewhereTransitive(s, v, t, p);
  }

  lemma CopiedBacked(files: map<string, File>, p: Id, blobs: set<string>)
    requires FilesBacked(files, p, blobs)
    ensures FilesBacked(Copied(files, p), p, blobs)
  {
  }

  lemma CompletedDraft(p: Id, x: Slice, d: Id, b: BuildRecord, version: string, count: nat, draft: Id, now: int)
    requires GoodWith(p, x, d) && LiveJob(x.jobs, b.id) && b.snapshot == d && b.project == p && draft !in x.snapshots
    requires b.snapshot in x.snapshots
    ensures Drafted(CompletedSlice(x, b, version, count, draft, now), draft)
  {
    hide Activated, Uploading, Queueing, Backed, Moved, Copied;
  }

  lemma CompletedActive(p: Id, x: Slice, d: Id, b: BuildRecord, version: string, count: nat, draft: Id, now: int)
    requires GoodWith(p, x, d) && LiveJob(x.jobs, b.id) && b.snapshot == d && b.project == p && draft !in x.snapshots
    requires b.snapshot in x.snapshots
    ensures Activated(CompletedSlice(x, b, version, count, draft, now))
  {
    hide Drafted, Uploading, Queueing, Backed, Moved, Copied;
    var y := CompletedSlice(x, b, version, count, draft, now);
    OneMore(x.snapshots, y.snapshots, draft);
  }

  lemma OneMore<R>(a: map<Id, R>, b: map<Id, R>, k: Id)
    requires k !in a && b.Keys == a.Keys + {k}
    ensures |b| == |a| + 1
  {
    assert |a| == |a.Keys| && |b| == |b.Keys|;
  }

  lemma CompletedJobs(p: Id, x: Slice, d: Id, b: BuildRecord, version: string, count: nat, draft: Id, now: int)
    requires GoodWith(p, x, d) && LiveJob(x.jobs, b.id) && b.snapshot == d && b.project == p && draft !in x.snapshots
    requires b.snapshot in x.snapshots
    ensures var y := CompletedSlice(x, b, version, count, draft, now); Uploading(y, draft) && Queueing(y, draft)
  {
    LiveJobIs(p, x, d, b.id);
    hide Drafted, Activated, Backed, Moved, Copied;
    var y := CompletedSlice(x, b, version, count, draft, now);
    assert forall k :: !LiveJob(y.jobs, k);
  }

  lemma CompletedBacked(p: Id, x: Slice, d: Id, b: BuildRecord, version: string, count: nat, draft: Id, now: int)
    requires GoodWith(p, x, d) && LiveJob(x.jobs, b.id) && b.snapshot == d && b.project == p && draft !in x.snapshots
    requires b.snapshot in x.snapshots
    ensures Backed(CompletedSlice(x, b, version, count, draft, now), p)
  {
    DraftBacked(p, x, d);
    CopiedBacked(x.snapshots[d].files, p, x.blobs);
    MovedSame(x.snapshots[d].files, "ready", 100, p, x.blobs);
    hide Drafted, Activated, Uploading, Queueing, FilesBacked, Moved, Copied;
  }

  lemma CompletedGood(p: Id, x: Slice, d: Id, b: BuildRecord, version: string, count: nat, draft: Id, now: int)
    requires GoodWith(p, x, d) && LiveJob(x.jobs, b.id) && b.snapshot == d && b.project == p && draft !in x.snapshots
    requires b.snapshot in x.snapshots
    ensures GoodWith(p, CompletedSlice(x, b, version, count, draft, now), draft)
  {
    CompletedDraft(p, x, d, b, version, count, draft, now);
    CompletedActive(p, x, d, b, version, count, draft, now);
    CompletedJobs(p, x, d, b, version, count, draft, now);
    CompletedBacked(p, x, d, b, version, count, draft, now);
    hide Drafted, Activated, Uploading, Queueing, Backed;
  }

  /** A build that is held completes: no check of `complete_build` stops it. */
  lemma HeldBuildCompletes(s: Tables, b: BuildRecord, version: string, count: nat, draft: Id, now: int)
    requires Inv(s) && Holds(s, b)
    ensures CompleteBuild(s, b, version, count, draft, now).Ok?
    ensures b.snapshot in s.snapshots && SnapshotFiles(s, b.snapshot) != map[]
  {
    hide GoodWith, SliceOf, FilesBacked;
    var p := b.project;
    var d := DraftIn(s, p);
    SliceRows(s, p);
    LiveJobIs(p, SliceOf(s, p), d, b.id);
    JoinLosesNothing(s, d);
    assert SnapshotFiles(s, d).Keys == s.snapshots[d].files.Keys;
  }

  /** The join with the blobs finds every file of a snapshot. */
  lemma JoinLosesNothing(s: Tables, d: Id)
    requires Inv(s) && d in s.snapshots
    ensures SnapshotFiles(s, d).Keys == s.snapshots[d].files.Keys
    ensures forall n :: n in s.snapshots[d].files ==> SnapshotFiles(s, d)[n].0 == s.snapshots[d].files[n]
  {
    hide GoodWith;
    var p := s.snapshots[d].project;
    var e := DraftIn(s, p);
    AllBacked(p, SliceOf(s, p), e, d);
  }

  lemma AllBacked(p: Id, x: Slice, e: Id, d: Id)
    requires GoodWith(p, x, e) && d in x.snapshots
    ensures FilesBacked(x.snapshots[d].files, p, x.blobs)
  {
  }

  /** No build starts. */
  ghost predicate NoneStarts(s: Tables, t: Tables) {
    forall j :: j in t.jobs && t.jobs[j].status == JobBuilding ==> j in s.jobs && s.jobs[j].status == JobBuilding
  }

  lemma StillOneBuilding(s: Tables, t: Tables)
    requires OneBuilding(s) && NoneStarts(s, t)
    ensures OneBuilding(t)
  {
  }

  lemma CompleteStartsNone(s: Tables, b: BuildRecord, version: string, count: nat, draft: Id, now: int)
    requires CompleteBuild(s, b, version, count, draft, now).Ok?
    ensures NoneStarts(s, CompleteBuild(s, b, version, count, draft, now).value)
    ensures b.project in CompleteBuild(s, b, version, count, draft, now).value.projects
  {
  }

  lemma CompleteInv(s: Tables, b: BuildRecord, version: string, count: nat, draft: Id, now: int)
    requires Inv(s) && Linked(s) && Holds(s, b) && draft !in s.snapshots
    ensures CompleteBuild(s, b, version, count, draft, now).Ok?
    ensures Inv(CompleteBuild(s, b, version, count, draft, now).value)
  {
    HeldBuildCompletes(s, b, version, count, draft, now);
    var p := b.project;
    var d := DraftIn(s, p);
    var x := SliceOf(s, p);
    hide GoodWith, SliceOf, FilesBacked, SameElsewhere, CompletedSlice, OneBuilding, CompleteBuild, NoneStarts;
    SliceRows(s, p);
    LiveJobIs(p, x, d, b.id);
    CompleteSlice(s, b, version, count, draft, now);
    CompletedGood(p, x, d, b, version, count, draft, now);
    CompleteStartsNone(s, b, version, count, draft, now);
    StillOneBuilding(s, CompleteBuild(s, b, version, count, draft, now).value);
    StepInv(s, CompleteBuild(s, b, version, count, draft, now).value, p);
  }

  // ----- a build fails -----

  function FailedSlice(x: Slice, b: BuildRecord, code: string): Slice
    requires b.snapshot in x.snapshots && b.id in x.jobs
  {
    x.(jobs := x.jobs[b.id := x.jobs[b.id].(status := JobFailed, error := Some(code))],
       snapshots := x.snapshots[b.snapshot := x.snapshots[b.snapshot].(
                                  status := Editable, files := Flagged(x.snapshots[b.snapshot].files, code))],
       project := x.project.(state := if Truthy(x.project.activeGraphVersion) then Ready else Failed))
  }

  /** The record was made from a job, whatever has become of it. */
  ghost predicate Made(s: Tables, b: BuildRecord) { b.id in s.jobs && b == RecordOf(b.id, s.jobs[b.id]) }

  lemma FailSlice(s: Tables, b: BuildRecord, code: string)
    requires Linked(s) && Made(s, b)
    ensures FailBuild(s, b, code).Ok?
    ensures
      var t := FailBuild(s, b, code).value;
      && SameElsewhere(s, t, b.project) && b.snapshot in SliceOf(s, b.project).snapshots
      && b.id in SliceOf(s, b.project).jobs
      && SliceOf(t, b.project) == FailedSlice(SliceOf(s, b.project), b, code)
      && NoneStarts(s, t) && b.project in t.projects
  {
    hide SliceOf, SameElsewhere, Flagged;
    SliceRows(s, b.project);
    var t := FailBuild(s, b, code).value;
    Three(s, b.project, t.projects[b.project], b.snapshot, t.snapshots[b.snapshot], b.id, t.jobs[b.id]);
  }

  lemma FlaggedSame(files: map<string, File>, code: string, p: Id, blobs: set<string>)
    ensures FilesBacked(files, p, blobs) ==> FilesBacked(Flagged(files, code), p, blobs)
  {
  }

  /** Failing a live job, or failing again while its snapshot is the editable draft, leaves the project in order. */
  lemma FailedGood(p: Id, x: Slice, d: Id, b: BuildRecord, code: string)
    requires GoodWith(p, x, d) && b.id in x.jobs && b.snapshot == x.jobs[b.id].snapshot && b.snapshot in x.snapshots
    requires LiveJob(x.jobs, b.id) || x.snapshots[b.snapshot].status == Editable
    ensures GoodWith(p, FailedSlice(x, b, code), d)
  {
    FailedQueues(p, x, d, b, code);
    FailedBacked(p, x, b, code);
    FailedSize(x, b, code);
    FailedDraft(p, x, d, b, code);
    hide Backed, Queueing, Drafted, LiveJob, Flagged;
  }

  lemma FailedDraft(p: Id, x: Slice, d: Id, b: BuildRecord, code: string)
    requires GoodWith(p, x, d) && b.id in x.jobs && b.snapshot == d
    ensures d in x.snapshots && Drafted(FailedSlice(x, b, code), d)
    ensures x.project.activeSnapshot != Some(d)
  {
    hide Backed, Queueing, Uploading, LiveJob, Flagged;
  }

  lemma FailedSize(x: Slice, b: BuildRecord, code: string)
    requires b.snapshot in x.snapshots && b.id in x.jobs
    ensures |FailedSlice(x, b, code).snapshots| == |x.snapshots|
  {
    SameSize(FailedSlice(x, b, code).snapshots, x.snapshots);
  }

  lemma FailedBacked(p: Id, x: Slice, b: BuildRecord, code: string)
    requires Backed(x, p) && b.snapshot in x.snapshots && b.id in x.jobs
    ensures Backed(FailedSlice(x, b, code), p)
  {
    hide FilesBacked, Flagged;
    FlaggedSame(x.snapshots[b.snapshot].files, code, p, x.blobs);
  }

  lemma FailedQueues(p: Id, x: Slice, d: Id, b: BuildRecord, code: string)
    requires GoodWith(p, x, d) && b.id in x.jobs && b.snapshot == x.jobs[b.id].snapshot && b.snapshot in x.snapshots
    requires LiveJob(x.jobs, b.id) || x.snapshots[b.snapshot].status == Editable
    ensures b.snapshot == d && Queueing(FailedSlice(x, b, code), d)
  {
    if LiveJob(x.jobs, b.id) {
      LiveJobIs(p, x, d, b.id);
    }
    hide Activated, Uploading, Backed, Flagged;
    var jobs := x.jobs[b.id := x.jobs[b.id].(status := JobFailed, error := Some(code))];
    assert b.snapshot == d;
    assert x.snapshots[d].status == Editable ==> forall k :: !LiveJob(x.jobs, k);
    assert forall k :: LiveJob(jobs, k) ==> LiveJob(x.jobs, k) && k != b.id;
  }

  /** Failing any other job breaks the project: a second snapshot opens, or a live job loses its sealed one. */
  lemma FailedBad(p: Id, x: Slice, d: Id, b: BuildRecord, code: string, e: Id)
    requires GoodWith(p, x, d) && b.id in x.jobs && b.snapshot == x.jobs[b.id].snapshot && b.snapshot in x.snapshots
    requires !LiveJob(x.jobs, b.id) && x.snapshots[b.snapshot].status != Editable
    ensures !GoodWith(p, FailedSlice(x, b, code), e)
  {
    hide Activated, Uploading, Backed, Flagged;
    var y := FailedSlice(x, b, code);
    assert y.snapshots[b.snapshot].status == Editable;
    if b.snapshot == d {
      var k :| LiveJob(x.jobs, k);
      assert LiveJob(y.jobs, k);
    } else {
      assert y.snapshots[d] == x.snapshots[d];
    }
  }

  lemma FailKeeps(s: Tables, b: BuildRecord, code: string)
    requires Inv(s) && Linked(s) && Made(s, b)
    requires Live(s.jobs[b.id].status) || s.snapshots[b.snapshot].status == Editable
    ensures FailBuild(s, b, code).Ok? && Inv(FailBuild(s, b, code).value)
  {
    var p := b.project;
    var d := DraftIn(s, p);
    hide GoodWith, SliceOf, SameElsewhere, FailedSlice, OneBuilding, NoneStarts, Linked, FailBuild, Owned;
    FailSlice(s, b, code);
    SliceRows(s, p);
    var t := FailBuild(s, b, code).value;
    FailedGood(p, SliceOf(s, p), d, b, code);
    StillOneBuilding(s, t);
    StepInv(s, t, p);
  }

  lemma FailBreaks(s: Tables, b: BuildRecord, code: string)
    requires Inv(s) && Linked(s) && Made(s, b)
    requires !Live(s.jobs[b.id].status) && s.snapshots[b.snapshot].status != Editable
    ensures FailBuild(s, b, code).Ok? && !Inv(FailBuild(s, b, code).value)
  {
    var p := b.project;
    var d := DraftIn(s, p);
    hide GoodWith, SliceOf, SameElsewhere, FailedSlice, OneBuilding, NoneStarts, Linked;
    FailSlice(s, b, code);
    SliceRows(s, p);
    var t := FailBuild(s, b, code).value;
    forall e
      ensures !GoodWith(p, SliceOf(t, p), e)
    {
      FailedBad(p, SliceOf(s, p), d, b, code, e);
    }
    assert !Good(p, SliceOf(t, p));
  }

  /** Failing a build keeps the invariant exactly when its job is live or its snapshot is the editable draft. */
  lemma FailInvExactly(s: Tables, b: BuildRecord, code: string)
    requires Inv(s) && Linked(s) && Made(s, b)
    ensures FailBuild(s, b, code).Ok?
    ensures Inv(FailBuild(s, b, code).value) <==>
            Live(s.jobs[b.id].status) || s.snapshots[b.snapshot].status == Editable
  {
    hide Inv, FailBuild;
    if Live(s.jobs[b.id].status) || s.snapshots[b.snapshot].status == Editable {
      FailKeeps(s, b, code);
    } else {
      FailBreaks(s, b, code);
    }
  }
}
