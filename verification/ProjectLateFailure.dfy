/** Failing a build that has completed: it breaks the project, and such a state is reached by one ordinary build. */
module ProjectLateFailure {
  import opened Wrappers
  import opened Projects
  import opened ProjectInvariant
  import opened ProjectRuns

  // ----- any completed build -----

  /** After a held build has completed, failing it breaks the project, whatever was built. */
  lemma LateFailureBreaks(y: System, version: string, count: nat, d: Id, now: int, code: string, late: string)
    requires Sound(y) && Possible(y, StepComplete(version, count, d, now, code))
    ensures
      var z := After(y, StepComplete(version, count, d, now, code));
      && Sound(z) && Made(z.db, y.held.value)
      && FailBuild(z.db, y.held.value, late).Ok? && !Inv(FailBuild(z.db, y.held.value, late).value)
  {
    StepSound(y, StepComplete(version, count, d, now, code));
    CompletedJob(y, version, count, d, now, code);
    hide *;
    SoundParts(After(y, StepComplete(version, count, d, now, code)));
    FailInvExactly(After(y, StepComplete(version, count, d, now, code)).db, y.held.value, late);
  }

  lemma SoundParts(y: System)
    requires Sound(y)
    ensures Inv(y.db) && Linked(y.db)
  {
  }

  lemma CompletedJob(y: System, version: string, count: nat, d: Id, now: int, code: string)
    requires Sound(y) && Possible(y, StepComplete(version, count, d, now, code))
    ensures
      var t, b := After(y, StepComplete(version, count, d, now, code)).db, y.held.value;
      && b.id in t.jobs && b.snapshot in t.snapshots && Made(t, b)
      && !Live(t.jobs[b.id].status) && t.snapshots[b.snapshot].status != Editable
  {
    CompleteInv(y.db, y.held.value, version, count, d, now);
    HeldProjectOpen(y.db, y.held.value);
    hide Inv, Linked, Moved, Copied;
  }

  // ----- one that happens -----

  lemma RunCons(y: System, step: Step, rest: seq<Step>)
    requires Sound(y) && Possible(y, step)
    ensures Sound(After(y, step))
    ensures Runs(y, [step] + rest) <==> Runs(After(y, step), rest)
    ensures Runs(After(y, step), rest) ==> Run(y, [step] + rest) == Run(After(y, step), rest)
  {
    hide Sound, After, Possible;
    StepSound(y, step);
    assert ([step] + rest)[1..] == rest;
  }

  lemma RunHead(y: System, steps: seq<Step>)
    requires Sound(y) && Runs(y, steps)
    ensures if steps == [] then Run(y, steps) == y else Possible(y, steps[0])
  {
  }

  lemma RunLinked(y: System, steps: seq<Step>)
    requires Sound(y) && Runs(y, steps)
    ensures Linked(Run(y, steps).db)
  {
    RunSound(y, steps);
    hide Inv, Runs, Run;
  }

  lemma {:induction false} RunAppend(y: System, steps: seq<Step>, step: Step)
    requires Sound(y) && Runs(y, steps) && Possible(Run(y, steps), step)
    ensures Runs(y, steps + [step])
    ensures Linked(Run(y, steps).db) && Run(y, steps + [step]) == After(Run(y, steps), step)
    decreases |steps|
  {
    hide *;
    SoundParts(y);
    RunLinked(y, steps);
    RunHead(y, steps);
    if steps == [] {
      RunCons(y, step, []);
      RunEmpty(After(y, step));
      assert [] + [step] == [step] + [];
    } else {
      RunCons(y, steps[0], steps[1..]);
      assert [steps[0]] + steps[1..] == steps;
      RunAppend(After(y, steps[0]), steps[1..], step);
      RunCons(y, steps[0], steps[1..] + [step]);
      assert steps + [step] == [steps[0]] + (steps[1..] + [step]);
    }
  }

  lemma RunEmpty(y: System)
    requires Sound(y)
    ensures Runs(y, []) && Run(y, []) == y
  {
  }

  lemma ReachableNext(y: System, step: Step)
    requires Reachable(y) && Possible(y, step)
    ensures Sound(y) && Reachable(After(y, step))
  {
    ReachableSound(y);
    StartSound();
    hide Sound, After, Possible, Runs, Run;
    var steps :| Runs(START, steps) && Run(START, steps) == y;
    RunAppend(START, steps, step);
  }

  lemma OneDraft(s: Tables, p: Id, d: Id)
    requires EditableOf(s, p, d) && forall e :: EditableOf(s, p, e) ==> e == d
    ensures DraftOf(s, p) == Some(d)
  {
    assert LatestEditable(s, p, d);
  }

  const PROJECT := Project(Draft, None, None, None, 0, 0)
  const PENDING := Part("part", "a.sql", "text", 1, "sha", false, None, None)
  const ARRIVED := PENDING.(uploaded := true, tempPath := Some("tmp"), received := Some(1))
  const FILES: map<string, File> := map["a.sql" := File("p", "text", 1, "sha", "uploaded", 0, None)]
  const PATHS: map<Id, string> := map["part" := "blob"]

  const CREATED :=
    System(
      Tables(map["p" := PROJECT], map["d" := Snapshot("p", Editable, 0, map[])], map[], map[], map[]),
      None, {"p", "d"})
  const UPLOADING :=
    CREATED.(db := CREATED.db.(sessions := map["u" := Session("p", "d", Open, 9, [PENDING])]), used := {"p", "d", "u"})
  const MARKED := UPLOADING.(db := UPLOADING.db.(sessions := map["u" := Session("p", "d", Open, 9, [ARRIVED])]))
  const FINALIZED :=
    MARKED.(db :=
      MARKED.db.(blobs := map[("p", "sha") := Blob(1, "blob")],
                 snapshots := map["d" := Snapshot("p", Editable, 0, FILES)],
                 sessions := map["u" := Session("p", "d", Finalized, 9, [ARRIVED])]))
  const SUBMITTED :=
    FINALIZED.(db :=
      FINALIZED.db.(jobs := map["j" := Job("p", "d", JobQueued, 0, 2, None, None)],
                    snapshots := map["d" := Snapshot("p", Sealed, 0, Moved(FILES, "queued", 5))],
                    projects := map["p" := PROJECT.(state := Queued)]),
      used := {"p", "d", "u", "j"})
  const CLAIMED := System(ClaimBuild(SUBMITTED.db, "j"), Some(BuildRecord("j", "p", "d", 0)), {"p", "d", "u", "j"})

  // Each step is computed on the tables, and then taken.

  lemma CreateGives()
    ensures CreateProject(EMPTY, "p", "d", 0) == CREATED.db
  {
  }

  lemma UploadGives()
    ensures CreateUploadSession(CREATED.db, "p", "u", [PENDING], 9) == Ok(UPLOADING.db)
  {
    OneDraft(CREATED.db, "p", "d");
  }

  lemma MarkGives()
    ensures MarkPartUploaded(UPLOADING.db, "part", "tmp", 1) == Ok(MARKED.db)
  {
    var s := UPLOADING.db;
    assert Awaits(s.sessions["u"].parts[0], "part");
    assert SomePartAwaits(s, "part");
    assert MarkParts([PENDING], "part", "tmp", 1) == [ARRIVED] by {
      assert [PENDING][..0] == [];
    }
    assert MarkPartUploaded(s, "part", "tmp", 1).value.sessions == MARKED.db.sessions;
  }

  lemma FinalizeGives()
    requires Linked(MARKED.db)
    ensures FinalizeUpload(MARKED.db, "p", "u", PATHS, 1) == Ok(FINALIZED.db)
  {
    assert [ARRIVED][..0] == [];
    assert Projects.Stored(map[], "p", [ARRIVED], PATHS) == map[("p", "sha") := Blob(1, "blob")];
    assert Placed(map[], "p", [ARRIVED]) == FILES;
    hide Linked, Projects.Stored, Placed;
    var r := FinalizeUpload(MARKED.db, "p", "u", PATHS, 1);
    assert r.Ok?;
    assert r.value.snapshots == FINALIZED.db.snapshots && r.value.sessions == FINALIZED.db.sessions;
  }

  lemma SubmitGives()
    ensures SubmitBuild(FINALIZED.db, "p", "j", 2) == Ok(SUBMITTED.db)
  {
    OneDraft(FINALIZED.db, "p", "d");
    assert "a.sql" in FILES;
    hide DraftOf, Moved;
    assert FINALIZED.db.snapshots["d"].files == FILES;
    assert !OpenUploads(FINALIZED.db, "p", "d");
    var r := SubmitBuild(FINALIZED.db, "p", "j", 2);
    assert r.Ok?;
    assert r.value.snapshots == SUBMITTED.db.snapshots && r.value.projects == SUBMITTED.db.projects;
  }

  lemma ClaimGives()
    ensures OldestQueued(SUBMITTED.db, "j") && NothingBuilding(SUBMITTED.db)
    ensures RecordOf("j", SUBMITTED.db.jobs["j"]) == CLAIMED.held.value
  {
    hide Moved;
  }

  lemma CreatedReachable()
    ensures Reachable(CREATED)
  {
    StartSound();
    StartReachable();
    CreateGives();
    hide CreateProject, Reachable, Sound, Linked;
    ReachableNext(START, StepCreate("p", "d", 0));
    assert {} + {"p", "d"} == {"p", "d"};
  }

  lemma StartReachable()
    ensures Reachable(START)
  {
    StartSound();
    assert Runs(START, []) && Run(START, []) == START;
  }

  lemma UploadingReachable()
    ensures Reachable(UPLOADING)
  {
    CreatedReachable();
    UploadGives();
    hide Reachable, CreateUploadSession, Sound, Linked;
    ReachableNext(CREATED, StepUpload("p", "u", [PENDING], 9));
    assert {"p", "d"} + {"u"} == {"p", "d", "u"};
  }

  lemma MarkedReachable()
    ensures Reachable(MARKED)
  {
    UploadingReachable();
    MarkGives();
    hide Reachable, MarkPartUploaded, Sound, Linked;
    ReachableNext(UPLOADING, StepMark("part", "tmp", 1));
  }

  lemma FinalizedReachable()
    ensures Reachable(FINALIZED)
  {
    MarkedReachable();
    ReachableSound(MARKED);
    SoundParts(MARKED);
    FinalizeGives();
    hide Reachable, FinalizeUpload, Sound, Linked;
    ReachableNext(MARKED, StepFinalize("p", "u", PATHS, 1));
  }

  lemma SubmittedReachable()
    ensures Reachable(SUBMITTED)
  {
    FinalizedReachable();
    SubmitGives();
    hide Reachable, SubmitBuild, Sound, Linked;
    ReachableNext(FINALIZED, StepSubmit("p", "j", 2));
    assert {"p", "d", "u"} + {"j"} == {"p", "d", "u", "j"};
  }

  lemma ClaimedReachable()
    ensures Reachable(CLAIMED)
  {
    SubmittedReachable();
    ClaimGives();
    hide Reachable, ClaimBuild, OldestQueued, NothingBuilding, Sound, Linked;
    ReachableNext(SUBMITTED, StepClaim("j"));
  }

  lemma ClaimedCompletes()
    ensures CLAIMED.held.Some? && Possible(CLAIMED, StepComplete("v", 1, "e", 3, "failed"))
  {
    hide ClaimBuild;
  }

  /** Create, upload, mark, finalize, submit, claim, complete: now a late failure of that build breaks the project. */
  lemma LateFailureHappens()
    ensures exists y, b ::
              Reachable(y) && Made(y.db, b) && FailBuild(y.db, b, "late").Ok? && !Inv(FailBuild(y.db, b, "late").value)
  {
    hide *;
    ClaimedReachable();
    ReachableSound(CLAIMED);
    ClaimedCompletes();
    var step := StepComplete("v", 1, "e", 3, "failed");
    ReachableNext(CLAIMED, step);
    LateFailureBreaks(CLAIMED, "v", 1, "e", 3, "failed", "late");
    SoundParts(CLAIMED);
    var z, b := After(CLAIMED, step), CLAIMED.held.value;
    assert Reachable(z) && Made(z.db, b) && FailBuild(z.db, b, "late").Ok? && !Inv(FailBuild(z.db, b, "late").value);
  }
}
