/**
 The job table of module Concurrency together with the work directory: what stale whole-row
 writes (save in store.py) do to the ownership of module WorkFiles. A file operation happens
 with the save that follows it; modules DeleteRace and IngestRace part the two.
 */
module SharedFiles {
  import opened Wrappers
  import opened Bytes
  import opened Jobs
  import opened Pipeline
  import opened Concurrency
  import Thefts
  import Work = WorkFiles

  predicate EnabledOn(s: System, w: World, files: Disk, step: Step) {
    && Enabled(s, w, step)
    && (step.FinishProcess? ==> step.files == files)
    && (step.FinishRelease? ==> step.files == files)
  }

  /** The work directory after the step. */
  function FilesAfter(s: System, w: World, files: Disk, step: Step): Disk
    requires EnabledOn(s, w, files, step)
  {
    match step
    case Ingest(id, name, content) => files[NewJob(id, name, content, s.sha, w.now).path := content]
    case FinishProcess(p, _, env) => Processed(s.config, w.procs[p].job, files, env, w.now).1
    case FinishRelease(p, _, cleanupFails) =>
      (match w.procs[p].outcome
       case Ok(reference) => ReleaseDelivered(s.config, w.procs[p].job, reference, files, cleanupFails).1
       case Err(_) => files)
    case Delete(id) => DeletedJob(w.rows, files, id).1
    case _ => files
  }

  /** Every snapshot names a place where its job's file may be. */
  ghost predicate PlacedProcs(w: World) {
    forall p :: p in w.procs ==> Work.Placed(w.procs[p].job)
  }

  /** A file at a job's path is the job's, even after a delivery that failed to drop it. */
  predicate TrueFiles(s: System, t: Table, files: Disk) {
    forall id :: id in t && t[id].path in files ==> s.sha(files[t[id].path]) == t[id].sha256
  }

  ghost predicate GoodFiles(s: System, contents: set<seq<Byte>>, t: Table, files: Disk) {
    Work.Own(s.config, s.sha, contents, Work.State(t, files)) && TrueFiles(s, t, files)
  }

  ghost predicate GoodState(s: System, contents: set<seq<Byte>>, w: World, files: Disk) {
    Inv(s, w) && GoodFiles(s, contents, w.rows, files) && PlacedProcs(w)
  }

  /** The snapshot that a whole-row write comes from. */
  predicate WritesBack(s: System, w: World, step: Step)
    requires Enabled(s, w, step)
  {
    Saved(s, w, step).Some? && Saved(s, w, step).value.id in w.rows
  }

  /**
   The write comes too late: the file is no longer where its snapshot says, and not dropped by a
   delivery that the write confirms.
   */
  predicate TooLate(s: System, w: World, files: Disk, step: Step)
    requires EnabledOn(s, w, files, step)
  {
    && WritesBack(s, w, step)
    && var job := w.procs[step.p].job;
    && job.path !in files
    && !(Saved(s, w, step).value.status == Delivered && s.config.policy == DeleteCopy
         && w.rows[job.id].path !in files)
  }

  /** The step moves or drops the file it finds at its snapshot's place, though owner needs it there. */
  predicate TakesAway(s: System, w: World, step: Step, owner: Job)
    requires Enabled(s, w, step)
  {
    match step
    case FinishProcess(p, _, env) => Work.Robs(s.config, w.procs[p].job, env, owner)
    case FinishRelease(p, _, cleanupFails) =>
      && w.procs[p].outcome.Ok? && !cleanupFails
      && (s.config.policy == Archive || (s.config.policy == DeleteCopy && owner.status != Delivered))
    case _ => false
  }

  /** A process whose job was deleted takes a file that has come to belong to another job. */
  predicate RobsTwin(s: System, w: World, files: Disk, step: Step)
    requires EnabledOn(s, w, files, step)
  {
    && (step.FinishProcess? || step.FinishRelease?)
    && var job := w.procs[step.p].job;
    && job.id !in w.rows && job.path in files
    && exists k :: k in w.rows && w.rows[k].path == job.path && TakesAway(s, w, step, w.rows[k])
  }

  // ---------- Where a snapshot's file is ----------

  /** It is there exactly when the row still names the place and the file was not dropped. */
  lemma InPlaceExactly(s: System, contents: set<seq<Byte>>, w: World, files: Disk, job: Job)
    requires GoodState(s, contents, w, files) && Work.PrefixesDiffer(s.sha, contents)
    requires Work.Placed(job) && Known(w.used, job) && job.id in w.rows
    ensures job.path in files <==> w.rows[job.id].path == job.path && w.rows[job.id].path in files
    ensures job.path in files ==> s.sha(files[job.path]) == job.sha256
    ensures Work.Alone(w.rows, job.path, job.id)
  {
    var state := Work.State(w.rows, files);
    assert Work.Holds(s.sha, contents, w.rows[job.id]);
    assert Work.Holds(s.sha, contents, job);
    Work.OthersElsewhere(s.config, s.sha, contents, state, job);
    if job.path in files {
      assert Work.HasOwner(w.rows, job.path);
    }
  }

  /** No other row names the place a row names. */
  lemma RowAlone(s: System, contents: set<seq<Byte>>, w: World, files: Disk, id: string)
    requires GoodState(s, contents, w, files) && Work.PrefixesDiffer(s.sha, contents) && id in w.rows
    ensures Work.Alone(w.rows, w.rows[id].path, id)
  {
    InPlaceExactly(s, contents, w, files, w.rows[id]);
  }

  // ---------- Whole-row writes ----------

  /** A new version of a row, with its file taken along or dropped, is as good as the old one. */
  lemma RewriteKeeps(s: System, contents: set<seq<Byte>>, w: World, files: Disk, done: Job, left: Disk)
    requires GoodState(s, contents, w, files) && Work.PrefixesDiffer(s.sha, contents)
    requires done.id in w.rows && Known(w.used, done) && Work.Placed(done)
    requires Work.Backed(s.config, s.sha, left, done) && Work.OnlyOwnFile(files, left, w.rows[done.id].path, done.path)
    requires done.path in left ==> s.sha(left[done.path]) == done.sha256
    ensures GoodFiles(s, contents, w.rows[done.id := done], left)
  {
    RowAlone(s, contents, w, files, done.id);
    InPlaceExactly(s, contents, w, files, done);
    Work.UpdateKeeps(s.config, s.sha, contents, Work.State(w.rows, files), done, left);
  }

  /** Writing back a row without touching files is harmless exactly when the file is still in its place. */
  lemma RowWriteExactly(s: System, contents: set<seq<Byte>>, w: World, files: Disk, job: Job)
    requires GoodState(s, contents, w, files) && Work.PrefixesDiffer(s.sha, contents)
    requires Work.Placed(job) && Known(w.used, job) && job.id in w.rows && job.status != Delivered
    ensures var rows := w.rows[job.id := job];
      GoodFiles(s, contents, rows, files) <==> job.path in files
  {
    InPlaceExactly(s, contents, w, files, job);
    if job.path in files {
      RewriteKeeps(s, contents, w, files, job, files);
    } else {
      var rows := w.rows[job.id := job];
      assert !Work.Backed(s.config, s.sha, files, rows[job.id]);
    }
  }

  /** So is the end of a processing attempt. */
  lemma ProcessWriteExactly(s: System, contents: set<seq<Byte>>, w: World, files: Disk, job: Job, env: Env)
    requires GoodState(s, contents, w, files) && Work.PrefixesDiffer(s.sha, contents)
    requires Work.Placed(job) && Known(w.used, job) && job.id in w.rows && job.status == Processing
    ensures var (done, left) := Processed(s.config, job, files, env, w.now);
      var rows := w.rows[job.id := done];
      && (GoodFiles(s, contents, rows, left) <==> job.path in files)
      && (job.path !in files ==> done.status != Delivered) && done.id == job.id
  {
    var (done, left) := Processed(s.config, job, files, env, w.now);
    InPlaceExactly(s, contents, w, files, job);
    Work.ProcessMoves(s.config, job, files, env, w.now);
    KeepsId(s.config, job, files, env);
    if job.path in files {
      RewriteKeeps(s, contents, w, files, done, left);
    } else {
      MissingEnds(s.config, job, files, env, w.now);
      assert !Work.Backed(s.config, s.sha, left, w.rows[job.id := done][job.id]);
    }
  }

  /** An attempt that finds no file fails. */
  lemma MissingEnds(c: Config, job: Job, files: Disk, env: Env, now: real)
    requires job.status == Processing && job.path !in files
    ensures var (done, left) := Processed(c, job, files, env, now);
      done.path == job.path && left == files && done.status != Delivered && done.id == job.id
  {
  }

  lemma FoundDelivery(
    s: System, contents: set<seq<Byte>>, w: World, files: Disk, job: Job, reference: string, cleanupFails: bool)
    requires GoodState(s, contents, w, files) && Work.PrefixesDiffer(s.sha, contents)
    requires Work.Placed(job) && Known(w.used, job) && job.id in w.rows && job.path in files
    ensures var (done, left) := ReleaseDelivered(s.config, job, reference, files, cleanupFails);
      var rows := w.rows[job.id := done];
      GoodFiles(s, contents, rows, left)
  {
    var (done, left) := ReleaseDelivered(s.config, job, reference, files, cleanupFails);
    InPlaceExactly(s, contents, w, files, job);
    Work.FinalizeMoves(s.config, job.(destination := Some(reference)), files, cleanupFails);
    RewriteKeeps(s, contents, w, files, done, left);
  }

  /** A row that names a missing place may be written under the delete policy, if it strands no file. */
  lemma MissingDelivery(s: System, contents: set<seq<Byte>>, w: World, files: Disk, done: Job)
    requires GoodState(s, contents, w, files) && Work.PrefixesDiffer(s.sha, contents)
    requires Work.Placed(done) && Known(w.used, done) && done.id in w.rows && done.path !in files
    requires done.status == Delivered
    ensures var rows := w.rows[done.id := done];
      GoodFiles(s, contents, rows, files) <==>
        s.config.policy == DeleteCopy && w.rows[done.id].path !in files
  {
    var rows := w.rows[done.id := done];
    if s.config.policy != DeleteCopy {
      assert !Work.Backed(s.config, s.sha, files, rows[done.id]);
    } else if w.rows[done.id].path in files {
      RowAlone(s, contents, w, files, done.id);
      assert !Work.HasOwner(rows, w.rows[done.id].path);
    } else {
      RewriteKeeps(s, contents, w, files, done, files);
    }
  }

  lemma DeliveryWithoutFile(c: Config, job: Job, reference: string, files: Disk, cleanupFails: bool)
    requires job.path !in files
    ensures var (done, left) := ReleaseDelivered(c, job, reference, files, cleanupFails);
      && left == files && done.status == Delivered && done.path == job.path && done.filename == job.filename
      && done.id == job.id && done.sha256 == job.sha256
  {
    assert Remove(files, job.path) == files;
  }

  /** And the end of a successful delivery, unless the policy wanted the file gone and it is gone. */
  lemma DeliveryWriteExactly(
    s: System, contents: set<seq<Byte>>, w: World, files: Disk, job: Job, reference: string, cleanupFails: bool)
    requires GoodState(s, contents, w, files) && Work.PrefixesDiffer(s.sha, contents)
    requires Work.Placed(job) && Known(w.used, job) && job.id in w.rows
    ensures var (done, left) := ReleaseDelivered(s.config, job, reference, files, cleanupFails);
      var rows := w.rows[job.id := done];
      GoodFiles(s, contents, rows, left) <==>
        job.path in files || (s.config.policy == DeleteCopy && w.rows[job.id].path !in files)
  {
    if job.path in files {
      FoundDelivery(s, contents, w, files, job, reference, cleanupFails);
    } else {
      DeliveryWithoutFile(s.config, job, reference, files, cleanupFails);
      MissingDelivery(s, contents, w, files, ReleaseDelivered(s.config, job, reference, files, cleanupFails).0);
    }
  }

  // ---------- Steps that write a row back ----------

  lemma RequestWriteExactly(s: System, contents: set<seq<Byte>>, w: World, files: Disk, step: Step)
    requires GoodState(s, contents, w, files) && Work.PrefixesDiffer(s.sha, contents) && EnabledOn(s, w, files, step)
    requires WritesBack(s, w, step) && (step.FinishReview? || step.RejectRelease?)
    ensures GoodFiles(s, contents, Rows(s, w, step), FilesAfter(s, w, files, step)) <==> !TooLate(s, w, files, step)
  {
    RowWriteExactly(s, contents, w, files, Saved(s, w, step).value);
  }

  /** What the end of a release comes to. */
  lemma FinishReleaseUnfolds(s: System, w: World, files: Disk, step: Step)
    requires GoodProcs(s, w) && EnabledOn(s, w, files, step) && WritesBack(s, w, step) && step.FinishRelease?
    ensures var job, outcome := w.procs[step.p].job, w.procs[step.p].outcome;
      && job.id in w.rows && Known(w.used, job) && job.status != Delivered
      && (outcome.Ok? ==>
            var (done, left) := ReleaseDelivered(s.config, job, outcome.value, files, step.cleanupFails);
            && Rows(s, w, step) == w.rows[job.id := done] && FilesAfter(s, w, files, step) == left
            && (TooLate(s, w, files, step) <==>
                  job.path !in files && !(s.config.policy == DeleteCopy && w.rows[job.id].path !in files)))
      && (outcome.Err? ==>
            && Rows(s, w, step) == w.rows[job.id := ReleaseFailed(job, outcome.error)]
            && FilesAfter(s, w, files, step) == files && (TooLate(s, w, files, step) <==> job.path !in files))
  {
  }

  lemma FinishReleaseExactly(s: System, contents: set<seq<Byte>>, w: World, files: Disk, step: Step)
    requires GoodState(s, contents, w, files) && Work.PrefixesDiffer(s.sha, contents) && EnabledOn(s, w, files, step)
    requires WritesBack(s, w, step) && step.FinishRelease?
    ensures GoodFiles(s, contents, Rows(s, w, step), FilesAfter(s, w, files, step)) <==> !TooLate(s, w, files, step)
  {
    var job := w.procs[step.p].job;
    FinishReleaseUnfolds(s, w, files, step);
    match w.procs[step.p].outcome
    case Ok(reference) => DeliveryWriteExactly(s, contents, w, files, job, reference, step.cleanupFails);
    case Err(e) => RowWriteExactly(s, contents, w, files, ReleaseFailed(job, e));
  }

  lemma FinishProcessUnfolds(s: System, w: World, files: Disk, step: Step)
    requires GoodProcs(s, w) && EnabledOn(s, w, files, step) && step.FinishProcess?
    ensures var job := w.procs[step.p].job;
      var (done, left) := Processed(s.config, job, files, step.env, w.now);
      && Known(w.used, job) && job.status == Processing && FilesAfter(s, w, files, step) == left
      && Rows(s, w, step) == SaveRow(w.rows, done) && done.id == job.id
      && (TooLate(s, w, files, step) ==> job.path !in files)
      && (job.path !in files && job.id in w.rows && done.status != Delivered ==> TooLate(s, w, files, step))
  {
    ProcessedGood(s.config, w.procs[step.p].job, files, step.env, w.now);
  }

  lemma FinishProcessExactly(s: System, contents: set<seq<Byte>>, w: World, files: Disk, step: Step)
    requires GoodState(s, contents, w, files) && Work.PrefixesDiffer(s.sha, contents) && EnabledOn(s, w, files, step)
    requires WritesBack(s, w, step) && step.FinishProcess?
    ensures GoodFiles(s, contents, Rows(s, w, step), FilesAfter(s, w, files, step)) <==> !TooLate(s, w, files, step)
  {
    FinishProcessUnfolds(s, w, files, step);
    ProcessWriteExactly(s, contents, w, files, w.procs[step.p].job, step.env);
  }

  // ---------- Steps of processes whose job is gone ----------

  /** The owner of a file at a deleted job's place is another job, in the inbox. */
  lemma TwinInInbox(s: System, contents: set<seq<Byte>>, w: World, files: Disk, job: Job) returns (k: string)
    requires GoodState(s, contents, w, files) && Work.PrefixesDiffer(s.sha, contents)
    requires Work.Placed(job) && job.id !in w.rows && job.path in files
    ensures k in w.rows && w.rows[k].path == job.path && job.path.Inbox?
    ensures forall o :: o in w.rows && w.rows[o].path == job.path ==> o == k
  {
    assert Work.HasOwner(w.rows, job.path);
    k :| k in w.rows && w.rows[k].path == job.path;
    assert Work.Placed(w.rows[k]);
    Work.PathsDiffer(s.config, s.sha, contents, Work.State(w.rows, files));
  }

  lemma GoneProcessExactly(s: System, contents: set<seq<Byte>>, w: World, files: Disk, step: Step)
    requires GoodState(s, contents, w, files) && Work.PrefixesDiffer(s.sha, contents) && EnabledOn(s, w, files, step)
    requires step.FinishProcess? && w.procs[step.p].job.id !in w.rows
    ensures GoodFiles(s, contents, w.rows, FilesAfter(s, w, files, step)) <==> !RobsTwin(s, w, files, step)
  {
    var job := w.procs[step.p].job;
    if job.path in files {
      var k := TwinInInbox(s, contents, w, files, job);
      var op := Work.Process(job, step.env, w.now);
      Work.DeletedTwinExactly(s.config, s.sha, contents, Work.State(w.rows, files), op, k);
      GoneLeaves(s, w, files, job, step.env);
    } else {
      MissingEnds(s.config, job, files, step.env, w.now);
    }
  }

  /** What a process of a deleted job leaves of the rows' files is unchanged. */
  lemma GoneLeaves(s: System, w: World, files: Disk, job: Job, env: Env)
    requires job.status == Processing && job.id !in w.rows && TrueFiles(s, w.rows, files)
    requires forall k :: k in w.rows ==>
      w.rows[k].path != Quarantine(job.id, job.filename) && w.rows[k].path != Completed(job.id, job.filename)
    ensures TrueFiles(s, w.rows, Processed(s.config, job, files, env, w.now).1)
    ensures SaveRow(w.rows, Processed(s.config, job, files, env, w.now).0) == w.rows
  {
    Work.ProcessMoves(s.config, job, files, env, w.now);
  }

  lemma GoneDelivery(
    s: System, contents: set<seq<Byte>>, w: World, files: Disk, job: Job, reference: string,
    cleanupFails: bool, k: string)
    requires GoodState(s, contents, w, files) && Work.PrefixesDiffer(s.sha, contents)
    requires Work.Placed(job) && job.id !in w.rows && job.path in files && job.path.Inbox?
    requires k in w.rows && w.rows[k].path == job.path
    ensures GoodFiles(s, contents, w.rows, ReleaseDelivered(s.config, job, reference, files, cleanupFails).1) <==>
      cleanupFails || s.config.policy == Retain || (s.config.policy == DeleteCopy && w.rows[k].status == Delivered)
  {
    var state := Work.State(w.rows, files);
    var left := ReleaseDelivered(s.config, job, reference, files, cleanupFails).1;
    if !cleanupFails {
      match s.config.policy
      case Retain =>
      case Archive =>
        assert left == Move(files, job.path, Completed(job.id, job.filename));
        Work.RobbedTwin(s.config, s.sha, contents, state, job, Completed(job.id, job.filename), k);
      case DeleteCopy =>
        assert left == Remove(files, job.path);
        Work.DroppedTwin(s.config, s.sha, contents, state, job.path, k);
    }
  }

  lemma GoneReleaseExactly(s: System, contents: set<seq<Byte>>, w: World, files: Disk, step: Step)
    requires GoodState(s, contents, w, files) && Work.PrefixesDiffer(s.sha, contents) && EnabledOn(s, w, files, step)
    requires step.FinishRelease? && w.procs[step.p].job.id !in w.rows
    ensures GoodFiles(s, contents, w.rows, FilesAfter(s, w, files, step)) <==> !RobsTwin(s, w, files, step)
  {
    var job, outcome := w.procs[step.p].job, w.procs[step.p].outcome;
    if outcome.Ok? {
      if job.path in files {
        var k := TwinInInbox(s, contents, w, files, job);
        GoneDelivery(s, contents, w, files, job, outcome.value, step.cleanupFails, k);
      } else {
        DeliveryWithoutFile(s.config, job, outcome.value, files, step.cleanupFails);
      }
    }
  }

  // ---------- All other steps ----------

  lemma IngestKeeps(s: System, contents: set<seq<Byte>>, w: World, files: Disk, step: Step)
    requires GoodState(s, contents, w, files) && Work.PrefixesDiffer(s.sha, contents) && EnabledOn(s, w, files, step)
    requires step.Ingest? && step.content in contents
    ensures GoodFiles(s, contents, Rows(s, w, step), FilesAfter(s, w, files, step))
  {
    var job, state := NewJob(step.id, step.name, step.content, s.sha, w.now), Work.State(w.rows, files);
    assert Work.Holds(s.sha, contents, job);
    Work.OthersElsewhere(s.config, s.sha, contents, state, job);
    Work.FreshKeeps(s.config, s.sha, contents, state, job, step.content);
  }

  lemma DeleteKeeps(s: System, contents: set<seq<Byte>>, w: World, files: Disk, step: Step)
    requires GoodState(s, contents, w, files) && Work.PrefixesDiffer(s.sha, contents) && EnabledOn(s, w, files, step)
    requires step.Delete?
    ensures GoodFiles(s, contents, Rows(s, w, step), FilesAfter(s, w, files, step))
  {
    if step.id in w.rows && Deletable(w.rows[step.id].status) {
      Work.RemoveKeeps(s.config, s.sha, contents, Work.State(w.rows, files), step.id);
    }
  }

  /** A change of status keeps a job that still has its file. */
  lemma RestateKeeps(s: System, contents: set<seq<Byte>>, w: World, files: Disk, job: Job)
    requires GoodState(s, contents, w, files) && Work.PrefixesDiffer(s.sha, contents)
    requires job.id in w.rows && w.rows[job.id].status != Delivered
    requires var row := w.rows[job.id]; job.path == row.path && job.sha256 == row.sha256 && job.filename == row.filename
    ensures GoodFiles(s, contents, w.rows[job.id := job], files)
  {
    assert Work.Backed(s.config, s.sha, files, w.rows[job.id]);
    RewriteKeeps(s, contents, w, files, job, files);
  }

  predicate ChangesStatus(step: Step) {
    step.Claim? || step.Renew? || step.ClaimRelease? || step.Retry?
  }

  /** The row a claim, renewal or retry updates, if any. */
  lemma StatusChange(s: System, w: World, step: Step) returns (job: Option<Job>)
    requires GoodTable(s.config, w.rows, w.used) && Enabled(s, w, step) && ChangesStatus(step)
    ensures job == None ==> Rows(s, w, step) == w.rows
    ensures job.Some? ==>
      var id := job.value.id;
      && id in w.rows && w.rows[id].status != Delivered && Rows(s, w, step) == w.rows[id := job.value]
      && job.value.path == w.rows[id].path && job.value.sha256 == w.rows[id].sha256
      && job.value.filename == w.rows[id].filename
  {
    var id := if step.Claim? || step.Retry? then step.id else w.procs[step.p].job.id;
    job := if id in w.rows && Rows(s, w, step) != w.rows then Some(Rows(s, w, step)[id]) else None;
  }

  lemma StatusKeeps(s: System, contents: set<seq<Byte>>, w: World, files: Disk, step: Step)
    requires GoodState(s, contents, w, files) && Work.PrefixesDiffer(s.sha, contents) && EnabledOn(s, w, files, step)
    requires ChangesStatus(step)
    ensures GoodFiles(s, contents, Rows(s, w, step), FilesAfter(s, w, files, step))
  {
    var job := StatusChange(s, w, step);
    if job.Some? {
      RestateKeeps(s, contents, w, files, job.value);
    }
  }

  predicate SavesRow(step: Step) {
    step.FinishProcess? || step.FinishReview? || step.RejectRelease? || step.FinishRelease?
  }

  lemma OthersKeep(s: System, contents: set<seq<Byte>>, w: World, files: Disk, step: Step)
    requires GoodState(s, contents, w, files) && Work.PrefixesDiffer(s.sha, contents) && EnabledOn(s, w, files, step)
    requires !SavesRow(step) && (step.Ingest? ==> step.content in contents)
    ensures GoodFiles(s, contents, Rows(s, w, step), FilesAfter(s, w, files, step))
  {
    if step.Ingest? {
      IngestKeeps(s, contents, w, files, step);
    } else if step.Delete? {
      DeleteKeeps(s, contents, w, files, step);
    } else if ChangesStatus(step) {
      StatusKeeps(s, contents, w, files, step);
    }
  }

  lemma SnapshotsStayPlaced(s: System, contents: set<seq<Byte>>, w: World, files: Disk, step: Step)
    requires GoodState(s, contents, w, files) && Enabled(s, w, step)
    ensures PlacedProcs(Apply(s, w, step))
  {
    forall p | p in Procs(s, w, step)
      ensures Work.Placed(Procs(s, w, step)[p].job)
    {
      SnapshotPlaced(s, w, step, p);
    }
  }

  lemma SnapshotPlaced(s: System, w: World, step: Step, p: string)
    requires Keyed(w.rows) && Enabled(s, w, step) && p in Procs(s, w, step) && PlacedProcs(w)
    requires forall id :: id in w.rows ==> Work.Placed(w.rows[id])
    ensures Work.Placed(Procs(s, w, step)[p].job)
  {
  }

  // ---------- Exactly the harmful steps ----------

  lemma WriteExactly(s: System, contents: set<seq<Byte>>, w: World, files: Disk, step: Step)
    requires GoodState(s, contents, w, files) && Work.PrefixesDiffer(s.sha, contents) && EnabledOn(s, w, files, step)
    requires WritesBack(s, w, step)
    ensures GoodFiles(s, contents, Rows(s, w, step), FilesAfter(s, w, files, step)) <==> !TooLate(s, w, files, step)
  {
    if step.FinishProcess? {
      FinishProcessExactly(s, contents, w, files, step);
    } else if step.FinishRelease? {
      FinishReleaseExactly(s, contents, w, files, step);
    } else {
      RequestWriteExactly(s, contents, w, files, step);
    }
  }

  lemma GoneExactly(s: System, contents: set<seq<Byte>>, w: World, files: Disk, step: Step)
    requires GoodState(s, contents, w, files) && Work.PrefixesDiffer(s.sha, contents) && EnabledOn(s, w, files, step)
    requires SavesRow(step) && !WritesBack(s, w, step)
    ensures GoodFiles(s, contents, Rows(s, w, step), FilesAfter(s, w, files, step)) <==> !RobsTwin(s, w, files, step)
  {
    SavedIds(s, w, step);
    if step.FinishProcess? {
      GoneProcessExactly(s, contents, w, files, step);
    } else if step.FinishRelease? {
      GoneReleaseExactly(s, contents, w, files, step);
    }
  }

  /** A row is written back under the id of its snapshot. */
  lemma SavedIds(s: System, w: World, step: Step)
    requires GoodProcs(s, w) && Enabled(s, w, step) && SavesRow(step)
    ensures Saved(s, w, step).Some? ==> Saved(s, w, step).value.id == w.procs[step.p].job.id
    ensures !WritesBack(s, w, step) ==> Rows(s, w, step) == w.rows
    ensures step.FinishProcess? || step.FinishRelease? ==> Saved(s, w, step).Some?
  {
    if step.FinishProcess? {
      ProcessedGood(s.config, w.procs[step.p].job, step.files, step.env, w.now);
    }
  }

  /**
   In every interleaving, a step leaves each job its bytes, each file its job and no path shared,
   exactly when it is no whole-row write whose snapshot's file has gone elsewhere meanwhile, and
   no process of a deleted job that takes a file another job needs.
   */
  lemma SharedStepExactly(s: System, contents: set<seq<Byte>>, w: World, files: Disk, step: Step)
    requires s.config.maxAttempts >= 1 && GoodState(s, contents, w, files) && Work.PrefixesDiffer(s.sha, contents)
    requires EnabledOn(s, w, files, step) && (step.Ingest? ==> step.content in contents)
    ensures GoodState(s, contents, Apply(s, w, step), FilesAfter(s, w, files, step)) <==>
      !TooLate(s, w, files, step) && !RobsTwin(s, w, files, step)
  {
    StepKeeps(s, w, step);
    SnapshotsStayPlaced(s, contents, w, files, step);
    NotBoth(s, w, files, step);
    if !SavesRow(step) {
      OthersKeep(s, contents, w, files, step);
    } else if WritesBack(s, w, step) {
      WriteExactly(s, contents, w, files, step);
    } else {
      GoneExactly(s, contents, w, files, step);
    }
  }

  lemma NotBoth(s: System, w: World, files: Disk, step: Step)
    requires GoodProcs(s, w) && EnabledOn(s, w, files, step)
    ensures RobsTwin(s, w, files, step) ==> SavesRow(step) && !WritesBack(s, w, step)
    ensures TooLate(s, w, files, step) ==> SavesRow(step) && WritesBack(s, w, step)
  {
    if step.FinishProcess? || step.FinishRelease? {
      SavedIds(s, w, step);
    }
  }

  /** A write is late exactly when the row has come to name another place or its file was dropped. */
  lemma TooLateExactly(s: System, contents: set<seq<Byte>>, w: World, files: Disk, step: Step)
    requires GoodState(s, contents, w, files) && Work.PrefixesDiffer(s.sha, contents)
    requires EnabledOn(s, w, files, step) && WritesBack(s, w, step)
    ensures var job, row := w.procs[step.p].job, w.rows[Saved(s, w, step).value.id];
      TooLate(s, w, files, step) <==>
        && (row.path != job.path || (row.status == Delivered && s.config.policy == DeleteCopy && row.path !in files))
        && !(Saved(s, w, step).value.status == Delivered && s.config.policy == DeleteCopy && row.path !in files)
  {
    SavedIds(s, w, step);
    var job := w.procs[step.p].job;
    InPlaceExactly(s, contents, w, files, job);
    assert Work.Backed(s.config, s.sha, files, w.rows[job.id]);
  }

  // ---------- Runs ----------

  ghost predicate FileStepAt(s: System, contents: set<seq<Byte>>, r: Run, disks: seq<Disk>, i: nat)
    requires i < |r.steps| && |disks| == |r.worlds| == |r.steps| + 1
  {
    && StepAt(s, r, i) && EnabledOn(s, r.worlds[i], disks[i], r.steps[i])
    && (r.steps[i].Ingest? ==> r.steps[i].content in contents)
    && disks[i + 1] == FilesAfter(s, r.worlds[i], disks[i], r.steps[i])
  }

  /** A run of module Concurrency with its work directories. */
  ghost predicate IsFileRun(s: System, contents: set<seq<Byte>>, r: Run, disks: seq<Disk>) {
    && |disks| == |r.worlds| == |r.steps| + 1
    && forall i: nat :: i < |r.steps| ==> FileStepAt(s, contents, r, disks, i)
  }

  ghost predicate Harmless(s: System, r: Run, disks: seq<Disk>, i: nat)
    requires i < |r.steps| && |disks| == |r.worlds| == |r.steps| + 1 && EnabledOn(s, r.worlds[i], disks[i], r.steps[i])
  {
    !TooLate(s, r.worlds[i], disks[i], r.steps[i]) && !RobsTwin(s, r.worlds[i], disks[i], r.steps[i])
  }

  lemma {:induction false} StaysGood(s: System, contents: set<seq<Byte>>, r: Run, disks: seq<Disk>, i: nat)
    requires s.config.maxAttempts >= 1 && IsFileRun(s, contents, r, disks) && Work.PrefixesDiffer(s.sha, contents)
    requires GoodState(s, contents, r.worlds[0], disks[0]) && i < |r.worlds|
    requires forall k: nat :: k < i ==> FileStepAt(s, contents, r, disks, k) && Harmless(s, r, disks, k)
    ensures GoodState(s, contents, r.worlds[i], disks[i])
  {
    if i > 0 {
      StaysGood(s, contents, r, disks, i - 1);
      assert FileStepAt(s, contents, r, disks, i - 1) && Harmless(s, r, disks, i - 1);
      SharedStepExactly(s, contents, r.worlds[i - 1], disks[i - 1], r.steps[i - 1]);
    }
  }

  /** Ownership holds in every state of a run exactly when none of its steps is harmful. */
  lemma SharedRunExactly(s: System, contents: set<seq<Byte>>, r: Run, disks: seq<Disk>)
    requires s.config.maxAttempts >= 1 && IsFileRun(s, contents, r, disks) && Work.PrefixesDiffer(s.sha, contents)
    requires GoodState(s, contents, r.worlds[0], disks[0])
    ensures (forall i: nat :: i < |r.worlds| ==> GoodState(s, contents, r.worlds[i], disks[i]))
      <==> (forall i: nat :: i < |r.steps| ==> FileStepAt(s, contents, r, disks, i) && Harmless(s, r, disks, i))
  {
    if forall i: nat :: i < |r.worlds| ==> GoodState(s, contents, r.worlds[i], disks[i]) {
      forall i: nat | i < |r.steps|
        ensures FileStepAt(s, contents, r, disks, i) && Harmless(s, r, disks, i)
      {
        assert FileStepAt(s, contents, r, disks, i);
        assert GoodState(s, contents, r.worlds[i], disks[i]) && GoodState(s, contents, r.worlds[i + 1], disks[i + 1]);
        SharedStepExactly(s, contents, r.worlds[i], disks[i], r.steps[i]);
      }
    } else if forall i: nat :: i < |r.steps| ==> FileStepAt(s, contents, r, disks, i) && Harmless(s, r, disks, i) {
      forall i: nat | i < |r.worlds|
        ensures GoodState(s, contents, r.worlds[i], disks[i])
      {
        StaysGood(s, contents, r, disks, i);
      }
    }
  }

  // ---------- A review that comes too late ----------

  ghost predicate Next(s: System, w: World, files: Disk, step: Step, v: World, left: Disk) {
    EnabledOn(s, w, files, step) && !step.Ingest? && v == Apply(s, w, step) && left == FilesAfter(s, w, files, step)
  }

  function Finished(job: Job, reference: string): Job {
    Thefts.Checked(job).(destination := Some(reference), status := Delivered)
  }

  ghost predicate Quarantining(s: System, w: World, job: Job) {
    && job.id in w.rows && w.rows[job.id] == job && job.status == Quarantined && RuleErrors(s.config, job) == []
    && w.procs == map[] && s.config.policy == DeleteCopy
  }

  lemma BothRead(s: System, w: World, files: Disk, job: Job)
    requires Quarantining(s, w, job)
    ensures var a, b := Reviewing(job), Releasing(job);
      && Next(s, w, files, BeginReview("a", job.id), Thefts.With(w, job, map["a" := a]), files)
      && Next(s, Thefts.With(w, job, map["a" := a]), files, BeginRelease("b", job.id),
           Thefts.With(w, job, map["a" := a, "b" := b]), files)
  {
    assert w.rows[job.id := job] == w.rows;
  }

  lemma ReleaseClaims(s: System, w: World, files: Disk, job: Job, reference: string)
    requires Quarantining(s, w, job)
    ensures var a, c := Reviewing(job), Thefts.Checked(job);
      var held := c.(errors := job.errors);
      var claimed := Thefts.With(w, held, map["a" := a, "b" := DeliveryClaimed(c)]);
      && Next(s, Thefts.With(w, job, map["a" := a, "b" := Releasing(job)]), files, ClaimRelease("b"), claimed, files)
      && Next(s, claimed, files, CallConnector("b", Ok(reference)),
           Thefts.With(w, held, map["a" := a, "b" := Called(c, Ok(reference))]), files)
  {
  }

  lemma ReleaseDrops(s: System, w: World, files: Disk, job: Job, reference: string)
    requires Quarantining(s, w, job)
    ensures var a, c := Reviewing(job), Thefts.Checked(job);
      Next(s, Thefts.With(w, c.(errors := job.errors), map["a" := a, "b" := Called(c, Ok(reference))]), files,
        FinishRelease("b", files, false), Thefts.With(w, Finished(job, reference), map["a" := a]),
        Remove(files, job.path))
  {
    var a, c := Reviewing(job), Thefts.Checked(job);
    assert Without(map["a" := a, "b" := Called(c, Ok(reference))], "b") == map["a" := a];
  }

  lemma ReviewOverwrites(s: System, w: World, files: Disk, job: Job, reference: string)
    requires Quarantining(s, w, job)
    ensures Next(s, Thefts.With(w, Finished(job, reference), map["a" := Reviewing(job)]), files,
      FinishReview("a", Thefts.NO_CHANGE),
      Thefts.With(w, job, map[]), files)
  {
    assert Without(map["a" := Reviewing(job)], "a") == map[];
    assert Reviewed(job, Thefts.NO_CHANGE) == Some(job);
  }

  /**
   A review reads a quarantined job; a release delivers the job and drops its file; the review
   then writes the job back as QUARANTINED, without a file.
   */
  lemma StaleReviewLosesFile(s: System, contents: set<seq<Byte>>, w: World, files: Disk, job: Job, reference: string)
    returns (r: Run, disks: seq<Disk>)
    requires Quarantining(s, w, job)
    ensures IsFileRun(s, contents, r, disks) && |r.steps| == 6 && r.worlds[0] == w && disks[0] == files
    ensures r.worlds[6].rows == w.rows && w.rows[job.id].status == Quarantined && job.path !in disks[6]
  {
    var a, c, gone := Reviewing(job), Thefts.Checked(job), Remove(files, job.path);
    var held := c.(errors := job.errors);
    r := Run(
      [w, Thefts.With(w, job, map["a" := a]), Thefts.With(w, job, map["a" := a, "b" := Releasing(job)]),
       Thefts.With(w, held, map["a" := a, "b" := DeliveryClaimed(c)]),
       Thefts.With(w, held, map["a" := a, "b" := Called(c, Ok(reference))]),
       Thefts.With(w, Finished(job, reference), map["a" := a]), Thefts.With(w, job, map[])],
      [BeginReview("a", job.id), BeginRelease("b", job.id), ClaimRelease("b"), CallConnector("b", Ok(reference)),
       FinishRelease("b", files, false), FinishReview("a", Thefts.NO_CHANGE)]);
    disks := [files, files, files, files, files, gone, gone];
    BothRead(s, w, files, job);
    ReleaseClaims(s, w, files, job, reference);
    ReleaseDrops(s, w, files, job, reference);
    ReviewOverwrites(s, w, gone, job, reference);
    NextsRun(s, contents, r, disks);
    assert w.rows[job.id := job] == w.rows;
  }

  lemma NextsRun(s: System, contents: set<seq<Byte>>, r: Run, disks: seq<Disk>)
    requires |disks| == |r.worlds| == |r.steps| + 1
    requires forall i: nat :: i < |r.steps| ==>
      Next(s, r.worlds[i], disks[i], r.steps[i], r.worlds[i + 1], disks[i + 1])
    ensures IsFileRun(s, contents, r, disks)
  {
    forall i: nat | i < |r.steps|
      ensures FileStepAt(s, contents, r, disks, i)
    {
      assert Next(s, r.worlds[i], disks[i], r.steps[i], r.worlds[i + 1], disks[i + 1]);
    }
  }
}
