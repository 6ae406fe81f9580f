/**
 delete_job (api.py) racing a worker that processes the same job (process in pipeline.py),
 file operation by file operation and transaction by transaction.
 */
module DeleteRace {
  import opened Wrappers
  import opened Jobs
  import opened Pipeline

  /** A worker between two of its effects. */
  datatype WorkerAt =
    | Begun(job: Job)                 // claimed, nothing done
    | Quarantining(job: Job)          // the rules failed; about to move the work copy to quarantine
    | Finishing(job: Job)             // delivered; about to finalise the work copy
    | Saving(job: Job)                // about to save
    | WorkerDone

  /** The endpoint between two of its effects. */
  datatype DeleteAt =
    | Asked
    | RowDeleted(job: Job)            // about to unlink the stored path
    | Unlinked(job: Job)              // about to unlink the quarantine path
    | Deleted
    | Refused

  datatype Race = Race(rows: Table, files: Disk, worker: WorkerAt, delete: DeleteAt)

  function Closed(c: Config, job: Job, raised: Option<Failure>, now: real): WorkerAt {
    var done := match raised
      case None => job.(lastError := None, nextAttempt := None)
      case Some(e) => AfterFailure(c, job, e, now);
    Saving(done.(worker := None, lease := None))
  }

  function WorkerStep(c: Config, r: Race, env: Env, now: real): Race {
    match r.worker
    case Begun(job) =>
      r.(worker :=
        if job.path !in r.files then Closed(c, job, Some(FILE_MISSING), now)
        else if env.extract.Some? then Closed(c, job, env.extract, now)
        else
          match env.classify
          case Err(e) => Closed(c, job, Some(e), now)
          case Ok(documentType) =>
            var typed := job.(documentType := documentType);
            if env.prepare.Some? then Closed(c, typed, env.prepare, now)
            else
              var checked := typed.(errors := Validate(c, documentType, job.routing.Some?));
              if checked.errors != [] then Quarantining(checked)
              else
                match env.deliver
                case Err(e) => Closed(c, checked, Some(e), now)
                case Ok(reference) => Finishing(checked.(destination := Some(reference))))
    case Quarantining(job) =>
      var t := QuarantineStep(job, r.files, env);
      r.(files := t.files, worker := Closed(c, t.job, t.raised, now))
    case Finishing(job) =>
      var (done, files) := Finalize(c, job, r.files, env.cleanupFails);
      r.(files := files, worker := Closed(c, done.(status := Delivered), None, now))
    case Saving(job) => r.(rows := SaveRow(r.rows, job), worker := WorkerDone)
    case WorkerDone => r
  }

  function DeleteStep(r: Race, id: string): Race {
    match r.delete
    case Asked =>
      if id in r.rows && Deletable(r.rows[id].status)
      then r.(rows := DeleteRow(r.rows, id), delete := RowDeleted(r.rows[id]))
      else r.(delete := Refused)
    case RowDeleted(job) => r.(files := Remove(r.files, job.path), delete := Unlinked(job))
    case Unlinked(job) => r.(files := Remove(r.files, Quarantine(id, job.filename)), delete := Deleted)
    case Deleted => r
    case Refused => r
  }

  /** Who takes the next step. */
  datatype Turn = Worker | Delete

  function Step(c: Config, r: Race, id: string, env: Env, now: real, turn: Turn): Race {
    if turn == Worker then WorkerStep(c, r, env, now) else DeleteStep(r, id)
  }

  /** One interleaving: any schedule of turns. */
  function Play(c: Config, r: Race, id: string, env: Env, now: real, turns: seq<Turn>): Race
    decreases |turns|
  {
    if turns == [] then r else Play(c, Step(c, r, id, env, now, turns[0]), id, env, now, turns[1..])
  }

  /** A worker has claimed the job, whose work copy is in the inbox, and nothing else has happened. */
  predicate Starts(c: Config, r: Race, job: Job) {
    && job.id in r.rows && r.rows[job.id] == job && job.status == Processing && job.path.Inbox? && job.path in r.files
    && Quarantine(job.id, job.filename) !in r.files && Completed(job.id, job.filename) !in r.files
    && r.worker == Begun(job) && r.delete == Asked
  }

  // ---------- The steps are those of process and delete_job ----------

  lemma Unfold(c: Config, r: Race, id: string, env: Env, now: real, turn: Turn, rest: seq<Turn>)
    ensures Play(c, r, id, env, now, [turn] + rest) == Play(c, Step(c, r, id, env, now, turn), id, env, now, rest)
  {
    assert ([turn] + rest)[1..] == rest;
  }

  lemma PlayThree(c: Config, r: Race, id: string, env: Env, now: real, turn: Turn)
    ensures Play(c, r, id, env, now, [turn, turn, turn])
      == Step(c, Step(c, Step(c, r, id, env, now, turn), id, env, now, turn), id, env, now, turn)
  {
    Unfold(c, r, id, env, now, turn, [turn, turn]);
    assert [turn, turn, turn] == [turn] + [turn, turn];
    var s := Step(c, r, id, env, now, turn);
    Unfold(c, s, id, env, now, turn, [turn]);
    assert [turn, turn] == [turn] + [turn];
    Unfold(c, Step(c, s, id, env, now, turn), id, env, now, turn, []);
  }

  lemma BeginMatches(c: Config, r: Race, job: Job, env: Env, now: real)
    requires r.worker == Begun(job)
    ensures var t := TrySteps(c, job, r.files, env);
      match WorkerStep(c, r, env, now).worker
      case Saving(j) => t.files == r.files && Saving(j) == Closed(c, t.job, t.raised, now)
      case Quarantining(j) => t == QuarantineStep(j, r.files, env)
      case Finishing(j) =>
        var (done, files) := Finalize(c, j, r.files, env.cleanupFails);
        t == Tried(done.(status := Delivered), files, None)
      case _ => false
  {
  }

  lemma ClosedIsProcessed(c: Config, job: Job, files: Disk, env: Env, now: real)
    requires job.status == Processing
    ensures var t, (done, left) := TrySteps(c, job, files, env), Processed(c, job, files, env, now);
      left == t.files && Closed(c, t.job, t.raised, now) == Saving(done)
  {
  }

  lemma WorkerSteps(c: Config, r: Race, job: Job, env: Env, now: real)
    requires r.worker == Begun(job) && job.status == Processing
    ensures var end := WorkerStep(c, WorkerStep(c, r, env, now), env, now);
      var (done, files) := Processed(c, job, r.files, env, now);
      && end.files == files
        && (end.worker == Saving(done) || (end.worker == WorkerDone && end.rows == SaveRow(r.rows, done)))
      && (end.worker == Saving(done) ==> end.rows == r.rows)
  {
    BeginMatches(c, r, job, env, now);
    ClosedIsProcessed(c, job, r.files, env, now);
    var begun := WorkerStep(c, r, env, now);
    assert begun.rows == r.rows && begun.files == r.files;
  }

  /** Without a race the worker's steps are process. */
  lemma WorkerAlone(c: Config, r: Race, job: Job, env: Env, now: real)
    requires Starts(c, r, job)
    ensures var end := Play(c, r, job.id, env, now, [Worker, Worker, Worker]);
      var (done, files) := Processed(c, job, r.files, env, now);
      end.worker == WorkerDone && end.rows == SaveRow(r.rows, done) && end.files == files
  {
    PlayThree(c, r, job.id, env, now, Worker);
    WorkerSteps(c, r, job, env, now);
  }

  lemma DeleteAlone(c: Config, r: Race, job: Job, env: Env, now: real)
    requires Starts(c, r, job)
    ensures var end := Play(c, r, job.id, env, now, [Delete, Delete, Delete]);
      end.delete == Deleted && (end.rows, end.files) == DeletedJob(r.rows, r.files, job.id)
  {
    PlayThree(c, r, job.id, env, now, Delete);
  }

  // ---------- Every interleaving ----------

  predicate SameCopy(job: Job, other: Job) {
    other.id == job.id && other.filename == job.filename
  }

  /** Where the work copy may be, given how far both sides are. */
  predicate WorkerKnows(job: Job, r: Race) {
    var q := Quarantine(job.id, job.filename);
    match r.worker
    case Begun(j) => SameCopy(job, j) && j.path == job.path && q !in r.files && j.status == Processing
    case Quarantining(j) => SameCopy(job, j) && j.path == job.path && q !in r.files
    case Finishing(j) => SameCopy(job, j) && j.path == job.path && q !in r.files
    case Saving(j) =>
      SameCopy(job, j) && (j.path != job.path ==> job.path !in r.files) && (j.path != q ==> q !in r.files)
    case WorkerDone => true
  }

  predicate DeleteKnows(job: Job, r: Race) {
    var q := Quarantine(job.id, job.filename);
    match r.delete
    case Asked =>
      && job.id in r.rows && SameCopy(job, r.rows[job.id])
      && (r.worker != WorkerDone ==> r.rows[job.id] == job)
      && (r.worker == WorkerDone ==>
        && (r.rows[job.id].path != job.path ==> job.path !in r.files) && (r.rows[job.id].path != q ==> q !in r.files))
    case RowDeleted(d) =>
      && job.id !in r.rows && SameCopy(job, d)
      && (d.path != job.path ==> job.path !in r.files)
    case Unlinked(d) => job.id !in r.rows && SameCopy(job, d) && job.path !in r.files
    case Deleted => job.id !in r.rows && job.path !in r.files && q !in r.files
    case Refused => true
  }

  lemma WorkerTurnKeeps(c: Config, job: Job, r: Race, env: Env, now: real)
    requires WorkerKnows(job, r) && DeleteKnows(job, r) && job.path.Inbox?
    ensures var next := WorkerStep(c, r, env, now); WorkerKnows(job, next) && DeleteKnows(job, next)
  {
  }

  lemma DeleteTurnKeeps(job: Job, r: Race)
    requires WorkerKnows(job, r) && DeleteKnows(job, r) && job.path.Inbox?
    ensures var next := DeleteStep(r, job.id); WorkerKnows(job, next) && DeleteKnows(job, next)
  {
  }

  lemma {:induction false} PlayKeeps(c: Config, job: Job, r: Race, env: Env, now: real, turns: seq<Turn>)
    requires WorkerKnows(job, r) && DeleteKnows(job, r) && job.path.Inbox?
    ensures var end := Play(c, r, job.id, env, now, turns); WorkerKnows(job, end) && DeleteKnows(job, end)
    decreases |turns|
  {
    if turns != [] {
      if turns[0] == Worker { WorkerTurnKeeps(c, job, r, env, now); } else { DeleteTurnKeeps(job, r); }
      PlayKeeps(c, job, Step(c, r, job.id, env, now, turns[0]), env, now, turns[1..]);
    }
  }

  /**
   However the worker's steps fall between those of a delete that answered 204, no row and no inbox or
   quarantine copy remains.
   */
  lemma DeleteLeavesNothing(c: Config, job: Job, r: Race, env: Env, now: real, turns: seq<Turn>)
    requires Starts(c, r, job)
    ensures var end := Play(c, r, job.id, env, now, turns);
      end.delete == Deleted ==>
        job.id !in end.rows && job.path !in end.files && Quarantine(job.id, job.filename) !in end.files
  {
    PlayKeeps(c, job, r, env, now, turns);
  }

  // ---------- Archived copies ----------

  /** The attempt passes the rules, delivers and finalises the work copy. */
  predicate Delivers(c: Config, job: Job, env: Env) {
    && env.extract == None && env.classify.Ok? && env.prepare == None
    && Validate(c, env.classify.value, job.routing.Some?) == []
    && env.deliver.Ok? && !env.cleanupFails
  }

  predicate NoArchive(c: Config, job: Job, env: Env, r: Race) {
    && Completed(job.id, job.filename) !in r.files
    && match r.worker
       case Begun(j) => j == job
       case Quarantining(j) => SameCopy(job, j)
       case Finishing(j) => SameCopy(job, j) && (c.policy != Archive || env.cleanupFails)
       case _ => true
  }

  lemma {:induction false} StaysUnarchived(c: Config, job: Job, r: Race, env: Env, now: real, turns: seq<Turn>)
    requires NoArchive(c, job, env, r) && !(c.policy == Archive && Delivers(c, job, env)) && job.path.Inbox?
    ensures Completed(job.id, job.filename) !in Play(c, r, job.id, env, now, turns).files
    decreases |turns|
  {
    if turns != [] {
      StaysUnarchived(c, job, Step(c, r, job.id, env, now, turns[0]), env, now, turns[1..]);
    }
  }

  ghost predicate LeavesArchived(c: Config, job: Job, r: Race, env: Env, now: real, turns: seq<Turn>) {
    var end := Play(c, r, job.id, env, now, turns);
    end.delete == Deleted && job.id !in end.rows && Completed(job.id, job.filename) in end.files
  }

  /** A deleted job can leave a completed copy behind exactly when the policy archives and the attempt delivers. */
  lemma ArchiveLeftoverExactly(c: Config, job: Job, r: Race, env: Env, now: real)
    requires Starts(c, r, job)
    ensures (exists turns :: LeavesArchived(c, job, r, env, now, turns)) <==>
      c.policy == Archive && Delivers(c, job, env)
  {
    if c.policy == Archive && Delivers(c, job, env) {
      ArchiveLeftover(c, job, r, env, now);
    } else {
      forall turns
        ensures !LeavesArchived(c, job, r, env, now, turns)
      {
        StaysUnarchived(c, job, r, env, now, turns);
      }
    }
  }

  /** The file is archived between the deletion of the row and the two unlinks. */
  lemma ArchiveLeftover(c: Config, job: Job, r: Race, env: Env, now: real)
    requires Starts(c, r, job) && c.policy == Archive && Delivers(c, job, env)
    ensures LeavesArchived(c, job, r, env, now, [Worker, Worker, Delete] + [Delete, Delete])
  {
    var one := WorkerStep(c, r, env, now);
    var two := WorkerStep(c, one, env, now);
    assert Completed(job.id, job.filename) in two.files && two.rows == r.rows && two.delete == Asked;
    Unfold(c, r, job.id, env, now, Worker, [Worker, Delete] + [Delete, Delete]);
    assert [Worker, Worker, Delete] + [Delete, Delete] == [Worker] + ([Worker, Delete] + [Delete, Delete]);
    Unfold(c, one, job.id, env, now, Worker, [Delete, Delete, Delete]);
    assert [Worker, Delete] + [Delete, Delete] == [Worker] + [Delete, Delete, Delete];
    PlayThree(c, two, job.id, env, now, Delete);
  }
}
