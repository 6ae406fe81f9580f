/**
 The document pipeline (pipeline.py) and the delete endpoint (api.py): each operation as
 a function of the job table and the work directory, and the class that runs it step by step.
 Extraction, classification, scanning, delivery and the file system may fail at any point;
 what they answer is passed in.
 */
module Pipeline {
  import opened Wrappers
  import opened Bytes
  import opened Jobs

  datatype Policy = Retain | Archive | DeleteCopy

  datatype Config = Config(
    maxAttempts: int, retryBase: int, requireRouting: bool, policy: Policy, leaseSeconds: real, maxFileSize: int)

  type Disk = map<Path, seq<Byte>>

  function Remove(files: Disk, path: Path): Disk {
    map p | p in files && p != path :: files[p]
  }

  /** Path.replace: the target, if any, is overwritten. */
  function Move(files: Disk, source: Path, target: Path): Disk
    requires source in files
  {
    Remove(files, source)[target := files[source]]
  }

  // ---------- Exceptions ----------

  datatype Kind = Permanent | Temporary(retryAfter: Option<int>) | Other

  datatype Failure = Failure(message: string, kind: Kind)

  const FILE_MISSING := Failure("missing", Other)
  const MOVE_FAILED := Failure("move", Other)

  // ---------- Workflow rules ----------

  const UNKNOWN := "unknown"
  const TYPE_ERROR := "Dokumenttyp konnte nicht bestimmt werden"
  const ROUTING_ERROR := "Routing-Referenz fehlt"

  /** Type and routing satisfy the workflow rules. */
  predicate MeetsRules(config: Config, documentType: string, hasRouting: bool) {
    documentType != UNKNOWN && (config.requireRouting ==> hasRouting)
  }

  function Validate(config: Config, documentType: string, hasRouting: bool): (errors: seq<string>)
    ensures errors == [] <==> MeetsRules(config, documentType, hasRouting)
  {
    (if documentType == UNKNOWN then [TYPE_ERROR] else [])
    + (if config.requireRouting && !hasRouting then [ROUTING_ERROR] else [])
  }

  /** The errors name the rules that are broken, and no others. */
  lemma BrokenRules(config: Config, documentType: string, hasRouting: bool)
    ensures var errors := Validate(config, documentType, hasRouting);
      && (TYPE_ERROR in errors <==> documentType == UNKNOWN)
      && (ROUTING_ERROR in errors <==> config.requireRouting && !hasRouting)
      && (forall e :: e in errors ==> e == TYPE_ERROR || e == ROUTING_ERROR)
  {
    assert |TYPE_ERROR| != |ROUTING_ERROR|;
  }

  // ---------- Retry delay ----------

  function Pow2(n: nat): (p: int)
    ensures p >= 1
  {
    if n == 0 then 1 else 2 * Pow2(n - 1)
  }

  /** base * 2 ** (attempts - 1); Python gives a fraction for attempts below one. */
  function Backoff(base: int, attempts: int): real {
    if attempts >= 1 then (base * Pow2(attempts - 1)) as real else base as real / Pow2(1 - attempts) as real
  }

  /** The first delay is the base, and each further attempt doubles it. */
  lemma BackoffDoubles(base: int, attempts: int)
    ensures Backoff(base, 1) == base as real
    ensures Backoff(base, attempts + 1) == 2.0 * Backoff(base, attempts)
  {
    if attempts >= 1 {
      assert Pow2(attempts) == 2 * Pow2(attempts - 1);
    } else {
      assert Pow2(1 - attempts) == 2 * Pow2(-attempts);
    }
  }

  function RetryDelay(config: Config, attempts: int, kind: Kind): real {
    var delay := Backoff(config.retryBase, attempts);
    if kind.Temporary? && kind.retryAfter.Some? && delay < kind.retryAfter.value as real
    then kind.retryAfter.value as real else delay
  }

  // ---------- process ----------

  /** What the steps of one processing attempt answer. */
  datatype Env = Env(
    extract: Option<Failure>,          // None: the text was extracted
    classify: Result<string, Failure>, // the document type
    prepare: Option<Failure>,          // events and delivery rule before validation
    moveFails: bool,                   // the file system refuses the move to quarantine
    notify: Option<Failure>,           // the review_required event
    deliver: Result<string, Failure>,  // the destination reference
    cleanupFails: bool)                // the file system refuses the final clean-up

  datatype Tried = Tried(job: Job, files: Disk, raised: Option<Failure>)

  /** _finalize_work_copy: a failing clean-up is noted, not raised. */
  function Finalize(config: Config, job: Job, files: Disk, cleanupFails: bool): (Job, Disk) {
    if cleanupFails then (job, files)
    else
      match config.policy
      case Retain => (job, files)
      case DeleteCopy => (job, Remove(files, job.path))
      case Archive =>
        var target := Completed(job.id, job.filename);
        if job.path == target || job.path !in files then (job, files)
        else (job.(path := target), Move(files, job.path, target))
  }

  function QuarantineStep(job: Job, files: Disk, env: Env): Tried {
    var held := job.(status := Quarantined);
    var target := Quarantine(job.id, job.filename);
    if held.path == target then Tried(held, files, env.notify)
    else if env.moveFails || held.path !in files then Tried(held, files, Some(MOVE_FAILED))
    else Tried(held.(path := target), Move(files, held.path, target), env.notify)
  }

  function DeliverStep(config: Config, job: Job, files: Disk, env: Env): Tried {
    match env.deliver
    case Err(e) => Tried(job, files, Some(e))
    case Ok(reference) =>
      var (finished, left) := Finalize(config, job.(destination := Some(reference)), files, env.cleanupFails);
      Tried(finished.(status := Delivered), left, None)
  }

  /** The try block of process. */
  function TrySteps(config: Config, job: Job, files: Disk, env: Env): Tried {
    if job.path !in files then Tried(job, files, Some(FILE_MISSING))
    else if env.extract.Some? then Tried(job, files, env.extract)
    else
      match env.classify
      case Err(e) => Tried(job, files, Some(e))
      case Ok(documentType) =>
        var typed := job.(documentType := documentType);
        if env.prepare.Some? then Tried(typed, files, env.prepare)
        else
          var checked := typed.(errors := Validate(config, documentType, job.routing.Some?));
          if checked.errors != [] then QuarantineStep(checked, files, env)
          else DeliverStep(config, checked, files, env)
  }

  /** The except block. */
  function AfterFailure(config: Config, job: Job, e: Failure, now: real): Job {
    var noted := job.(errors := job.errors + [e.message], lastError := Some(e.message));
    if e.kind != Permanent && job.attempts < config.maxAttempts then
      noted.(status := Received, nextAttempt := Some(now + RetryDelay(config, job.attempts, e.kind)))
    else noted.(status := Failed, nextAttempt := None)
  }

  function Started(job: Job): Job {
    if job.status == Received then
      job.(status := Processing, attempts := if job.attempts < 1 then 1 else job.attempts)
    else job
  }

  lemma KeepsId(config: Config, job: Job, files: Disk, env: Env)
    ensures var t := TrySteps(config, job, files, env);
      && t.job.id == job.id && t.job.sha256 == job.sha256 && t.job.filename == job.filename
      && t.job.attempts == job.attempts && t.job.createdAt == job.createdAt && t.job.routing == job.routing
  {
  }

  /** The job and the work directory after process; the job is then saved. */
  function Processed(config: Config, job: Job, files: Disk, env: Env, now: real): (Job, Disk) {
    var t := TrySteps(config, Started(job), files, env);
    var done := match t.raised
      case None => t.job.(lastError := None, nextAttempt := None)
      case Some(e) => AfterFailure(config, t.job, e, now);
    (done.(worker := None, lease := None), t.files)
  }

  /** The attempt gets as far as the workflow rules. */
  predicate ReachesRules(job: Job, files: Disk, env: Env) {
    job.path in files && env.extract == None && env.classify.Ok? && env.prepare == None
  }

  /** The first step of the attempt that raises, if any. */
  function Blame(config: Config, job: Job, files: Disk, env: Env): (blame: Option<Failure>)
    ensures blame == None ==> ReachesRules(job, files, env)
  {
    if job.path !in files then Some(FILE_MISSING)
    else if env.extract.Some? then env.extract
    else if env.classify.Err? then Some(env.classify.error)
    else if env.prepare.Some? then env.prepare
    else if MeetsRules(config, env.classify.value, job.routing.Some?) then
      if env.deliver.Err? then Some(env.deliver.error) else None
    else if job.path != Quarantine(job.id, job.filename) && env.moveFails then Some(MOVE_FAILED)
    else env.notify
  }

  /** No attempt comes after this one: the connector refused for good, or the attempts are used up. */
  predicate Final(config: Config, attempts: int, e: Failure) {
    e.kind == Permanent || attempts >= config.maxAttempts
  }

  /** How often the job has been tried, this attempt included; process alone counts a first one. */
  function AttemptNumber(job: Job): int {
    if job.status == Received && job.attempts < 1 then 1 else job.attempts
  }

  /** The waiting time is the backoff or what the target asked for, whichever is longer. */
  predicate WaitsFor(config: Config, attempts: int, kind: Kind, seconds: real) {
    var backoff := Backoff(config.retryBase, attempts);
    if kind.Temporary? && kind.retryAfter.Some? then
      && seconds >= backoff && seconds >= kind.retryAfter.value as real
      && (seconds == backoff || seconds == kind.retryAfter.value as real)
    else seconds == backoff
  }

  /** An attempt in which no step raised ends DELIVERED or QUARANTINED, as the rules have it. */
  predicate EndsInOrder(config: Config, job: Job, env: Env, done: Job)
    requires env.classify.Ok?
  {
    var documentType, hasRouting := env.classify.value, job.routing.Some?;
    && done.documentType == documentType && done.errors == Validate(config, documentType, hasRouting)
    && done.lastError == None && done.nextAttempt == None
    && (if MeetsRules(config, documentType, hasRouting)
        then done.status == Delivered && env.deliver == Ok(done.destination.GetOr("")) && done.destination.Some?
        else done.status == Quarantined && done.path == Quarantine(job.id, job.filename))
  }

  /** An attempt with a failure is repeated after a while unless it is final; the error is noted last. */
  predicate EndsInFailure(config: Config, attempts: int, e: Failure, errors: seq<string>, now: real, done: Job) {
    && done.errors == errors + [e.message] && done.lastError == Some(e.message)
    && (done.status == Failed <==> Final(config, attempts, e))
    && (done.status == Failed ==> done.nextAttempt == None)
    && (done.status != Failed ==> done.status == Received && done.nextAttempt.Some?)
    && (done.nextAttempt.Some? ==> WaitsFor(config, attempts, e.kind, done.nextAttempt.value - now))
  }

  /** The try block raises what the first failing step raised. */
  lemma StepsOutcome(config: Config, job: Job, files: Disk, env: Env)
    ensures var t := TrySteps(config, job, files, env);
      && t.raised == Blame(config, job, files, env)
      && (t.raised == None ==> EndsInOrder(config, job, env, t.job.(lastError := None, nextAttempt := None)))
      && (t.raised.Some? ==> t.job.destination == job.destination)
      && (t.raised == None && t.job.status != Delivered ==> t.job.destination == job.destination)
      && t.job.errors ==
        if ReachesRules(job, files, env) then Validate(config, env.classify.value, job.routing.Some?) else job.errors
  {
  }

  lemma FailureOutcome(config: Config, job: Job, e: Failure, now: real)
    ensures EndsInFailure(config, job.attempts, e, job.errors, now, AfterFailure(config, job, e, now))
  {
  }

  /** How an attempt ends, from the answers of its steps alone. */
  lemma ProcessOutcome(config: Config, job: Job, files: Disk, env: Env, now: real)
    requires job.status == Processing || job.status == Received
    ensures var done := Processed(config, job, files, env, now).0;
      var blame := Blame(config, job, files, env);
      && done.id == job.id && done.sha256 == job.sha256 && done.filename == job.filename
      && done.createdAt == job.createdAt && done.routing == job.routing && done.attempts == AttemptNumber(job)
      && done.worker == None && done.lease == None
      && (done.status != Delivered ==> done.destination == job.destination)
      && match blame
         case None => EndsInOrder(config, job, env, done)
         case Some(e) =>
           var errors := if ReachesRules(job, files, env)
             then Validate(config, env.classify.value, job.routing.Some?) else job.errors;
           EndsInFailure(config, AttemptNumber(job), e, errors, now, done)
  {
    var started := Started(job);
    var t := TrySteps(config, started, files, env);
    KeepsId(config, started, files, env);
    StepsOutcome(config, started, files, env);
    if t.raised.Some? { FailureOutcome(config, t.job, t.raised.value, now); }
  }

  /** The file moved, and no other file changed. */
  predicate TakenTo(files: Disk, from: Path, left: Disk, to: Path) {
    && from in files && to in left && left[to] == files[from]
    && left.Keys == files.Keys - {from} + {to}
    && forall path :: path in left && path != to ==> left[path] == files[path]
  }

  /** The file is gone, and no other changed. */
  predicate Gone(files: Disk, path: Path, left: Disk) {
    left.Keys == files.Keys - {path} && forall p :: p in left ==> left[p] == files[p]
  }

  /** The work copy after a delivery: kept, dropped or archived, as the policy has it. */
  predicate CleanedUp(config: Config, job: Job, files: Disk, cleanupFails: bool, path: Path, left: Disk) {
    if cleanupFails || config.policy == Retain then path == job.path && left == files
    else if config.policy == DeleteCopy then path == job.path && Gone(files, path, left)
    else path == Completed(job.id, job.filename) && TakenTo(files, job.path, left, path)
  }

  lemma FinalizeOutcome(config: Config, job: Job, files: Disk, cleanupFails: bool)
    requires job.path in files
    ensures var (done, left) := Finalize(config, job, files, cleanupFails);
      CleanedUp(config, job, files, cleanupFails, done.path, left) && done == job.(path := done.path)
  {
  }

  lemma QuarantineOutcome(job: Job, files: Disk, env: Env)
    requires job.path in files
    ensures var t := QuarantineStep(job, files, env);
      var target := Quarantine(job.id, job.filename);
      if job.path != target && env.moveFails then t.job.path == job.path && t.files == files
      else t.job.path == target && TakenTo(files, job.path, t.files, target)
  {
  }

  /** Where an attempt leaves the file. */
  predicate LeavesFile(config: Config, job: Job, files: Disk, env: Env, path: Path, left: Disk) {
    var target := Quarantine(job.id, job.filename);
    if !ReachesRules(job, files, env) then path == job.path && left == files
    else if MeetsRules(config, env.classify.value, job.routing.Some?) then
      if env.deliver.Ok? then CleanedUp(config, job, files, env.cleanupFails, path, left)
      else path == job.path && left == files
    else if job.path != target && env.moveFails then path == job.path && left == files
    else path == target && TakenTo(files, job.path, left, target)
  }

  lemma StepsFiles(config: Config, job: Job, files: Disk, env: Env)
    ensures var t := TrySteps(config, job, files, env); LeavesFile(config, job, files, env, t.job.path, t.files)
  {
    if ReachesRules(job, files, env) {
      var documentType := env.classify.value;
      var errors := Validate(config, documentType, job.routing.Some?);
      var checked := job.(documentType := documentType).(errors := errors);
      if errors != [] {
        QuarantineOutcome(checked, files, env);
      } else if env.deliver.Ok? {
        FinalizeOutcome(config, checked.(destination := Some(env.deliver.value)), files, env.cleanupFails);
      }
    }
  }

  lemma PathAfter(config: Config, job: Job, files: Disk, env: Env, now: real)
    ensures var (done, left) := Processed(config, job, files, env, now);
      var t := TrySteps(config, Started(job), files, env);
      done.path == t.job.path && left == t.files
  {
  }

  /** Only a refused job's file is quarantined, and only a delivered one's is dropped or archived. */
  lemma ProcessFiles(config: Config, job: Job, files: Disk, env: Env, now: real)
    ensures var (done, left) := Processed(config, job, files, env, now);
      LeavesFile(config, job, files, env, done.path, left)
  {
    StepsFiles(config, Started(job), files, env);
    PathAfter(config, job, files, env, now);
  }

  // ---------- review and release ----------

  /** A review request; target is None when no target system is named, else whether it is usable. */
  datatype Review = Review(documentType: Option<string>, routing: Option<string>, target: Option<bool>)

  /** None stands for the ValueError on an unusable target system. */
  function Reviewed(job: Job, request: Review): Option<Job> {
    if request.target == Some(false) then None
    else Some(job.(
      documentType := request.documentType.GetOr(job.documentType),
      routing := if request.routing.Some? then request.routing else job.routing))
  }

  function ReleaseRejected(config: Config, job: Job): Job {
    job.(errors := Validate(config, job.documentType, job.routing.Some?), status := Quarantined)
  }

  function ReleaseDelivered(config: Config, job: Job, reference: string, files: Disk, cleanupFails: bool): (Job, Disk) {
    var (finished, left) := Finalize(config, job.(destination := Some(reference)), files, cleanupFails);
    (finished.(status := Delivered), left)
  }

  function ReleaseFailed(job: Job, e: Failure): Job {
    job.(errors := job.errors + [e.message], lastError := Some(e.message), status := Failed)
  }

  /** release_job without interleaving, on the row it just read. */
  function Released(
      config: Config, t: Table, job: Job, files: Disk, deliver: Result<string, Failure>, cleanupFails: bool):
      (Table, Disk)
  {
    if job.status == Delivered then (t, files)
    else
      var checked := job.(errors := Validate(config, job.documentType, job.routing.Some?));
      if checked.errors != [] then (SaveRow(t, checked.(status := Quarantined)), files)
      else if job.id !in t || t[job.id].status != Quarantined then (t, files)
      else
        var claimed := ClaimDeliveryRow(t, job.id);
        match deliver
        case Ok(reference) =>
          var (done, left) := ReleaseDelivered(config, checked.(status := Delivering), reference, files, cleanupFails);
          (SaveRow(claimed, done), left)
        case Err(e) => (SaveRow(claimed, ReleaseFailed(checked.(status := Delivering), e)), files)
  }

  /** A review replaces what it names and leaves the rest of the job as it is. */
  predicate NamesReplaced(before: Job, request: Review, after: Job) {
    && (request.documentType.Some? ==> after.documentType == request.documentType.value)
    && (request.documentType == None ==> after.documentType == before.documentType)
    && (request.routing.Some? ==> after.routing == request.routing)
    && (request.routing == None ==> after.routing == before.routing)
    && after == before.(documentType := after.documentType, routing := after.routing)
  }

  /** The review is refused exactly for an unusable target system. */
  lemma ReviewOutcome(job: Job, request: Review)
    ensures Reviewed(job, request) == None <==> request.target == Some(false)
    ensures Reviewed(job, request).Some? ==> NamesReplaced(job, request, Reviewed(job, request).value)
  {
  }

  /** No other row is written, and none appears or goes. */
  predicate OthersKept(t: Table, rows: Table, id: string) {
    rows.Keys == t.Keys && forall k :: k in t && k != id ==> rows[k] == t[k]
  }

  /**
   A release of any row that was read before, whatever the row has become: a job that breaks the
   rules is written back as QUARANTINED, only a row that still is QUARANTINED is delivered, and
   nothing happens otherwise.
   */
  lemma ReleaseOutcome(
    config: Config, t: Table, job: Job, files: Disk, deliver: Result<string, Failure>, cleanupFails: bool)
    requires job.id in t
    ensures var (rows, left) := Released(config, t, job, files, deliver, cleanupFails);
      var meetsRules := MeetsRules(config, job.documentType, job.routing.Some?);
      var delivers := job.status != Delivered && meetsRules && t[job.id].status == Quarantined;
      var row := if job.id in rows then rows[job.id] else job;
      && OthersKept(t, rows, job.id)
      && (!delivers ==>
        && left == files
        && row == if job.status == Delivered || meetsRules then t[job.id]
                  else job.(status := Quarantined, errors := Validate(config, job.documentType, job.routing.Some?)))
      && (delivers && deliver.Ok? ==>
        && (job.path in files ==> CleanedUp(config, job, files, cleanupFails, row.path, left))
        && row == job.(status := Delivered, errors := [], destination := Some(deliver.value), path := row.path))
      && (delivers && deliver.Err? ==>
        && left == files
        && row == job.(status := Failed, errors := [deliver.error.message], lastError := Some(deliver.error.message)))
  {
    if job.path in files {
      var claimed := job.(errors := [], status := Delivering);
      match deliver
      case Ok(reference) => FinalizeOutcome(config, claimed.(destination := Some(reference)), files, cleanupFails);
      case Err(_) =>
    }
  }

  /**
   A reviewed job that is then released ends DELIVERED exactly when type and routing, as the
   review leaves them, satisfy the rules and the connector accepts it.
   */
  lemma ReviewThenRelease(
    config: Config, t: Table, job: Job, request: Review, files: Disk,
    deliver: Result<string, Failure>, cleanupFails: bool)
    requires job.id in t && t[job.id] == job && job.status == Quarantined && request.target != Some(false)
    ensures var reviewed := Reviewed(job, request).value;
      var rows := Released(config, SaveRow(t, reviewed), reviewed, files, deliver, cleanupFails).0;
      var meetsRules := MeetsRules(
        config, request.documentType.GetOr(job.documentType), request.routing.Some? || job.routing.Some?);
      && OthersKept(t, rows, job.id) && NamesReplaced(job, request, reviewed)
      && rows[job.id].documentType == reviewed.documentType && rows[job.id].routing == reviewed.routing
      && (rows[job.id].status == Quarantined <==> !meetsRules)
      && (rows[job.id].status == Delivered <==> meetsRules && deliver.Ok?)
      && (rows[job.id].status == Delivered ==> rows[job.id].destination == Some(deliver.value))
      && (rows[job.id].status == Failed <==> meetsRules && deliver.Err?)
      && (rows[job.id].status == Failed ==> rows[job.id].lastError == Some(deliver.error.message))
  {
    var reviewed := Reviewed(job, request).value;
    var saved := SaveRow(t, reviewed);
    assert saved.Keys == t.Keys && saved[job.id] == reviewed && reviewed.id == job.id;
    ReleaseOutcome(config, saved, reviewed, files, deliver, cleanupFails);
    ReviewOutcome(job, request);
  }

  // ---------- ingest ----------

  /** How the insert ends: an exception may come before or after the row was committed. */
  datatype Insert = Inserts | RaisesUncommitted | RaisesCommitted

  type Hash = seq<Byte> -> string

  function Prefix(sha256: string): string {
    if |sha256| <= 12 then sha256 else sha256[..12]
  }

  function NewJob(id: string, name: string, content: seq<Byte>, sha: Hash, now: real): Job {
    Job(id, Received, name, Inbox(Prefix(sha(content)), name), sha(content), UNKNOWN, None, None, [], 0, None, None,
      None, None, now)
  }

  /**
   ingest of a file with the given content. accepted: the type check and the malware scan
   passed, and the source could be read. token names the staging file.
   */
  function Ingested(
    config: Config, sha: Hash, t: Table, files: Disk, content: seq<Byte>, name: string,
    id: string, token: int, accepted: bool, insert: Insert, now: real): (Table, Disk)
  {
    var left := Remove(files, Staging(token));
    if |content| > config.maxFileSize || !accepted || HasHash(t, sha(content)) then (t, left)
    else
      var job := NewJob(id, name, content, sha, now);
      var moved := left[job.path := content];
      if insert != RaisesUncommitted && id !in t then (t[id := job], moved)
      else (t, Remove(moved, job.path))
  }

  /** Nothing has happened to the job yet, and nothing is known of the document but its bytes and name. */
  predicate NewlyReceived(job: Job, id: string, name: string, sha256: string, now: real) {
    && job.id == id && job.filename == name && job.sha256 == sha256 && job.createdAt == now
    && job.status == Received && job.attempts == 0 && job.errors == []
    && job.documentType == UNKNOWN && job.routing == None && job.destination == None
    && job.nextAttempt == None && job.lease == None && job.worker == None && job.lastError == None
    && job.path.Inbox? && job.path.name == name && job.path.prefix <= sha256
    && |job.path.prefix| == (if |sha256| < 12 then |sha256| else 12)
  }

  /** Exactly a new, accepted content within the limit whose insert was committed becomes a job. */
  lemma IngestOutcome(
    config: Config, sha: Hash, t: Table, files: Disk, content: seq<Byte>, name: string,
    id: string, token: int, accepted: bool, insert: Insert, now: real)
    ensures var (rows, left) := Ingested(config, sha, t, files, content, name, id, token, accepted, insert, now);
      && (rows != t <==>
            && |content| <= config.maxFileSize && accepted && !HasHash(t, sha(content))
            && insert != RaisesUncommitted && id !in t)
      && (rows != t ==>
            && rows == t[id := rows[id]] && NewlyReceived(rows[id], id, name, sha(content), now)
            && rows[id].path in left && left[rows[id].path] == content)
      && Staging(token) !in left
      && (forall path :: path in left ==>
            || (path in files && left[path] == files[path])
            || (rows != t && path == rows[id].path))
      && (forall path :: path in files && path !in left ==>
            || path == Staging(token)
            || (accepted && !HasHash(t, sha(content)) && path == Inbox(Prefix(sha(content)), name)))
  {
  }

  // ---------- delete ----------

  /** delete_job; a work copy always lies under the work root. */
  function DeletedJob(t: Table, files: Disk, id: string): (Table, Disk) {
    if id in t && Deletable(t[id].status) then
      (DeleteRow(t, id), Remove(Remove(files, t[id].path), Quarantine(id, t[id].filename)))
    else (t, files)
  }

  // ---------- The pipeline, step by step ----------

  datatype IngestResult = Accepted(job: Job) | Duplicate(job: Job) | Rejected | Raised

  class DocumentPipeline {
    const config: Config
    const sha: Hash
    const store: JobStore
    var files: Disk

    constructor (config: Config, sha: Hash, store: JobStore)
      ensures this.config == config && this.sha == sha && this.store == store && files == map[]
    {
      this.config, this.sha, this.store := config, sha, store;
      files := map[];
    }

    /**
     Copies the source in chunks; None when it exceeds the size limit or when reading or writing
     raises, which it does on the chunk that goes beyond `readable` bytes.
     */
    method StageAndHash(source: seq<Byte>, readable: nat, chunkSize: nat, token: int) returns (digest: Option<string>)
      requires chunkSize > 0 && config.maxFileSize >= 1
      modifies this
      ensures digest == if |source| > config.maxFileSize || |source| > readable then None else Some(sha(source))
      ensures files == if digest.Some? then old(files)[Staging(token) := source] else Remove(old(files), Staging(token))
    {
      var staged := Staging(token);
      files := files[staged := []];
      var size := 0;
      while size < |source|
        invariant 0 <= size <= |source|
        invariant size <= config.maxFileSize && size <= readable
        invariant files == old(files)[staged := source[..size]]
      {
        var end := if size + chunkSize <= |source| then size + chunkSize else |source|;
        if end > readable || end > config.maxFileSize {
          files := Remove(files, staged);
          return None;
        }
        assert source[..size] + source[size..end] == source[..end];
        files := files[staged := files[staged] + source[size..end]];
        size := end;
      }
      assert source[..size] == source;
      digest := Some(sha(source));
    }

    method Ingest(
      source: seq<Byte>, readable: nat, name: string, id: string, chunkSize: nat, token: int,
      accepted: bool, insert: Insert, now: real)
      returns (r: IngestResult)
      requires chunkSize > 0 && config.maxFileSize >= 1
      modifies this, store
      ensures (store.rows, files)
        == Ingested(config, sha, old(store.rows), old(files), source, name, id, token,
                    accepted && |source| <= readable, insert, now)
      ensures r.Rejected? <==> |source| > config.maxFileSize || |source| > readable || !accepted
      ensures r.Duplicate? <==> !r.Rejected? && HasHash(old(store.rows), sha(source))
      ensures r.Duplicate? ==> r.job.sha256 == sha(source) && r.job in old(store.rows).Values
      ensures r.Accepted? <==>
        !r.Rejected? && !HasHash(old(store.rows), sha(source)) && insert == Inserts && id !in old(store.rows)
      ensures r.Accepted? ==>
        NewlyReceived(r.job, id, name, sha(source), now) && store.rows == old(store.rows)[id := r.job]
      ensures !r.Accepted? && insert != RaisesCommitted ==> store.rows == old(store.rows)
    {
      var staged := Staging(token);
      var digest := StageAndHash(source, readable, chunkSize, token);
      if digest == None {
        return Rejected;
      }
      assert Remove(files, staged) == Remove(old(files), staged);
      if !accepted {
        files := Remove(files, staged);
        return Rejected;
      }
      var existing := store.FindByHash(digest.value);
      if existing.Some? {
        files := Remove(files, staged);
        return Duplicate(existing.value);
      }
      var job := NewJob(id, name, source, sha, now);
      files := Move(files, staged, job.path);
      ghost var moved := Remove(old(files), staged)[job.path := source];
      assert files == moved;
      var created := IntegrityError;
      if insert != RaisesUncommitted {
        created := store.CreateIfAbsent(job);
      }
      if insert != Inserts || created == IntegrityError {
        var referenced := store.FindByHash(digest.value);
        assert created == New ==> HasHash(store.rows, digest.value) by {
          assert created == New ==> store.rows[id].sha256 == digest.value;
        }
        assert referenced.Some? ==> referenced.value == job;
        if referenced == None || referenced.value.path != job.path {
          files := Remove(files, job.path);
        }
        return Raised;
      }
      // Existing needs another ingest since the lookup; module IngestRace has that branch.
      assert created == New;
      r := Accepted(job);
    }

    method FinalizeWorkCopy(job: Job, cleanupFails: bool) returns (r: Job)
      modifies this
      ensures (r, files) == Finalize(config, job, old(files), cleanupFails)
    {
      r := job;
      if cleanupFails { return; }
      match config.policy
      case DeleteCopy =>
        files := Remove(files, r.path);
      case Archive =>
        var target := Completed(r.id, r.filename);
        if r.path != target && r.path in files {
          files := Move(files, r.path, target);
          r := r.(path := target);
        }
      case Retain =>
    }

    /** The try block: stops at the first step that raises, keeping what was done until then. */
    method RunSteps(job: Job, env: Env) returns (r: Job, raised: Option<Failure>)
      modifies this
      ensures Tried(r, files, raised) == TrySteps(config, job, old(files), env)
    {
      r := job;
      if r.path !in files { return r, Some(FILE_MISSING); }
      if env.extract.Some? { return r, env.extract; }
      if env.classify.Err? { return r, Some(env.classify.error); }
      r := r.(documentType := env.classify.value);
      if env.prepare.Some? { return r, env.prepare; }
      r := r.(errors := Validate(config, r.documentType, r.routing.Some?));
      if r.errors != [] {
        r := r.(status := Quarantined);
        var target := Quarantine(r.id, r.filename);
        if r.path != target {
          if env.moveFails { return r, Some(MOVE_FAILED); }
          files := Move(files, r.path, target);
          r := r.(path := target);
        }
        return r, env.notify;
      }
      if env.deliver.Err? { return r, Some(env.deliver.error); }
      r := r.(destination := Some(env.deliver.value));
      r := FinalizeWorkCopy(r, env.cleanupFails);
      r := r.(status := Delivered);
      raised := None;
    }

    method NoteFailure(job: Job, e: Failure, now: real) returns (r: Job)
      ensures r == AfterFailure(config, job, e, now)
    {
      r := job.(errors := job.errors + [e.message]);
      r := r.(lastError := Some(e.message));
      if e.kind != Permanent && r.attempts < config.maxAttempts {
        var delay := Backoff(config.retryBase, r.attempts);
        if e.kind.Temporary? && e.kind.retryAfter.Some? && delay < e.kind.retryAfter.value as real {
          delay := e.kind.retryAfter.value as real;
        }
        r := r.(status := Received);
        r := r.(nextAttempt := Some(now + delay));
      } else {
        r := r.(status := Failed);
        r := r.(nextAttempt := None);
      }
    }

    method Process(job: Job, env: Env, now: real) returns (r: Job)
      modifies this, store
      ensures (r, files) == Processed(config, job, old(files), env, now)
      ensures store.rows == SaveRow(old(store.rows), r)
    {
      r := job;
      if r.status == Received {
        r := r.(status := Processing);
        r := r.(attempts := if r.attempts < 1 then 1 else r.attempts);
        store.Save(r);
      }
      var raised;
      r, raised := RunSteps(r, env);
      KeepsId(config, Started(job), old(files), env);
      if raised == None {
        r := r.(lastError := None);
        r := r.(nextAttempt := None);
      } else {
        r := NoteFailure(r, raised.value, now);
      }
      r := r.(worker := None);
      r := r.(lease := None);
      store.Save(r);
    }

    method SaveReview(job: Job, request: Review) returns (r: Option<Job>)
      modifies store
      ensures r == Reviewed(job, request)
      ensures r.Some? ==> NamesReplaced(job, request, r.value)
      ensures store.rows == if r.Some? then SaveRow(old(store.rows), r.value) else old(store.rows)
    {
      var reviewed := job;
      if request.documentType.Some? { reviewed := reviewed.(documentType := request.documentType.value); }
      if request.routing.Some? { reviewed := reviewed.(routing := request.routing); }
      if request.target == Some(false) { return None; }
      store.Save(reviewed);
      r := Some(reviewed);
    }

    method Release(job: Job, deliver: Result<string, Failure>, cleanupFails: bool) returns (r: Job)
      requires Keyed(store.rows)
      modifies this, store
      ensures (store.rows, files) == Released(config, old(store.rows), job, old(files), deliver, cleanupFails)
      ensures job.status != Delivered && job.id in store.rows ==> r == store.rows[job.id]
    {
      if job.status == Delivered { return job; }
      r := job.(errors := Validate(config, job.documentType, job.routing.Some?));
      if r.errors != [] {
        r := r.(status := Quarantined);
        store.Save(r);
        return;
      }
      var claimed := store.ClaimDelivery(r.id);
      if !claimed {
        var current := store.Get(r.id);
        return current.GetOr(r);
      }
      r := r.(status := Delivering);
      match deliver {
        case Ok(reference) =>
          r := r.(destination := Some(reference));
          r := FinalizeWorkCopy(r, cleanupFails);
          r := r.(status := Delivered);
        case Err(e) =>
          r := r.(errors := r.errors + [e.message]);
          r := r.(lastError := Some(e.message));
          r := r.(status := Failed);
      }
      store.Save(r);
    }

    /** The work copy is unlinked where the row says it is, then where quarantine would have put it. */
    method DeleteJob(id: string) returns (done: bool)
      requires Keyed(store.rows)
      modifies this, store
      ensures (store.rows, files) == DeletedJob(old(store.rows), old(files), id)
      ensures done <==> id in old(store.rows) && old(store.rows)[id].status in {Failed, Processing, Quarantined}
      ensures done ==>
        && store.rows.Keys == old(store.rows).Keys - {id}
        && files.Keys == old(files).Keys - {old(store.rows)[id].path, Quarantine(id, old(store.rows)[id].filename)}
      ensures !done ==> store.rows == old(store.rows) && files == old(files)
      ensures forall path :: path in files ==> files[path] == old(files)[path]
    {
      var deleted := store.DeleteStalledJob(id);
      if deleted == None { return false; }
      files := Remove(files, deleted.value.path);
      files := Remove(files, Quarantine(id, deleted.value.filename));
      done := true;
    }
  }
}
