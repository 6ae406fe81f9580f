/**
 Who owns the work files (pipeline.py, api.py): over any run of ingests, claims, processing
 attempts, reviews, releases, retries and deletions, every file in the inbox, quarantine and
 completed directories is the work copy of exactly one job, and every job has its bytes.
 Operations are atomic here; modules DeleteRace and IngestRace interleave their steps.
 */
module WorkFiles {
  import opened Wrappers
  import opened Bytes
  import opened Jobs
  import opened Pipeline

  datatype State = State(rows: Table, files: Disk)

  datatype Op =
    | Ingest(content: seq<Byte>, name: string, id: string, token: int, accepted: bool, insert: Insert, now: real)
    | Claim(id: string, worker: string, now: real)
    | Process(job: Job, env: Env, now: real)       // a snapshot some worker claimed
    | SaveReview(id: string, request: Review)
    | Release(id: string, deliver: Result<string, Failure>, cleanupFails: bool)
    | Retry(id: string)
    | Delete(id: string)

  function Apply(c: Config, sha: Hash, s: State, op: Op): State {
    match op
    case Ingest(content, name, id, token, accepted, insert, now) =>
      var (rows, files) := Ingested(c, sha, s.rows, s.files, content, name, id, token, accepted, insert, now);
      State(rows, files)
    case Claim(id, worker, now) =>
      if id in s.rows && IsDue(s.rows[id], now)
      then s.(rows := s.rows[id := Claimed(s.rows[id], worker, now, c.leaseSeconds)]) else s
    case Process(job, env, now) =>
      var (done, files) := Processed(c, job, s.files, env, now);
      State(SaveRow(s.rows, done), files)
    case SaveReview(id, request) =>
      if id in s.rows && s.rows[id].status == Quarantined then
        var reviewed := Reviewed(s.rows[id], request);
        if reviewed.Some? then s.(rows := SaveRow(s.rows, reviewed.value)) else s
      else s
    case Release(id, deliver, cleanupFails) =>
      if id in s.rows && s.rows[id].status in {Quarantined, Delivering, Delivered} then
        var (rows, files) := Released(c, s.rows, s.rows[id], s.files, deliver, cleanupFails);
        State(rows, files)
      else s
    case Retry(id) => s.(rows := RetryRow(s.rows, id))
    case Delete(id) =>
      var (rows, files) := DeletedJob(s.rows, s.files, id);
      State(rows, files)
  }

  // ---------- Ownership ----------

  /** Where the job's work copy may be. */
  predicate Placed(job: Job) {
    || job.path == Inbox(Prefix(job.sha256), job.filename)
    || job.path == Quarantine(job.id, job.filename)
    || job.path == Completed(job.id, job.filename)
  }

  predicate HasBytes(sha: Hash, files: Disk, job: Job) {
    job.path in files && sha(files[job.path]) == job.sha256
  }

  /** Only a job delivered under the delete policy may have lost its bytes. */
  predicate Backed(c: Config, sha: Hash, files: Disk, job: Job) {
    (job.status == Delivered && c.policy == DeleteCopy) || HasBytes(sha, files, job)
  }

  /** The job holds one of these contents. */
  ghost predicate Holds(sha: Hash, contents: set<seq<Byte>>, job: Job) {
    exists x :: x in contents && sha(x) == job.sha256
  }

  ghost predicate HasOwner(t: Table, path: Path) {
    exists id :: id in t && t[id].path == path
  }

  ghost predicate GoodJobs(c: Config, sha: Hash, contents: set<seq<Byte>>, s: State) {
    && Keyed(s.rows)
    && forall id :: id in s.rows ==>
      Placed(s.rows[id]) && Backed(c, sha, s.files, s.rows[id]) && Holds(sha, contents, s.rows[id])
  }

  ghost predicate OneHashEach(t: Table) {
    forall a, b :: a in t && b in t && t[a].sha256 == t[b].sha256 ==> a == b
  }

  ghost predicate OnePathEach(t: Table) {
    forall a, b :: a in t && b in t && t[a].path == t[b].path ==> a == b
  }

  /** No file without a job, and no staging file at all. */
  ghost predicate NoDebris(s: State) {
    forall p :: p in s.files ==> HasOwner(s.rows, p)
  }

  ghost predicate Own(c: Config, sha: Hash, contents: set<seq<Byte>>, s: State) {
    GoodJobs(c, sha, contents, s) && OneHashEach(s.rows) && NoDebris(s)
  }

  /** Different contents have different 12-digit hash prefixes. */
  ghost predicate PrefixesDiffer(sha: Hash, contents: set<seq<Byte>>) {
    forall x, y :: x in contents && y in contents && Prefix(sha(x)) == Prefix(sha(y)) ==> x == y
  }

  /** No other job has this path. */
  ghost predicate Alone(t: Table, path: Path, id: string) {
    forall k :: k in t && k != id ==> t[k].path != path
  }

  /** No other job's work copy can be anywhere this job's may be. */
  lemma OthersElsewhere(c: Config, sha: Hash, contents: set<seq<Byte>>, s: State, job: Job)
    requires GoodJobs(c, sha, contents, s) && PrefixesDiffer(sha, contents)
    requires Placed(job) && Holds(sha, contents, job)
    requires forall k :: k in s.rows && k != job.id ==> s.rows[k].sha256 != job.sha256
    ensures Alone(s.rows, job.path, job.id)
  {
    forall k | k in s.rows && k != job.id
      ensures s.rows[k].path != job.path
    {
      var x :| x in contents && sha(x) == job.sha256;
      var y :| y in contents && sha(y) == s.rows[k].sha256;
      assert Prefix(sha(x)) == Prefix(sha(y)) ==> x == y;
    }
  }

  /** Two jobs never share a work copy. */
  lemma PathsDiffer(c: Config, sha: Hash, contents: set<seq<Byte>>, s: State)
    requires Own(c, sha, contents, s) && PrefixesDiffer(sha, contents)
    ensures OnePathEach(s.rows)
  {
    forall a, b | a in s.rows && b in s.rows && a != b
      ensures s.rows[a].path != s.rows[b].path
    {
      OthersElsewhere(c, sha, contents, s, s.rows[a]);
    }
  }

  // ---------- Each operation ----------

  /** Only the job's own work copy changed: it may have moved to the new path or be gone. */
  ghost predicate OnlyOwnFile(before: Disk, after: Disk, from: Path, to: Path) {
    && (forall p :: p in after && p != to ==> p in before && p != from && after[p] == before[p])
    && (forall p :: p in before && p != from && p != to ==> p in after)
  }

  lemma UpdateLeavesNoDebris(s: State, job: Job, files: Disk)
    requires NoDebris(s) && job.id in s.rows && OnlyOwnFile(s.files, files, s.rows[job.id].path, job.path)
    ensures NoDebris(State(s.rows[job.id := job], files))
  {
    var rows := s.rows[job.id := job];
    forall p | p in files
      ensures HasOwner(rows, p)
    {
      if p == job.path {
        assert rows[job.id].path == p;
      } else {
        assert HasOwner(s.rows, p);
        var k :| k in s.rows && s.rows[k].path == p;
        assert k != job.id && rows[k].path == p;
      }
    }
  }

  lemma UpdateKeeps(c: Config, sha: Hash, contents: set<seq<Byte>>, s: State, job: Job, files: Disk)
    requires Own(c, sha, contents, s) && job.id in s.rows && job.sha256 == s.rows[job.id].sha256
    requires Alone(s.rows, job.path, job.id) && Alone(s.rows, s.rows[job.id].path, job.id)
    requires Placed(job) && Backed(c, sha, files, job) && OnlyOwnFile(s.files, files, s.rows[job.id].path, job.path)
    ensures Own(c, sha, contents, State(s.rows[job.id := job], files))
  {
    var id, after := job.id, State(s.rows[job.id := job], files);
    assert Holds(sha, contents, s.rows[id]) ==> Holds(sha, contents, job);
    forall a, b | a in after.rows && b in after.rows && after.rows[a].sha256 == after.rows[b].sha256
      ensures a == b
    {
      assert s.rows[a].sha256 == after.rows[a].sha256 && s.rows[b].sha256 == after.rows[b].sha256;
    }
    UpdateLeavesNoDebris(s, job, files);
  }

  /** A new version of one row and of its work copy keep ownership. */
  lemma JobStepKeeps(c: Config, sha: Hash, contents: set<seq<Byte>>, s: State, job: Job, files: Disk)
    requires Own(c, sha, contents, s) && PrefixesDiffer(sha, contents)
    requires job.id in s.rows && job.sha256 == s.rows[job.id].sha256
    requires Placed(job) && Backed(c, sha, files, job) && OnlyOwnFile(s.files, files, s.rows[job.id].path, job.path)
    ensures Own(c, sha, contents, State(s.rows[job.id := job], files))
  {
    assert Holds(sha, contents, s.rows[job.id]) ==> Holds(sha, contents, job);
    OthersElsewhere(c, sha, contents, s, job);
    OthersElsewhere(c, sha, contents, s, s.rows[job.id]);
    UpdateKeeps(c, sha, contents, s, job, files);
  }

  /** A work copy moved, or stayed, with its bytes. */
  ghost predicate Moved(job: Job, before: Disk, done: Job, after: Disk) {
    && done.id == job.id && done.sha256 == job.sha256 && done.filename == job.filename
    && (done.path == job.path || done.path == Quarantine(job.id, job.filename)
      || done.path == Completed(job.id, job.filename))
    && OnlyOwnFile(before, after, job.path, done.path)
    && (done.path != job.path ==> job.path !in after)
    && job.path in before && done.path in after && after[done.path] == before[job.path]
  }

  /** A work copy removed for good. */
  ghost predicate Dropped(job: Job, before: Disk, done: Job, after: Disk) {
    && done.id == job.id && done.sha256 == job.sha256 && done.filename == job.filename && done.path == job.path
    && after == Remove(before, job.path)
  }

  lemma FinalizeMoves(c: Config, job: Job, files: Disk, cleanupFails: bool)
    requires job.path in files
    ensures var (done, left) := Finalize(c, job, files, cleanupFails);
      && done == job.(path := done.path)
      && (Moved(job, files, done, left) || (c.policy == DeleteCopy && Dropped(job, files, done, left)))
  {
  }

  lemma QuarantineMoves(job: Job, files: Disk, env: Env)
    requires job.path in files
    ensures var t := QuarantineStep(job, files, env); Moved(job, files, t.job, t.files)
  {
  }

  lemma StepsMove(c: Config, job: Job, files: Disk, env: Env)
    requires job.path in files
    ensures var t := TrySteps(c, job, files, env);
      || Moved(job, files, t.job, t.files)
      || (c.policy == DeleteCopy && t.raised == None && t.job.status == Delivered
        && Dropped(job, files, t.job, t.files))
  {
    if env.extract == None && env.classify.Ok? && env.prepare == None {
      var documentType := env.classify.value;
      var checked := job.(documentType := documentType).(errors := Validate(c, documentType, job.routing.Some?));
      if checked.errors != [] {
        QuarantineMoves(checked, files, env);
      } else if env.deliver.Ok? {
        FinalizeMoves(c, checked.(destination := Some(env.deliver.value)), files, env.cleanupFails);
      }
    }
  }

  /** An attempt takes the work copy along, or delivers the job and drops it; without a file it does nothing. */
  lemma ProcessMoves(c: Config, job: Job, files: Disk, env: Env, now: real)
    requires job.status == Processing
    ensures var (done, left) := Processed(c, job, files, env, now);
      if job.path in files
      then
        || Moved(job, files, done, left)
        || (c.policy == DeleteCopy && done.status == Delivered && Dropped(job, files, done, left))
      else done.id == job.id && left == files
  {
    if job.path in files {
      StepsMove(c, job, files, env);
    }
  }

  lemma SaveKeeps(c: Config, sha: Hash, contents: set<seq<Byte>>, s: State, job: Job)
    requires Own(c, sha, contents, s) && PrefixesDiffer(sha, contents)
    requires job.id in s.rows
    requires var row := s.rows[job.id]; job.sha256 == row.sha256 && job.path == row.path && job.filename == row.filename
    requires s.rows[job.id].status != Delivered
    ensures Own(c, sha, contents, State(s.rows[job.id := job], s.files))
  {
    JobStepKeeps(c, sha, contents, s, job, s.files);
  }

  /** The inbox name of a content nobody has ingested is free. */
  lemma InboxTaken(c: Config, sha: Hash, contents: set<seq<Byte>>, s: State, content: seq<Byte>, name: string)
    requires Own(c, sha, contents, s) && PrefixesDiffer(sha, contents) && content in contents
    ensures Inbox(Prefix(sha(content)), name) in s.files ==> HasHash(s.rows, sha(content))
  {
    var path := Inbox(Prefix(sha(content)), name);
    if path in s.files {
      var k :| k in s.rows && s.rows[k].path == path;
      var x :| x in contents && sha(x) == s.rows[k].sha256;
      assert Prefix(sha(x)) == Prefix(sha(content));
    }
  }

  /** An ingest ends with the job and its file, or with neither; never with a staging file. */
  lemma IngestKeeps(c: Config, sha: Hash, contents: set<seq<Byte>>, s: State, op: Op)
    requires Own(c, sha, contents, s) && PrefixesDiffer(sha, contents) && op.Ingest? && op.content in contents
    ensures Own(c, sha, contents, Apply(c, sha, s, op))
  {
    assert Remove(s.files, Staging(op.token)) == s.files;
    if |op.content| <= c.maxFileSize && op.accepted && !HasHash(s.rows, sha(op.content)) {
      var job := NewJob(op.id, op.name, op.content, sha, op.now);
      InboxTaken(c, sha, contents, s, op.content, op.name);
      if op.insert != RaisesUncommitted && op.id !in s.rows {
        InsertKeeps(c, sha, contents, s, job, op.content);
      } else {
        assert Remove(s.files[job.path := op.content], job.path) == s.files;
      }
    }
  }

  lemma InsertLeavesNoDebris(s: State, job: Job, content: seq<Byte>)
    requires NoDebris(s) && job.id !in s.rows
    ensures NoDebris(State(s.rows[job.id := job], s.files[job.path := content]))
  {
    var rows := s.rows[job.id := job];
    forall p | p in s.files || p == job.path
      ensures HasOwner(rows, p)
    {
      if p == job.path {
        assert rows[job.id].path == p;
      } else {
        assert HasOwner(s.rows, p);
        var k :| k in s.rows && s.rows[k].path == p;
        assert rows[k].path == p;
      }
    }
  }

  lemma FreshKeeps(c: Config, sha: Hash, contents: set<seq<Byte>>, s: State, job: Job, content: seq<Byte>)
    requires Own(c, sha, contents, s) && content in contents && Alone(s.rows, job.path, job.id)
    requires job.id !in s.rows && job.sha256 == sha(content) && !HasHash(s.rows, job.sha256)
    requires job.path == Inbox(Prefix(job.sha256), job.filename)
    ensures Own(c, sha, contents, State(s.rows[job.id := job], s.files[job.path := content]))
  {
    assert Holds(sha, contents, job);
    InsertLeavesNoDebris(s, job, content);
  }

  lemma InsertKeeps(c: Config, sha: Hash, contents: set<seq<Byte>>, s: State, job: Job, content: seq<Byte>)
    requires Own(c, sha, contents, s) && PrefixesDiffer(sha, contents) && content in contents
    requires job.id !in s.rows && job.sha256 == sha(content) && !HasHash(s.rows, job.sha256)
    requires job.path == Inbox(Prefix(job.sha256), job.filename)
    ensures Own(c, sha, contents, State(s.rows[job.id := job], s.files[job.path := content]))
  {
    assert Holds(sha, contents, job);
    OthersElsewhere(c, sha, contents, s, job);
    FreshKeeps(c, sha, contents, s, job, content);
  }

  lemma DeleteKeeps(c: Config, sha: Hash, contents: set<seq<Byte>>, s: State, id: string)
    requires Own(c, sha, contents, s) && PrefixesDiffer(sha, contents)
    ensures Own(c, sha, contents, Apply(c, sha, s, Delete(id)))
  {
    if id in s.rows && Deletable(s.rows[id].status) {
      RemoveKeeps(c, sha, contents, s, id);
    }
  }

  lemma GoneKeeps(c: Config, sha: Hash, contents: set<seq<Byte>>, s: State, id: string, target: Path)
    requires Own(c, sha, contents, s) && id in s.rows && Alone(s.rows, s.rows[id].path, id) && Alone(s.rows, target, id)
    ensures var rows := map k | k in s.rows && k != id :: s.rows[k];
      Own(c, sha, contents, State(rows, Remove(Remove(s.files, s.rows[id].path), target)))
  {
    RemoveLeavesNoDebris(s, id, Remove(Remove(s.files, s.rows[id].path), target));
  }

  lemma RemoveKeeps(c: Config, sha: Hash, contents: set<seq<Byte>>, s: State, id: string)
    requires Own(c, sha, contents, s) && PrefixesDiffer(sha, contents) && id in s.rows
    ensures var rows := map k | k in s.rows && k != id :: s.rows[k];
      Own(c, sha, contents, State(rows, Remove(Remove(s.files, s.rows[id].path), Quarantine(id, s.rows[id].filename))))
  {
    var job := s.rows[id];
    var target := Quarantine(id, job.filename);
    assert Holds(sha, contents, job) ==> Holds(sha, contents, job.(path := target));
    OthersElsewhere(c, sha, contents, s, job);
    OthersElsewhere(c, sha, contents, s, job.(path := target));
    GoneKeeps(c, sha, contents, s, id, target);
  }

  lemma RemoveLeavesNoDebris(s: State, id: string, files: Disk)
    requires NoDebris(s) && id in s.rows && forall p :: p in files ==> p in s.files && p != s.rows[id].path
    ensures NoDebris(State(map k | k in s.rows && k != id :: s.rows[k], files))
  {
    var rows := map k | k in s.rows && k != id :: s.rows[k];
    forall p | p in files
      ensures HasOwner(rows, p)
    {
      assert HasOwner(s.rows, p);
      var k :| k in s.rows && s.rows[k].path == p;
      assert k in rows && rows[k].path == p;
    }
  }

  /**
   The snapshot a worker processes is the row it claimed, or its job was deleted and no other
   job has come to own the path since.
   */
  ghost predicate Current(s: State, op: Op) {
    op.Process? ==>
      var job := op.job;
      && job.status == Processing
      && if job.id in s.rows then s.rows[job.id] == job.(lease := s.rows[job.id].lease)
      else !HasOwner(s.rows, job.path)
  }

  /** An attempt on the row as it stands. */
  lemma ProcessRowKeeps(c: Config, sha: Hash, contents: set<seq<Byte>>, s: State, job: Job, done: Job, left: Disk)
    requires Own(c, sha, contents, s) && PrefixesDiffer(sha, contents)
    requires job.id in s.rows && job.status == Processing && s.rows[job.id] == job.(lease := s.rows[job.id].lease)
    requires
      || Moved(job, s.files, done, left)
      || (c.policy == DeleteCopy && done.status == Delivered && Dropped(job, s.files, done, left))
    ensures Own(c, sha, contents, State(s.rows[job.id := done], left))
  {
    assert Placed(s.rows[job.id]) && HasBytes(sha, s.files, s.rows[job.id]);
    JobStepKeeps(c, sha, contents, s, done, left);
  }

  lemma ProcessKeeps(c: Config, sha: Hash, contents: set<seq<Byte>>, s: State, op: Op)
    requires Own(c, sha, contents, s) && PrefixesDiffer(sha, contents) && op.Process? && Current(s, op)
    ensures Own(c, sha, contents, Apply(c, sha, s, op))
  {
    var job := op.job;
    ProcessMoves(c, job, s.files, op.env, op.now);
    var (done, left) := Processed(c, job, s.files, op.env, op.now);
    if job.id in s.rows {
      assert HasBytes(sha, s.files, s.rows[job.id]);
      ProcessRowKeeps(c, sha, contents, s, job, done, left);
    } else {
      assert job.path !in s.files;
    }
  }

  /** A claimed delivery that ends, well or not. */
  lemma DeliveryKeeps(
    c: Config, sha: Hash, contents: set<seq<Byte>>, s: State, job: Job,
    deliver: Result<string, Failure>, cleanupFails: bool)
    requires Own(c, sha, contents, s) && PrefixesDiffer(sha, contents) && job.id in s.rows && job.status == Delivering
    requires s.rows[job.id] == job.(errors := s.rows[job.id].errors)
    ensures deliver.Ok? ==>
      var (done, left) := ReleaseDelivered(c, job, deliver.value, s.files, cleanupFails);
      Own(c, sha, contents, State(s.rows[job.id := done], left))
    ensures deliver.Err? ==> Own(c, sha, contents, s.(rows := s.rows[job.id := ReleaseFailed(job, deliver.error)]))
  {
    match deliver
    case Ok(reference) =>
      assert HasBytes(sha, s.files, s.rows[job.id]);
      FinalizeMoves(c, job.(destination := Some(reference)), s.files, cleanupFails);
      var (done, left) := ReleaseDelivered(c, job, reference, s.files, cleanupFails);
      JobStepKeeps(c, sha, contents, s, done, left);
    case Err(e) => SaveKeeps(c, sha, contents, s, ReleaseFailed(job, e));
  }

  function Delivers(job: Job): Job {
    job.(errors := [], status := Delivering)
  }

  /** What release comes down to on the current row. */
  lemma ReleaseCases(c: Config, t: Table, job: Job, files: Disk, deliver: Result<string, Failure>, cleanupFails: bool)
    requires job.id in t && t[job.id] == job && (job.status == Quarantined || job.status == Delivering)
    ensures var errors := Validate(c, job.documentType, job.routing.Some?);
      var after := Released(c, t, job, files, deliver, cleanupFails);
      var claimed := t[job.id := job.(status := Delivering)];
      && (errors != [] ==> after == (t[job.id := job.(errors := errors, status := Quarantined)], files))
      && (errors == [] && job.status == Delivering ==> after == (t, files))
      && (errors == [] && job.status == Quarantined && deliver.Ok? ==>
            var (done, left) := ReleaseDelivered(c, Delivers(job), deliver.value, files, cleanupFails);
            after == (claimed[job.id := done], left))
      && (errors == [] && job.status == Quarantined && deliver.Err? ==>
            after == (claimed[job.id := ReleaseFailed(Delivers(job), deliver.error)], files))
  {
  }

  lemma ReleaseKeeps(c: Config, sha: Hash, contents: set<seq<Byte>>, s: State, op: Op)
    requires Own(c, sha, contents, s) && PrefixesDiffer(sha, contents) && op.Release?
    ensures Own(c, sha, contents, Apply(c, sha, s, op))
  {
    if op.id in s.rows && s.rows[op.id].status in {Quarantined, Delivering} {
      var job := s.rows[op.id];
      var errors := Validate(c, job.documentType, job.routing.Some?);
      ReleaseCases(c, s.rows, job, s.files, op.deliver, op.cleanupFails);
      if errors != [] {
        SaveKeeps(c, sha, contents, s, job.(errors := errors, status := Quarantined));
      } else if job.status == Quarantined {
        SaveKeeps(c, sha, contents, s, job.(status := Delivering));
        var claimed := s.(rows := s.rows[job.id := job.(status := Delivering)]);
        DeliveryKeeps(c, sha, contents, claimed, Delivers(job), op.deliver, op.cleanupFails);
      }
    }
  }

  lemma OpKeeps(c: Config, sha: Hash, contents: set<seq<Byte>>, s: State, op: Op)
    requires Own(c, sha, contents, s) && PrefixesDiffer(sha, contents)
    requires Current(s, op) && (op.Ingest? ==> op.content in contents)
    ensures Own(c, sha, contents, Apply(c, sha, s, op))
  {
    match op
    case Ingest(_, _, _, _, _, _, _) => IngestKeeps(c, sha, contents, s, op);
    case Process(_, _, _) => ProcessKeeps(c, sha, contents, s, op);
    case Release(_, _, _) => ReleaseKeeps(c, sha, contents, s, op);
    case Delete(id) => DeleteKeeps(c, sha, contents, s, id);
    case Claim(id, worker, now) =>
      if id in s.rows && IsDue(s.rows[id], now) {
        SaveKeeps(c, sha, contents, s, Claimed(s.rows[id], worker, now, c.leaseSeconds));
      }
    case SaveReview(id, request) =>
      if id in s.rows && s.rows[id].status == Quarantined && Reviewed(s.rows[id], request).Some? {
        SaveKeeps(c, sha, contents, s, Reviewed(s.rows[id], request).value);
      }
    case Retry(id) =>
      if id in s.rows && s.rows[id].status == Failed { SaveKeeps(c, sha, contents, s, RetryRow(s.rows, id)[id]); }
  }

  // ---------- Runs ----------

  function Exec(c: Config, sha: Hash, s: State, ops: seq<Op>): State
    decreases |ops|
  {
    if ops == [] then s else Exec(c, sha, Apply(c, sha, s, ops[0]), ops[1..])
  }

  ghost predicate Legal(c: Config, sha: Hash, contents: set<seq<Byte>>, s: State, ops: seq<Op>)
    decreases |ops|
  {
    ops != [] ==>
      && Current(s, ops[0]) && (ops[0].Ingest? ==> ops[0].content in contents)
      && Legal(c, sha, contents, Apply(c, sha, s, ops[0]), ops[1..])
  }

  lemma {:induction false} RunKeeps(c: Config, sha: Hash, contents: set<seq<Byte>>, s: State, ops: seq<Op>)
    requires Own(c, sha, contents, s) && PrefixesDiffer(sha, contents) && Legal(c, sha, contents, s, ops)
    ensures Own(c, sha, contents, Exec(c, sha, s, ops))
    decreases |ops|
  {
    if ops != [] {
      OpKeeps(c, sha, contents, s, ops[0]);
      RunKeeps(c, sha, contents, Apply(c, sha, s, ops[0]), ops[1..]);
    }
  }

  /** From an empty store: after any run every job has its bytes, no path is shared, no file is left over. */
  lemma WorkFileOwnership(c: Config, sha: Hash, contents: set<seq<Byte>>, ops: seq<Op>)
    requires PrefixesDiffer(sha, contents) && Legal(c, sha, contents, State(map[], map[]), ops)
    ensures var end := Exec(c, sha, State(map[], map[]), ops);
      && (forall id :: id in end.rows ==> Backed(c, sha, end.files, end.rows[id]))
      && OnePathEach(end.rows)
      && (forall p :: p in end.files ==> !p.Staging? && HasOwner(end.rows, p))
  {
    RunKeeps(c, sha, contents, State(map[], map[]), ops);
    PathsDiffer(c, sha, contents, Exec(c, sha, State(map[], map[]), ops));
  }

  // ---------- A worker that still holds a deleted job ----------

  /** The attempt classifies the document and the rules then refuse it, or let it pass to delivery. */
  predicate Refused(c: Config, job: Job, env: Env) {
    && env.extract == None && env.classify.Ok? && env.prepare == None
    && Validate(c, env.classify.value, job.routing.Some?) != []
  }

  predicate Completes(c: Config, job: Job, env: Env) {
    && env.extract == None && env.classify.Ok? && env.prepare == None
    && Validate(c, env.classify.value, job.routing.Some?) == []
    && env.deliver.Ok? && !env.cleanupFails
  }

  /**
   The attempt moves the file to quarantine or to the archive, or it deletes a file whose owner
   may not lose it.
   */
  predicate Robs(c: Config, job: Job, env: Env, owner: Job) {
    || (Refused(c, job, env) && !env.moveFails)
    || (Completes(c, job, env) && (c.policy == Archive || (c.policy == DeleteCopy && owner.status != Delivered)))
  }

  lemma RefusedMoves(c: Config, job: Job, files: Disk, env: Env, now: real)
    requires job.status == Processing && job.path in files && job.path.Inbox? && Refused(c, job, env) && !env.moveFails
    ensures Processed(c, job, files, env, now).1 == Move(files, job.path, Quarantine(job.id, job.filename))
  {
  }

  lemma CompletesMoves(c: Config, job: Job, files: Disk, env: Env, now: real)
    requires job.status == Processing && job.path in files && job.path.Inbox? && Completes(c, job, env)
    ensures Processed(c, job, files, env, now).1 ==
      match c.policy
      case Retain => files
      case Archive => Move(files, job.path, Completed(job.id, job.filename))
      case DeleteCopy => Remove(files, job.path)
  {
  }

  lemma OthersTouchNothing(c: Config, job: Job, files: Disk, env: Env, now: real)
    requires job.status == Processing && job.path.Inbox?
    requires job.path !in files || !((Refused(c, job, env) && !env.moveFails) || Completes(c, job, env))
    ensures Processed(c, job, files, env, now).1 == files
  {
  }

  /** A file that moves leaves its old place, where the twin should have it, or arrives where no job is. */
  lemma RobbedTwin(c: Config, sha: Hash, contents: set<seq<Byte>>, s: State, job: Job, target: Path, twin: string)
    requires Own(c, sha, contents, s) && job.id !in s.rows && twin in s.rows && s.rows[twin].path == job.path
    requires job.path in s.files && target != job.path
    requires target == Quarantine(job.id, job.filename) || target == Completed(job.id, job.filename)
    ensures !Own(c, sha, contents, s.(files := Move(s.files, job.path, target)))
  {
    var after := s.(files := Move(s.files, job.path, target));
    assert target in after.files;
    forall id | id in s.rows
      ensures s.rows[id].path != target
    {
      assert Placed(s.rows[id]);
    }
    assert !HasOwner(after.rows, target);
  }

  lemma FileGoneKeeps(c: Config, sha: Hash, contents: set<seq<Byte>>, s: State, path: Path, twin: string)
    requires Own(c, sha, contents, s) && Alone(s.rows, path, twin) && twin in s.rows && s.rows[twin].path == path
    requires c.policy == DeleteCopy && s.rows[twin].status == Delivered
    ensures Own(c, sha, contents, s.(files := Remove(s.files, path)))
  {
    var after := s.(files := Remove(s.files, path));
    forall p | p in after.files
      ensures HasOwner(after.rows, p)
    {
      assert HasOwner(s.rows, p);
    }
  }

  /** Deleting the file breaks ownership unless its only owner was delivered under the delete policy. */
  lemma DroppedTwin(c: Config, sha: Hash, contents: set<seq<Byte>>, s: State, path: Path, twin: string)
    requires Own(c, sha, contents, s) && PrefixesDiffer(sha, contents) && twin in s.rows
    requires s.rows[twin].path == path && c.policy == DeleteCopy
    ensures Own(c, sha, contents, s.(files := Remove(s.files, path))) <==> s.rows[twin].status == Delivered
  {
    if s.rows[twin].status != Delivered {
      assert !Backed(c, sha, Remove(s.files, path), s.rows[twin]);
    } else {
      OthersElsewhere(c, sha, contents, s, s.rows[twin]);
      FileGoneKeeps(c, sha, contents, s, path, twin);
    }
  }

  /**
   A processing job is deleted, and its content ingested again under the same name while the
   old worker is still busy. The worker then finds the new job's file at its own path.
   Ownership is lost exactly when the file is there and what the attempt's steps answer makes it
   move the file, or delete one that its new owner still needs.
   */
  lemma DeletedTwinExactly(c: Config, sha: Hash, contents: set<seq<Byte>>, s: State, op: Op, twin: string)
    requires Own(c, sha, contents, s) && PrefixesDiffer(sha, contents) && op.Process? && op.job.status == Processing
    requires op.job.id !in s.rows && twin in s.rows && s.rows[twin].path == op.job.path && op.job.path.Inbox?
    ensures Own(c, sha, contents, Apply(c, sha, s, op)) <==>
      !(op.job.path in s.files && Robs(c, op.job, op.env, s.rows[twin]))
  {
    var job, env := op.job, op.env;
    ProcessMoves(c, job, s.files, env, op.now);
    assert Apply(c, sha, s, op) == s.(files := Processed(c, job, s.files, env, op.now).1);
    if job.path !in s.files || !((Refused(c, job, env) && !env.moveFails) || Completes(c, job, env)) {
      OthersTouchNothing(c, job, s.files, env, op.now);
    } else if Refused(c, job, env) {
      RefusedMoves(c, job, s.files, env, op.now);
      RobbedTwin(c, sha, contents, s, job, Quarantine(job.id, job.filename), twin);
    } else {
      CompletesMoves(c, job, s.files, env, op.now);
      match c.policy
      case Retain =>
      case Archive => RobbedTwin(c, sha, contents, s, job, Completed(job.id, job.filename), twin);
      case DeleteCopy => DroppedTwin(c, sha, contents, s, job.path, twin);
    }
  }

  /** Such a twin arises in five operations, and a quarantined attempt takes its file away. */
  lemma DeletedTwinLosesFile(c: Config, sha: Hash, content: seq<Byte>, name: string, worker: string, env: Env)
    requires |content| <= c.maxFileSize
    requires env.extract == None && env.classify == Ok(UNKNOWN) && env.prepare == None && !env.moveFails
    ensures var ingest := (id: string) => Ingest(content, name, id, 0, true, Inserts, 0.0);
      var claimed := Claimed(NewJob("a", name, content, sha, 0.0), worker, 0.0, c.leaseSeconds);
      var end := Exec(c, sha, State(map[], map[]),
        [ingest("a"), Claim("a", worker, 0.0), Delete("a"), ingest("b"), Process(claimed, env, 0.0)]);
      "b" in end.rows && end.rows["b"].status == Received && end.rows["b"].path !in end.files
  {
    var s0 := State(map[], map[]);
    var first, second := NewJob("a", name, content, sha, 0.0), NewJob("b", name, content, sha, 0.0);
    var claimed := Claimed(first, worker, 0.0, c.leaseSeconds);
    var ops := [Ingest(content, name, "a", 0, true, Inserts, 0.0), Claim("a", worker, 0.0), Delete("a"),
                Ingest(content, name, "b", 0, true, Inserts, 0.0), Process(claimed, env, 0.0)];
    var s1 := State(map["a" := first], map[first.path := content]);
    assert Apply(c, sha, s0, ops[0]) == s1;
    var s2 := State(map["a" := claimed], s1.files);
    assert Apply(c, sha, s1, ops[1]) == s2;
    assert Apply(c, sha, s2, ops[2]) == s0;
    var s4 := State(map["b" := second], map[second.path := content]);
    assert Apply(c, sha, s0, ops[3]) == s4;
    var s5 := Apply(c, sha, s4, ops[4]);
    TwinGone(c, claimed, s4.files, env);
    assert s5.rows == s4.rows && second.path !in s5.files;
    ExecFive(c, sha, s0, ops, s1, s2, s0, s4, s5);
  }

  lemma TwinGone(c: Config, job: Job, files: Disk, env: Env)
    requires job.status == Processing && job.path in files && job.path.Inbox?
    requires env.extract == None && env.classify == Ok(UNKNOWN) && env.prepare == None && !env.moveFails
    ensures var (done, left) := Processed(c, job, files, env, 0.0);
      done.id == job.id && job.path !in left
  {
  }

  lemma ExecFive(c: Config, sha: Hash, s0: State, ops: seq<Op>, s1: State, s2: State, s3: State, s4: State, s5: State)
    requires |ops| == 5
    requires Apply(c, sha, s0, ops[0]) == s1 && Apply(c, sha, s1, ops[1]) == s2 && Apply(c, sha, s2, ops[2]) == s3
    requires Apply(c, sha, s3, ops[3]) == s4 && Apply(c, sha, s4, ops[4]) == s5
    ensures Exec(c, sha, s0, ops) == s5
  {
    assert Exec(c, sha, s4, ops[4..]) == Exec(c, sha, s5, ops[4..][1..]) == s5;
    assert Exec(c, sha, s3, ops[3..]) == Exec(c, sha, s4, ops[3..][1..]) && ops[3..][1..] == ops[4..];
    assert Exec(c, sha, s2, ops[2..]) == Exec(c, sha, s3, ops[2..][1..]) && ops[2..][1..] == ops[3..];
    assert Exec(c, sha, s1, ops[1..]) == Exec(c, sha, s2, ops[1..][1..]) && ops[1..][1..] == ops[2..];
    assert Exec(c, sha, s0, ops) == Exec(c, sha, s1, ops[1..]);
  }
}
