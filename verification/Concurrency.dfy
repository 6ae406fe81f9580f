/**
 Workers and operator requests on one job table. A store method is one atomic step; between
 its steps a process keeps the row it read, and other processes may change the table.
 A step is Enabled in a world and Apply gives the next world, so a run is any interleaving.
 */
module Concurrency {
  import opened Wrappers
  import opened Orderings
  import opened Bytes
  import opened Jobs
  import opened Pipeline

  /** A process between two of its transactions. job is the snapshot it will write back. */
  datatype Proc =
    | Working(job: Job, renewed: real)                       // a worker; the lease was last set at renewed
    | Reviewing(job: Job)
    | Releasing(job: Job)                                    // before the check of the workflow rules
    | DeliveryClaimed(job: Job)                              // claim_delivery succeeded
    | Called(job: Job, outcome: Result<string, Failure>)     // the connector answered

  /** used remembers the hash of every job that ever existed. */
  datatype World = World(now: real, rows: Table, procs: map<string, Proc>, used: map<string, string>)

  datatype Step =
    | Tick(seconds: real)
    | Ingest(id: string, name: string, content: seq<Byte>)
    | Claim(p: string, id: string)
    | Renew(p: string)
    | FinishProcess(p: string, files: Disk, env: Env)
    | BeginReview(p: string, id: string)
    | FinishReview(p: string, request: Review)
    | BeginRelease(p: string, id: string)
    | RejectRelease(p: string)
    | ClaimRelease(p: string)
    | CallConnector(p: string, outcome: Result<string, Failure>)
    | FinishRelease(p: string, files: Disk, cleanupFails: bool)
    | Retry(id: string)
    | Delete(id: string)
    | Crash(p: string)

  datatype System = System(config: Config, sha: Hash)

  function RuleErrors(config: Config, job: Job): seq<string> {
    Validate(config, job.documentType, job.routing.Some?)
  }

  predicate Enabled(s: System, w: World, step: Step) {
    match step
    case Tick(seconds) => seconds >= 0.0
    case Ingest(id, _, content) => id !in w.used && !HasHash(w.rows, s.sha(content))
    case Claim(p, id) => p !in w.procs && id in w.rows && IsDue(w.rows[id], w.now)
    case Renew(p) => p in w.procs && w.procs[p].Working?
    case FinishProcess(p, _, _) => p in w.procs && w.procs[p].Working?
    case BeginReview(p, id) => p !in w.procs && id in w.rows && w.rows[id].status == Quarantined
    case FinishReview(p, _) => p in w.procs && w.procs[p].Reviewing?
    case BeginRelease(p, id) => p !in w.procs && id in w.rows && w.rows[id].status in {Quarantined, Delivering}
    case RejectRelease(p) => p in w.procs && w.procs[p].Releasing? && RuleErrors(s.config, w.procs[p].job) != []
    case ClaimRelease(p) => p in w.procs && w.procs[p].Releasing? && RuleErrors(s.config, w.procs[p].job) == []
    case CallConnector(p, _) => p in w.procs && w.procs[p].DeliveryClaimed?
    case FinishRelease(p, _, _) => p in w.procs && w.procs[p].Called?
    case Retry(_) => true
    case Delete(_) => true
    case Crash(p) => p in w.procs
  }

  function Without(procs: map<string, Proc>, p: string): map<string, Proc> {
    map q | q in procs && q != p :: procs[q]
  }

  /** The row a step writes back as a whole. */
  function Saved(s: System, w: World, step: Step): Option<Job>
    requires Enabled(s, w, step)
  {
    match step
    case FinishProcess(p, files, env) => Some(Processed(s.config, w.procs[p].job, files, env, w.now).0)
    case FinishReview(p, request) => Reviewed(w.procs[p].job, request)
    case RejectRelease(p) => Some(ReleaseRejected(s.config, w.procs[p].job))
    case FinishRelease(p, files, cleanupFails) =>
      var job := w.procs[p].job;
      (match w.procs[p].outcome
       case Ok(reference) => Some(ReleaseDelivered(s.config, job, reference, files, cleanupFails).0)
       case Err(e) => Some(ReleaseFailed(job, e)))
    case _ => None
  }

  /** The table after the step. */
  function Rows(s: System, w: World, step: Step): Table
    requires Enabled(s, w, step)
  {
    match step
    case Ingest(id, name, content) => w.rows[id := NewJob(id, name, content, s.sha, w.now)]
    case Claim(p, id) => w.rows[id := Claimed(w.rows[id], p, w.now, s.config.leaseSeconds)]
    case Renew(p) => RenewRow(w.rows, w.procs[p].job.id, p, w.now, s.config.leaseSeconds)
    case ClaimRelease(p) => ClaimDeliveryRow(w.rows, w.procs[p].job.id)
    case Retry(id) => RetryRow(w.rows, id)
    case Delete(id) => DeleteRow(w.rows, id)
    case _ => var saved := Saved(s, w, step); if saved.Some? then SaveRow(w.rows, saved.value) else w.rows
  }

  /** The processes after the step. */
  function Procs(s: System, w: World, step: Step): map<string, Proc>
    requires Enabled(s, w, step)
  {
    match step
    case Claim(p, id) => w.procs[p := Working(Claimed(w.rows[id], p, w.now, s.config.leaseSeconds), w.now)]
    case Renew(p) =>
      if CanRenew(w.rows, w.procs[p].job.id, p) then w.procs[p := w.procs[p].(renewed := w.now)] else w.procs
    case BeginReview(p, id) => w.procs[p := Reviewing(w.rows[id])]
    case BeginRelease(p, id) => w.procs[p := Releasing(w.rows[id])]
    case ClaimRelease(p) =>
      var job := w.procs[p].job;
      if job.id in w.rows && w.rows[job.id].status == Quarantined
      then w.procs[p := DeliveryClaimed(job.(errors := [], status := Delivering))] else Without(w.procs, p)
    case CallConnector(p, outcome) => w.procs[p := Called(w.procs[p].job, outcome)]
    case FinishProcess(p, _, _) => Without(w.procs, p)
    case FinishReview(p, _) => Without(w.procs, p)
    case RejectRelease(p) => Without(w.procs, p)
    case FinishRelease(p, _, _) => Without(w.procs, p)
    case Crash(p) => Without(w.procs, p)
    case _ => w.procs
  }

  function Apply(s: System, w: World, step: Step): World
    requires Enabled(s, w, step)
  {
    World(
      if step.Tick? then w.now + step.seconds else w.now,
      Rows(s, w, step),
      Procs(s, w, step),
      if step.Ingest? then w.used[step.id := s.sha(step.content)] else w.used)
  }

  // ---------- Runs ----------

  datatype Run = Run(worlds: seq<World>, steps: seq<Step>)

  ghost predicate StepAt(s: System, r: Run, i: nat) {
    && i + 1 < |r.worlds| && i < |r.steps|
    && Enabled(s, r.worlds[i], r.steps[i]) && r.worlds[i + 1] == Apply(s, r.worlds[i], r.steps[i])
  }

  ghost predicate IsRun(s: System, r: Run) {
    && |r.worlds| == |r.steps| + 1
    && forall i: nat :: i < |r.steps| ==> StepAt(s, r, i)
  }

  // ---------- What every interleaving keeps ----------

  predicate GoodJob(c: Config, j: Job) {
    && (j.status == Processing <==> j.worker.Some?)
    && (j.worker.Some? <==> j.lease.Some?)
    && (j.nextAttempt.Some? ==> j.status == Received)
    && (j.status == Received ==> j.attempts < c.maxAttempts)
    && (j.status == Delivered ==> j.destination.Some? && j.errors == [] && RuleErrors(c, j) == [])
  }

  /** A snapshot whose later save is harmless whatever the row has become. */
  predicate GoodProc(c: Config, p: Proc) {
    && GoodJob(c, p.job)
    && match p
       case Working(job, _) => job.status == Processing
       case Reviewing(job) => job.status == Quarantined
       case Releasing(job) => job.status == Quarantined || job.status == Delivering
       case DeliveryClaimed(job) => job.status == Delivering && job.errors == [] && RuleErrors(c, job) == []
       case Called(job, _) => job.status == Delivering && job.errors == [] && RuleErrors(c, job) == []
  }

  /** The id was given to a job with this hash, now or in the past. */
  predicate Known(used: map<string, string>, job: Job) {
    job.id in used && used[job.id] == job.sha256
  }

  ghost predicate GoodTable(c: Config, t: Table, used: map<string, string>) {
    && Keyed(t)
    && (forall id :: id in t ==> GoodJob(c, t[id]) && Known(used, t[id]))
    && forall a, b :: a in t && b in t && t[a].sha256 == t[b].sha256 ==> a == b
  }

  ghost predicate GoodProcs(s: System, w: World) {
    forall p :: p in w.procs ==> GoodProc(s.config, w.procs[p]) && Known(w.used, w.procs[p].job)
  }

  ghost predicate Inv(s: System, w: World) {
    GoodTable(s.config, w.rows, w.used) && GoodProcs(s, w)
  }

  /** One processing attempt: an ending fit to be written, never PROCESSING again. */
  lemma ProcessedGood(c: Config, job: Job, files: Disk, env: Env, now: real)
    requires GoodJob(c, job) && job.status == Processing
    ensures var done := Processed(c, job, files, env, now).0;
      GoodJob(c, done) && done.status != Processing && done.status != Delivering && done.id == job.id
        && done.sha256 == job.sha256
  {
    KeepsId(c, job, files, env);
    var t := TrySteps(c, job, files, env);
    assert t.raised == None ==> (t.job.status == Quarantined || t.job.status == Delivered);
    assert t.job.status == Delivered ==>
      t.raised == None && t.job.destination.Some? && t.job.errors == [] && RuleErrors(c, t.job) == [];
  }

  /** Every whole-row write is well-formed and written by a request only with a final or manual status. */
  lemma SavedGood(s: System, w: World, step: Step)
    requires GoodProcs(s, w) && Enabled(s, w, step)
    ensures var saved := Saved(s, w, step);
      saved.Some? ==>
        && GoodJob(s.config, saved.value) && Known(w.used, saved.value)
        && saved.value.status != Processing && saved.value.status != Delivering
  {
    match step
    case FinishProcess(p, files, env) =>
      ProcessedGood(s.config, w.procs[p].job, files, env, w.now);
    case _ =>
  }

  lemma UpdateKeeps(c: Config, t: Table, used: map<string, string>, id: string, job: Job)
    requires GoodTable(c, t, used) && id in t && job.id == id && GoodJob(c, job) && Known(used, job)
    ensures GoodTable(c, t[id := job], used)
  {
    var after := t[id := job];
    forall a, b | a in after && b in after && after[a].sha256 == after[b].sha256
      ensures a == b
    {
      assert after[a].sha256 == t[a].sha256 && after[b].sha256 == t[b].sha256;
    }
  }

  lemma InsertKeeps(c: Config, t: Table, used: map<string, string>, job: Job)
    requires GoodTable(c, t, used) && job.id !in used && !HasHash(t, job.sha256) && GoodJob(c, job)
    ensures GoodTable(c, t[job.id := job], used[job.id := job.sha256])
  {
  }

  lemma StepKeepsRows(s: System, w: World, step: Step)
    requires s.config.maxAttempts >= 1 && Inv(s, w) && Enabled(s, w, step)
    ensures GoodTable(s.config, Apply(s, w, step).rows, Apply(s, w, step).used)
  {
    var c, after := s.config, Rows(s, w, step);
    SavedGood(s, w, step);
    var saved := Saved(s, w, step);
    if saved.Some? && saved.value.id in w.rows { UpdateKeeps(c, w.rows, w.used, saved.value.id, saved.value); }
    match step
    case Ingest(id, name, content) => InsertKeeps(c, w.rows, w.used, after[id]);
    case Claim(p, id) => UpdateKeeps(c, w.rows, w.used, id, after[id]);
    case Renew(p) =>
      var id := w.procs[p].job.id;
      if id in w.rows { UpdateKeeps(c, w.rows, w.used, id, after[id]); }
    case ClaimRelease(p) =>
      var id := w.procs[p].job.id;
      if id in w.rows { UpdateKeeps(c, w.rows, w.used, id, after[id]); }
    case Retry(id) =>
      if id in w.rows { UpdateKeeps(c, w.rows, w.used, id, after[id]); }
    case _ =>
  }

  lemma StepKeepsProcs(s: System, w: World, step: Step, p: string)
    requires Inv(s, w) && Enabled(s, w, step) && p in Procs(s, w, step)
    ensures var proc := Procs(s, w, step)[p]; GoodProc(s.config, proc) && Known(w.used, proc.job)
  {
  }

  lemma StepKeeps(s: System, w: World, step: Step)
    requires s.config.maxAttempts >= 1 && Inv(s, w) && Enabled(s, w, step)
    ensures Inv(s, Apply(s, w, step))
  {
    StepKeepsRows(s, w, step);
    forall p | p in Procs(s, w, step)
      ensures GoodProc(s.config, Procs(s, w, step)[p]) && Known(w.used, Procs(s, w, step)[p].job)
    {
      StepKeepsProcs(s, w, step, p);
    }
  }

  /** Row invariants under every interleaving, stale saves included. */
  lemma {:induction false} RowsStayGood(s: System, r: Run, i: nat)
    requires s.config.maxAttempts >= 1 && IsRun(s, r) && Inv(s, r.worlds[0]) && i < |r.worlds|
    ensures Inv(s, r.worlds[i])
  {
    if i > 0 {
      RowsStayGood(s, r, i - 1);
      assert StepAt(s, r, i - 1);
      StepKeeps(s, r.worlds[i - 1], r.steps[i - 1]);
    }
  }

  /** A deleted job never comes back, not even through a process that still holds its row. */
  lemma {:induction false} DeletedNeverReturns(s: System, r: Run, id: string, i: nat, j: nat)
    requires s.config.maxAttempts >= 1 && IsRun(s, r) && Inv(s, r.worlds[0]) && i <= j < |r.worlds|
    requires id in r.worlds[i].used && id !in r.worlds[i].rows
    ensures id in r.worlds[j].used && id !in r.worlds[j].rows
  {
    if i < j {
      DeletedNeverReturns(s, r, id, i, j - 1);
      RowsStayGood(s, r, j - 1);
      assert StepAt(s, r, j - 1);
    }
  }

  // ---------- No delivery without the required routing ----------

  /** Neither the row of the job nor any snapshot of it has a routing reference. */
  ghost predicate Unrouted(w: World, id: string) {
    && (id in w.rows ==> w.rows[id].routing == None)
    && forall p :: p in w.procs && w.procs[p].job.id == id ==> w.procs[p].job.routing == None
  }

  /** The step is a review that gives the job a routing reference. */
  predicate GivesRouting(w: World, step: Step, id: string) {
    && step.FinishReview? && step.p in w.procs && w.procs[step.p].job.id == id
    && step.request.routing.Some?
  }

  lemma ProcessedRouting(c: Config, job: Job, files: Disk, env: Env, now: real)
    ensures Processed(c, job, files, env, now).0.routing == job.routing
    ensures Processed(c, job, files, env, now).0.id == job.id
  {
    KeepsId(c, Started(job), files, env);
  }

  lemma SavedUnrouted(s: System, w: World, step: Step, id: string)
    requires Unrouted(w, id) && Enabled(s, w, step) && !GivesRouting(w, step, id)
    ensures var saved := Saved(s, w, step);
      saved.Some? && saved.value.id == id ==> saved.value.routing == None
  {
    match step
    case FinishProcess(p, files, env) => ProcessedRouting(s.config, w.procs[p].job, files, env, w.now);
    case _ =>
  }

  lemma RowUnrouted(s: System, w: World, step: Step, id: string)
    requires Keyed(w.rows) && Unrouted(w, id) && Enabled(s, w, step) && !GivesRouting(w, step, id)
    ensures id in Rows(s, w, step) ==> Rows(s, w, step)[id].routing == None
  {
    SavedUnrouted(s, w, step, id);
  }

  lemma StepKeepsUnrouted(s: System, w: World, step: Step, id: string)
    requires Inv(s, w) && Unrouted(w, id) && Enabled(s, w, step) && !GivesRouting(w, step, id)
    ensures Unrouted(Apply(s, w, step), id)
  {
    RowUnrouted(s, w, step, id);
  }

  lemma UnusedUnrouted(s: System, w: World, id: string)
    requires Inv(s, w) && id !in w.used
    ensures Unrouted(w, id)
  {
  }

  ghost predicate GivesRoutingAt(r: Run, id: string, k: nat) {
    k < |r.worlds| && k < |r.steps| && GivesRouting(r.worlds[k], r.steps[k], id)
  }

  lemma {:induction false} StaysUnrouted(s: System, r: Run, id: string, i: nat)
    requires s.config.maxAttempts >= 1 && IsRun(s, r) && Inv(s, r.worlds[0]) && i < |r.worlds|
    requires id !in r.worlds[0].used && forall k: nat :: k < i ==> !GivesRoutingAt(r, id, k)
    ensures Unrouted(r.worlds[i], id)
  {
    if i == 0 {
      UnusedUnrouted(s, r.worlds[0], id);
    } else {
      StaysUnrouted(s, r, id, i - 1);
      RowsStayGood(s, r, i - 1);
      assert StepAt(s, r, i - 1) && !GivesRoutingAt(r, id, i - 1);
      StepKeepsUnrouted(s, r.worlds[i - 1], r.steps[i - 1], id);
    }
  }

  lemma UnroutedNotDelivered(s: System, w: World, id: string)
    requires Inv(s, w) && Unrouted(w, id) && s.config.requireRouting
    ensures id in w.rows ==> w.rows[id].status != Delivered
  {
  }

  /**
   Where a routing reference is required, a document ingested in a run is delivered neither by a
   worker nor by a release before a review has given it one, whatever else happens in between.
   */
  lemma UnroutedNeverDelivered(s: System, r: Run, id: string, i: nat)
    requires s.config.maxAttempts >= 1 && IsRun(s, r) && Inv(s, r.worlds[0]) && i < |r.worlds|
    requires id !in r.worlds[0].used && forall k: nat :: k < i ==> !GivesRoutingAt(r, id, k)
    ensures s.config.requireRouting && id in r.worlds[i].rows ==> r.worlds[i].rows[id].status != Delivered
  {
    if s.config.requireRouting {
      StaysUnrouted(s, r, id, i);
      RowsStayGood(s, r, i);
      UnroutedNotDelivered(s, r.worlds[i], id);
    }
  }

  // ---------- Alone, the steps make up the operations ----------

  /** A legal step to the given world. */
  predicate Leads(s: System, w: World, step: Step, after: World) {
    Enabled(s, w, step) && Apply(s, w, step) == after
  }

  function WithProc(w: World, rows: Table, p: string, proc: Proc): World {
    w.(rows := rows, procs := w.procs[p := proc])
  }

  lemma EndsAlone(w: World, p: string, proc: Proc)
    requires p !in w.procs
    ensures Without(w.procs[p := proc], p) == w.procs
  {
  }

  /** A claim and the save at the end of process, with nobody in between. */
  lemma ProcessAlone(s: System, w: World, p: string, id: string, files: Disk, env: Env)
    requires p !in w.procs && id in w.rows && Keyed(w.rows) && IsDue(w.rows[id], w.now)
    ensures var claimed := Claimed(w.rows[id], p, w.now, s.config.leaseSeconds);
      var working := WithProc(w, w.rows[id := claimed], p, Working(claimed, w.now));
      && Leads(s, w, Claim(p, id), working)
      && Leads(s, working, FinishProcess(p, files, env),
           w.(rows := w.rows[id := Processed(s.config, claimed, files, env, w.now).0]))
  {
    var claimed := Claimed(w.rows[id], p, w.now, s.config.leaseSeconds);
    EndsAlone(w, p, Working(claimed, w.now));
    ProcessedRouting(s.config, claimed, files, env, w.now);
    var done := Processed(s.config, claimed, files, env, w.now).0;
    assert w.rows[id := claimed][id := done] == w.rows[id := done];
  }

  lemma ReviewAlone(s: System, w: World, p: string, id: string, request: Review)
    requires p !in w.procs && id in w.rows && Keyed(w.rows) && w.rows[id].status == Quarantined
    ensures var reviewing := WithProc(w, w.rows, p, Reviewing(w.rows[id]));
      var reviewed := Reviewed(w.rows[id], request);
      && Leads(s, w, BeginReview(p, id), reviewing)
      && Leads(s, reviewing, FinishReview(p, request),
           if reviewed.Some? then w.(rows := w.rows[id := reviewed.value]) else w)
  {
    EndsAlone(w, p, Reviewing(w.rows[id]));
  }

  lemma RejectAlone(
    s: System, w: World, p: string, id: string, files: Disk, outcome: Result<string, Failure>, cleanupFails: bool)
    requires p !in w.procs && id in w.rows && Keyed(w.rows)
    requires w.rows[id].status == Quarantined || w.rows[id].status == Delivering
    ensures var job := w.rows[id];
      var releasing := WithProc(w, w.rows, p, Releasing(job));
      var rows := Released(s.config, w.rows, job, files, outcome, cleanupFails).0;
      && Leads(s, w, BeginRelease(p, id), releasing)
      && (!MeetsRules(s.config, job.documentType, job.routing.Some?) ==>
        Leads(s, releasing, RejectRelease(p), w.(rows := rows)))
      && (MeetsRules(s.config, job.documentType, job.routing.Some?) && job.status == Delivering ==>
        Leads(s, releasing, ClaimRelease(p), w.(rows := rows)))
  {
    EndsAlone(w, p, Releasing(w.rows[id]));
  }

  /** The copy of the job that a release works on once it has claimed the delivery. */
  function DeliveringRow(job: Job): Job {
    job.(errors := [], status := Delivering)
  }

  lemma CallAlone(s: System, w: World, p: string, id: string, outcome: Result<string, Failure>)
    requires p !in w.procs && id in w.rows && Keyed(w.rows) && w.rows[id].status == Quarantined
    requires MeetsRules(s.config, w.rows[id].documentType, w.rows[id].routing.Some?)
    ensures var job, claimed := w.rows[id], w.rows[id := w.rows[id].(status := Delivering)];
      var pending := WithProc(w, claimed, p, DeliveryClaimed(DeliveringRow(job)));
      && Leads(s, WithProc(w, w.rows, p, Releasing(job)), ClaimRelease(p), pending)
      && Leads(s, pending, CallConnector(p, outcome), WithProc(w, claimed, p, Called(DeliveringRow(job), outcome)))
  {
    var job := w.rows[id];
    var pending := w.procs[p := DeliveryClaimed(DeliveringRow(job))];
    assert w.procs[p := Releasing(job)][p := DeliveryClaimed(DeliveringRow(job))] == pending;
    assert pending[p := Called(DeliveringRow(job), outcome)] == w.procs[p := Called(DeliveringRow(job), outcome)];
  }

  lemma FinishAlone(
    s: System, w: World, p: string, id: string, files: Disk, outcome: Result<string, Failure>, cleanupFails: bool)
    requires p !in w.procs && id in w.rows && Keyed(w.rows) && w.rows[id].status == Quarantined
    requires MeetsRules(s.config, w.rows[id].documentType, w.rows[id].routing.Some?)
    ensures var job, claimed := w.rows[id], w.rows[id := w.rows[id].(status := Delivering)];
      var rows := Released(s.config, w.rows, job, files, outcome, cleanupFails).0;
      Leads(s, WithProc(w, claimed, p, Called(DeliveringRow(job), outcome)), FinishRelease(p, files, cleanupFails),
        w.(rows := rows))
  {
    EndsAlone(w, p, Called(DeliveringRow(w.rows[id]), outcome));
  }

  // ---------- Release conservation ----------

  /** The step makes release call the connector for this job. */
  predicate CallsConnector(w: World, step: Step, id: string) {
    step.CallConnector? && step.p in w.procs && w.procs[step.p].job.id == id
  }

  /** The step writes the row of this job as QUARANTINED. */
  predicate WritesQuarantined(s: System, w: World, step: Step, id: string) {
    && Enabled(s, w, step) && id in w.rows
    && var saved := Saved(s, w, step); saved.Some? && saved.value.id == id && saved.value.status == Quarantined
  }

  function One(b: bool): nat {
    if b then 1 else 0
  }

  ghost function Calls(r: Run, id: string, n: nat): nat
    requires n <= |r.steps| && |r.worlds| == |r.steps| + 1
  {
    if n == 0 then 0
    else Calls(r, id, n - 1) + One(CallsConnector(r.worlds[n - 1], r.steps[n - 1], id))
  }

  ghost function Quarantines(s: System, r: Run, id: string, n: nat): nat
    requires n <= |r.steps| && |r.worlds| == |r.steps| + 1
  {
    if n == 0 then 0
    else Quarantines(s, r, id, n - 1) + One(WritesQuarantined(s, r.worlds[n - 1], r.steps[n - 1], id))
  }

  /** Releases that claimed the delivery and have not yet called the connector. */
  function Pending(procs: map<string, Proc>, id: string): set<string> {
    set p | p in procs && procs[p].DeliveryClaimed? && procs[p].job.id == id
  }

  function Waiting(t: Table, id: string): nat {
    if id in t && t[id].status == Quarantined then 1 else 0
  }

  /** How many calls the current state can still lead to without another quarantine. */
  function Credit(w: World, id: string): nat {
    |Pending(w.procs, id)| + Waiting(w.rows, id)
  }

  lemma PendingShrinks(s: System, w: World, step: Step, id: string)
    requires Enabled(s, w, step) && !step.ClaimRelease?
    ensures |Pending(Procs(s, w, step), id)| + One(CallsConnector(w, step, id)) <= |Pending(w.procs, id)|
  {
    var before, after := Pending(w.procs, id), Pending(Procs(s, w, step), id);
    if CallsConnector(w, step, id) {
      assert step.p in before;
      SubsetSize(after, before - {step.p});
    } else {
      SubsetSize(after, before);
    }
  }

  lemma WaitingIsWritten(s: System, w: World, step: Step, id: string)
    requires Inv(s, w) && Enabled(s, w, step)
    ensures Waiting(Rows(s, w, step), id) <= Waiting(w.rows, id) + One(WritesQuarantined(s, w, step, id))
  {
  }

  /** claim_delivery turns a waiting row into a pending call, or changes neither. */
  lemma ClaimMoves(s: System, w: World, step: Step, id: string)
    requires Enabled(s, w, step) && step.ClaimRelease?
    ensures |Pending(Procs(s, w, step), id)| + Waiting(Rows(s, w, step), id)
         <= |Pending(w.procs, id)| + Waiting(w.rows, id)
  {
    var before, after := Pending(w.procs, id), Pending(Procs(s, w, step), id);
    if w.procs[step.p].job.id == id && Waiting(w.rows, id) == 1 {
      SubsetSize(after, before + {step.p});
    } else {
      SubsetSize(after, before);
    }
  }

  lemma CreditPays(s: System, w: World, step: Step, id: string)
    requires Inv(s, w) && Enabled(s, w, step)
    ensures One(CallsConnector(w, step, id)) + Credit(Apply(s, w, step), id)
         <= Credit(w, id) + One(WritesQuarantined(s, w, step, id))
  {
    if step.ClaimRelease? {
      ClaimMoves(s, w, step, id);
    } else {
      PendingShrinks(s, w, step, id);
      WaitingIsWritten(s, w, step, id);
    }
  }

  lemma {:induction false} CallsArePaid(s: System, r: Run, id: string, n: nat)
    requires s.config.maxAttempts >= 1 && IsRun(s, r) && Inv(s, r.worlds[0]) && n <= |r.steps|
    ensures Calls(r, id, n) + Credit(r.worlds[n], id) <= Credit(r.worlds[0], id) + Quarantines(s, r, id, n)
  {
    if n > 0 {
      CallsArePaid(s, r, id, n - 1);
      RowsStayGood(s, r, n - 1);
      assert StepAt(s, r, n - 1);
      CreditPays(s, r.worlds[n - 1], r.steps[n - 1], id);
    }
  }

  /** From a table without the job, or any with no release under way: never more calls than quarantines. */
  lemma ReleaseConservation(s: System, r: Run, id: string, n: nat)
    requires s.config.maxAttempts >= 1 && IsRun(s, r) && Inv(s, r.worlds[0]) && r.worlds[0].procs == map[]
    requires n <= |r.steps|
    ensures id !in r.worlds[0].rows ==> Calls(r, id, n) <= Quarantines(s, r, id, n)
    ensures Quarantines(s, r, id, n) == 0 ==> Calls(r, id, n) <= 1
    ensures Calls(r, id, n) <= Quarantines(s, r, id, n) + 1
  {
    CallsArePaid(s, r, id, n);
    assert Pending(r.worlds[0].procs, id) == {};
  }
}
