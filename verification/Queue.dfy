/**
 How long the queue works (worker.py, claim_next and the retry branch of process): the number
 of claims is bounded, draining ends, and retries wait their exponential and requested delays.
 */
module Queue {
  import opened Wrappers
  import opened Jobs
  import opened Pipeline
  import opened Concurrency
  import opened Leases

  // ---------- Claims are bounded ----------

  predicate WorkerStep(step: Step) {
    step.Tick? || step.Claim? || step.Renew? || step.FinishProcess?
  }

  /** Every PROCESSING row belongs to a running worker: nobody crashed. */
  ghost predicate Owned(w: World) {
    forall id :: id in w.rows && w.rows[id].status == Processing ==> OwnedRow(w, id)
  }

  predicate OwnedRow(w: World, id: string)
    requires id in w.rows
  {
    var worker := w.rows[id].worker;
    worker.Some? && worker.value in w.procs && w.procs[worker.value].Working? && w.procs[worker.value].job.id == id
  }

  /** How often a job can still be claimed without a crash or a manual retry. */
  function Weight(c: Config, t: Table, id: string): nat {
    if id in t && (t[id].status == Received || t[id].status == Processing) && t[id].attempts < c.maxAttempts
    then c.maxAttempts - t[id].attempts else 0
  }

  function Work(c: Config, t: Table, keys: seq<string>): nat {
    if keys == [] then 0 else Weight(c, t, keys[0]) + Work(c, t, keys[1..])
  }

  ghost predicate Covers(keys: seq<string>, t: Table) {
    forall id :: id in t ==> id in keys
  }

  lemma {:induction false} WorkFalls(c: Config, t: Table, u: Table, keys: seq<string>)
    requires forall id :: Weight(c, u, id) <= Weight(c, t, id)
    ensures Work(c, u, keys) <= Work(c, t, keys)
    ensures forall id :: id in keys && Weight(c, u, id) < Weight(c, t, id) ==> Work(c, u, keys) < Work(c, t, keys)
  {
    if keys != [] {
      WorkFalls(c, t, u, keys[1..]);
    }
  }

  lemma ProcessingBefore(s: System, w: World, step: Step, id: string)
    requires GoodProcs(s, w) && Enabled(s, w, step) && !(step.Claim? && step.id == id)
    requires id in Rows(s, w, step) && Rows(s, w, step)[id].status == Processing
    ensures id in w.rows && w.rows[id].status == Processing && w.rows[id].worker == Rows(s, w, step)[id].worker
    ensures step.FinishProcess? ==> w.procs[step.p].job.id != id
  {
    SavedGood(s, w, step);
  }

  lemma OwnerStays(s: System, w: World, step: Step, p: string)
    requires Enabled(s, w, step) && p in w.procs && w.procs[p].Working?
    requires step != Crash(p) && !(step.FinishProcess? && step.p == p)
    ensures p in Procs(s, w, step) && Procs(s, w, step)[p].Working? && Procs(s, w, step)[p].job == w.procs[p].job
  {
  }

  lemma StepKeepsOwned(s: System, w: World, step: Step)
    requires Inv(s, w) && Enabled(s, w, step) && Owned(w) && !step.Crash?
    ensures Owned(Apply(s, w, step))
  {
    var after := Apply(s, w, step);
    forall id | id in after.rows && after.rows[id].status == Processing
      ensures OwnedRow(after, id)
    {
      if !(step.Claim? && step.id == id) {
        ProcessingBefore(s, w, step, id);
        assert OwnedRow(w, id);
        OwnerStays(s, w, step, w.rows[id].worker.value);
      }
    }
  }

  /** Only RECEIVED jobs are claimed: leases of running workers do not run out. */
  lemma ClaimsReceived(s: System, w: World, p: string, id: string)
    requires Enabled(s, w, Claim(p, id)) && AllHold(s, w) && Fresh(s, w) && Owned(w)
    ensures w.rows[id].status == Received
  {
    if w.rows[id].status == Processing {
      assert OwnedRow(w, id);
      DueExactly(s, w, w.rows[id].worker.value);
    }
  }

  lemma WeightFalls(s: System, w: World, step: Step, id: string)
    requires Inv(s, w) && Enabled(s, w, step) && AllHold(s, w) && Fresh(s, w) && Owned(w) && WorkerStep(step)
    ensures Weight(s.config, Rows(s, w, step), id) + One(step.Claim? && step.id == id) <= Weight(s.config, w.rows, id)
  {
    match step
    case Claim(p, claimed) => ClaimsReceived(s, w, p, claimed);
    case Renew(p) =>
    case FinishProcess(p, files, env) =>
      assert Holds(s, w, p);
      KeepsId(s.config, w.procs[p].job, files, env);
    case _ =>
  }

  lemma ClaimWorks(s: System, w: World, step: Step, keys: seq<string>)
    requires Inv(s, w) && Enabled(s, w, step) && AllHold(s, w) && Fresh(s, w) && Owned(w) && WorkerStep(step)
    requires Covers(keys, w.rows)
    ensures Work(s.config, Rows(s, w, step), keys) + One(step.Claim?) <= Work(s.config, w.rows, keys)
    ensures Covers(keys, Rows(s, w, step))
  {
    forall id
      ensures Weight(s.config, Rows(s, w, step), id) + One(step.Claim? && step.id == id) <= Weight(s.config, w.rows, id)
    {
      WeightFalls(s, w, step, id);
    }
    WorkFalls(s.config, w.rows, Rows(s, w, step), keys);
  }

  ghost function Claims(r: Run, n: nat): nat
    requires n <= |r.steps|
  {
    if n == 0 then 0 else Claims(r, n - 1) + One(r.steps[n - 1].Claim?)
  }

  /** Nobody crashes, every heartbeat is punctual, and no request writes over a held row. */
  ghost predicate Crashless(s: System, r: Run, late: real) {
    && s.config.maxAttempts >= 1 && IsRun(s, r) && Inv(s, r.worlds[0]) && AllHold(s, r.worlds[0]) && Owned(r.worlds[0])
    && Punctual(s, r, late) && Undisturbed(s, r)
    && forall i :: 0 <= i < |r.steps| ==> !r.steps[i].Crash?
  }

  /** Workers and the clock alone, nobody crashes, every heartbeat is punctual. */
  ghost predicate WorkerRun(s: System, r: Run, late: real) {
    && s.config.maxAttempts >= 1 && IsRun(s, r) && Inv(s, r.worlds[0]) && AllHold(s, r.worlds[0]) && Owned(r.worlds[0])
    && Punctual(s, r, late)
    && forall i :: 0 <= i < |r.steps| ==> WorkerStep(r.steps[i])
  }

  lemma {:induction false} OwnedStays(s: System, r: Run, late: real, i: nat)
    requires Crashless(s, r, late) && i < |r.worlds|
    ensures var w := r.worlds[i]; Inv(s, w) && AllHold(s, w) && Fresh(s, w) && Owned(w)
  {
    RowsStayGood(s, r, i);
    assert OnTime(s, r.worlds[i], late);
    HoldsStay(s, r, late, i);
    if i > 0 {
      OwnedStays(s, r, late, i - 1);
      assert StepAt(s, r, i - 1);
      StepKeepsOwned(s, r.worlds[i - 1], r.steps[i - 1]);
    }
  }

  lemma WorkerRunCrashless(s: System, r: Run, late: real)
    requires WorkerRun(s, r, late)
    ensures Crashless(s, r, late)
  {
  }

  lemma {:induction false} ClaimsAndWork(s: System, r: Run, late: real, keys: seq<string>, n: nat)
    requires WorkerRun(s, r, late) && Covers(keys, r.worlds[0].rows) && n <= |r.steps|
    ensures Covers(keys, r.worlds[n].rows)
    ensures Claims(r, n) + Work(s.config, r.worlds[n].rows, keys) <= Work(s.config, r.worlds[0].rows, keys)
  {
    if n > 0 {
      ClaimsAndWork(s, r, late, keys, n - 1);
      WorkerRunCrashless(s, r, late);
      OwnedStays(s, r, late, n - 1);
      assert StepAt(s, r, n - 1);
      ClaimWorks(s, r.worlds[n - 1], r.steps[n - 1], keys);
    }
  }

  function Attempts(c: Config, t: Table, keys: seq<string>): nat {
    if keys == [] then 0
    else
      (if keys[0] in t && t[keys[0]].status == Received && t[keys[0]].attempts < c.maxAttempts
       then c.maxAttempts - t[keys[0]].attempts else 0) + Attempts(c, t, keys[1..])
  }

  lemma {:induction false} WorkIsAttempts(c: Config, t: Table, keys: seq<string>)
    requires forall id :: id in t ==> t[id].status != Processing
    ensures Work(c, t, keys) == Attempts(c, t, keys)
  {
    if keys != [] {
      WorkIsAttempts(c, t, keys[1..]);
    }
  }

  /** However many workers interleave, they claim at most the attempts the RECEIVED jobs have left. */
  lemma ClaimsBounded(s: System, r: Run, late: real, keys: seq<string>)
    requires WorkerRun(s, r, late) && Covers(keys, r.worlds[0].rows)
    requires forall id :: id in r.worlds[0].rows ==> r.worlds[0].rows[id].status != Processing
    ensures Claims(r, |r.steps|) <= Attempts(s.config, r.worlds[0].rows, keys)
  {
    ClaimsAndWork(s, r, late, keys, |r.steps|);
    WorkIsAttempts(s.config, r.worlds[0].rows, keys);
  }

  /** And they are never stuck: an unfinished job is being worked on or can be claimed after a wait. */
  lemma NeverStuck(s: System, w: World, id: string, idle: string, files: Disk, env: Env)
    requires Inv(s, w) && Owned(w) && id in w.rows && idle !in w.procs
    ensures w.rows[id].status == Processing ==> Enabled(s, w, FinishProcess(w.rows[id].worker.value, files, env))
    ensures w.rows[id].status == Received ==>
      exists wait :: wait >= 0.0 && Enabled(s, Apply(s, w, Tick(wait)), Claim(idle, id))
  {
    if w.rows[id].status == Processing {
      assert OwnedRow(w, id);
    } else if w.rows[id].status == Received {
      var next := w.rows[id].nextAttempt;
      var wait := if next.Some? && next.value > w.now then next.value - w.now else 0.0;
      assert Enabled(s, Apply(s, w, Tick(wait)), Claim(idle, id));
    }
  }

  // ---------- The heartbeat thread ----------

  /** When the heartbeat wakes for the k-th time, the i-th wait being late[i] longer than its interval. */
  function WakeTime(leaseSeconds: real, start: real, late: seq<real>, k: nat): real
    requires k <= |late|
  {
    if k == 0 then start else WakeTime(leaseSeconds, start, late, k - 1) + Interval(leaseSeconds) + late[k - 1]
  }

  /** lease_heartbeat: waits and renews until the worker stops it or a renewal fails. */
  method Heartbeat(store: JobStore, id: string, worker: string, leaseSeconds: real, start: real, late: seq<real>)
    returns (renewals: nat)
    modifies store
    ensures renewals == if CanRenew(old(store.rows), id, worker) then |late| else 0
    ensures renewals == 0 ==> store.rows == old(store.rows)
    ensures renewals > 0 ==>
      store.rows == old(store.rows)[id :=
        old(store.rows)[id].(lease := Some(WakeTime(leaseSeconds, start, late, renewals) + leaseSeconds))]
  {
    var now := start;
    renewals := 0;
    while renewals < |late|
      invariant renewals <= |late| && now == WakeTime(leaseSeconds, start, late, renewals)
      invariant renewals == 0 ==> store.rows == old(store.rows)
      invariant renewals > 0 ==>
        && CanRenew(old(store.rows), id, worker)
        && store.rows == old(store.rows)[id := old(store.rows)[id].(lease := Some(now + leaseSeconds))]
    {
      now := now + Interval(leaseSeconds) + late[renewals];
      var renewed := store.RenewLease(id, worker, leaseSeconds, now);
      if !renewed { return; }
      renewals := renewals + 1;
    }
  }

  /**
   A lease outlives the wait for the next wake exactly when that wait is late by less than the lease
   exceeds the interval.
   */
  lemma LeasesOverlap(leaseSeconds: real, start: real, late: seq<real>, k: nat)
    requires k < |late|
    ensures WakeTime(leaseSeconds, start, late, 0) == start
    ensures WakeTime(leaseSeconds, start, late, k + 1) - WakeTime(leaseSeconds, start, late, k)
      == Interval(leaseSeconds) + late[k]
    ensures WakeTime(leaseSeconds, start, late, k + 1) < WakeTime(leaseSeconds, start, late, k) + leaseSeconds
      <==> late[k] < leaseSeconds - Interval(leaseSeconds)
  {
  }

  // ---------- Draining ----------

  ghost predicate Ready(c: Config, t: Table) {
    && Keyed(t)
    && forall id :: id in t ==> GoodJob(c, t[id]) && t[id].status != Processing
  }

  predicate Ended(j: Job) {
    j.status == Delivered || j.status == Quarantined || j.status == Failed
  }

  predicate AnyReceived(t: Table) {
    exists id :: id in t && t[id].status == Received
  }

  /** No RECEIVED job waits beyond the horizon. */
  ghost predicate DueBy(t: Table, horizon: real) {
    forall id :: id in t && t[id].nextAttempt.Some? ==> t[id].nextAttempt.value <= horizon
  }

  lemma {:induction false} HorizonExists(t: Table) returns (horizon: real)
    ensures DueBy(t, horizon)
  {
    if t == map[] { return 0.0; }
    var id :| id in t;
    var rest := map k | k in t && k != id :: t[k];
    assert |rest| < |t| by { assert rest.Keys == t.Keys - {id}; }
    var far := HorizonExists(rest);
    var next := t[id].nextAttempt;
    horizon := if next.Some? && next.value > far then next.value else far;
    forall k | k in t && t[k].nextAttempt.Some?
      ensures t[k].nextAttempt.value <= horizon
    {
      assert k == id || (k in rest && rest[k] == t[k]);
    }
  }

  /** How many more polls until the horizon. */
  function Polls(now: real, horizon: real, poll: real): nat
    requires poll > 0.0
  {
    if now > horizon then 0 else ((horizon - now) / poll).Floor + 1
  }

  lemma OneLess(x: real, poll: real)
    requires poll > 0.0
    ensures (x - poll) / poll == x / poll - 1.0
  {
    var d := x / poll - (x - poll) / poll - 1.0;
    assert d * poll == 0.0;
    assert d == d * poll / poll;
  }

  lemma PollCounts(now: real, horizon: real, poll: real)
    requires poll > 0.0 && now < horizon
    ensures Polls(now + poll, horizon, poll) < Polls(now, horizon, poll)
  {
    OneLess(horizon - now, poll);
    assert horizon - (now + poll) == horizon - now - poll;
    assert (horizon - now) / poll >= 0.0;
  }

  /** RECEIVED jobs may have ended, all others are as they were. */
  ghost predicate Draining(before: Table, t: Table) {
    && before.Keys == t.Keys
    && forall id :: id in before ==>
      if before[id].status == Received then Ended(t[id]) || t[id].status == Received else t[id] == before[id]
  }

  function Later(horizon: real, next: Option<real>): real {
    if next.Some? && next.value > horizon then next.value else horizon
  }

  /** One claimed attempt ends the job or leaves it one attempt less. */
  lemma AttemptWorks(c: Config, t: Table, id: string, worker: string, now: real, files: Disk, env: Env, end: real)
    requires Ready(c, t) && id in t && t[id].status == Received
    ensures var done := Processed(c, Claimed(t[id], worker, now, c.leaseSeconds), files, env, end).0;
      && done.id == id && GoodJob(c, done) && (Ended(done) || done.status == Received)
      && forall k :: Weight(c, t[id := done], k) + One(k == id) <= Weight(c, t, k)
  {
    var claimed := Claimed(t[id], worker, now, c.leaseSeconds);
    ProcessedGood(c, claimed, files, env, end);
    KeepsId(c, claimed, files, env);
  }

  lemma AttemptDrains(c: Config, before: Table, t: Table, done: Job, horizon: real)
    requires Ready(c, t) && Draining(before, t) && DueBy(t, horizon)
    requires done.id in t && t[done.id].status == Received && GoodJob(c, done)
    requires Ended(done) || done.status == Received
    ensures var after := t[done.id := done];
      Ready(c, after) && Draining(before, after) && DueBy(after, Later(horizon, done.nextAttempt))
  {
  }

  /** One turn of the worker loop: claim the oldest due job and process it, or find none. */
  method Turn(
      pipeline: DocumentPipeline, worker: string, now: real, env: Env, end: real, ghost keys: seq<string>)
      returns (r: Option<Job>)
    requires Ready(pipeline.config, pipeline.store.rows) && Covers(keys, pipeline.store.rows)
    modifies pipeline, pipeline.store
    ensures r == None ==>
      && pipeline.store.rows == old(pipeline.store.rows)
      && forall id :: id in pipeline.store.rows ==> !IsDue(pipeline.store.rows[id], now)
    ensures r.Some? ==>
      && r.value.id in old(pipeline.store.rows) && old(pipeline.store.rows)[r.value.id].status == Received
      && GoodJob(pipeline.config, r.value) && (Ended(r.value) || r.value.status == Received)
      && pipeline.store.rows == old(pipeline.store.rows)[r.value.id := r.value]
      && Work(pipeline.config, pipeline.store.rows, keys) < Work(pipeline.config, old(pipeline.store.rows), keys)
  {
    var c, store := pipeline.config, pipeline.store;
    ghost var table := store.rows;
    var job := store.ClaimNext(worker, c.leaseSeconds, now, {});
    if job == None { return None; }
    AttemptWorks(c, table, job.value.id, worker, now, pipeline.files, env, end);
    var done := pipeline.Process(job.value, env, end);
    assert store.rows == table[done.id := done];
    WorkFalls(c, table, store.rows, keys);
    r := Some(done);
  }

  /**
   The worker loop with its clock, until no job is RECEIVED: answers(k) is what the steps of
   the k-th attempt answer and how long it takes. keys lists all jobs.
   */
  method Drain(
      pipeline: DocumentPipeline, worker: string, start: real, poll: real, answers: nat -> (Env, real),
      ghost keys: seq<string>)
    returns (claims: nat)
    requires Ready(pipeline.config, pipeline.store.rows) && poll > 0.0
    requires Covers(keys, pipeline.store.rows)
    modifies pipeline, pipeline.store
    ensures Draining(old(pipeline.store.rows), pipeline.store.rows)
    ensures forall id :: id in pipeline.store.rows ==> pipeline.store.rows[id].status != Received
    ensures claims <= Attempts(pipeline.config, old(pipeline.store.rows), keys)
  {
    var c, store, now := pipeline.config, pipeline.store, start;
    claims := 0;
    ghost var horizon := HorizonExists(store.rows);
    ghost var before := store.rows;
    WorkIsAttempts(c, before, keys);
    while AnyReceived(store.rows)
      invariant Ready(c, store.rows) && Draining(before, store.rows) && DueBy(store.rows, horizon)
      invariant claims + Work(c, store.rows, keys) <= Work(c, before, keys)
      decreases Work(c, store.rows, keys), Polls(now, horizon, poll)
    {
      ghost var table := store.rows;
      var (env, took) := answers(claims);
      var done := Turn(pipeline, worker, now, env, now + took, keys);
      if done == None {
        PollCounts(now, horizon, poll);
        now := now + poll;
      } else {
        AttemptDrains(c, before, table, done.value, horizon);
        horizon := Later(horizon, done.value.nextAttempt);
        claims := claims + 1;
        now := now + took;
      }
    }
  }
}
