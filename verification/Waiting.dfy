/**
 How long a failed job waits (the except block of process, claim_next): exponential backoff
 over all its claims, and the connector's Retry-After between two of them. Other jobs, reviews,
 releases and deletions may interleave; nobody crashes and nobody retries jobs by hand.
 */
module Waiting {
  import opened Wrappers
  import opened Jobs
  import opened Pipeline
  import opened Concurrency
  import opened Leases
  import opened Queue

  predicate ClaimsJob(step: Step, id: string) {
    step.Claim? && step.id == id
  }

  predicate FinishesJob(w: World, step: Step, id: string) {
    step.FinishProcess? && step.p in w.procs && w.procs[step.p].job.id == id
  }

  predicate SameWait(a: Job, b: Job) {
    a.status == b.status && a.attempts == b.attempts && a.nextAttempt == b.nextAttempt
  }

  /**
   Without a claim, a worker's save or a manual retry, a queued or held row keeps its attempts and its
   waiting time.
   */
  lemma OthersKeepWaiting(s: System, w: World, step: Step, id: string)
    requires GoodProcs(s, w) && Enabled(s, w, step) && id in w.used
    requires !ClaimsJob(step, id) && !FinishesJob(w, step, id) && !step.Retry?
    requires id in Rows(s, w, step) && Rows(s, w, step)[id].status in {Received, Processing}
    ensures id in w.rows && SameWait(w.rows[id], Rows(s, w, step)[id])
  {
    SavedGood(s, w, step);
  }

  // ---------- Requests stay behind ----------

  /** A request under way is about a job that is past its queue. */
  ghost predicate RequestsBehind(w: World) {
    forall p :: p in w.procs && !w.procs[p].Working? && w.procs[p].job.id in w.rows ==>
      w.rows[w.procs[p].job.id].status !in {Received, Processing}
  }

  /** A request writes no row in work while all requests are behind. */
  lemma BehindUndisturbed(s: System, w: World, step: Step)
    requires Enabled(s, w, step) && RequestsBehind(w) && AllHold(s, w) && GoodProcs(s, w)
    ensures !Disturbs(s, w, step)
  {
    forall p | p in w.procs && w.procs[p].Working? && w.procs[p].job.id in w.rows
      ensures w.rows[w.procs[p].job.id].status == Processing
    {
      assert Holds(s, w, p);
    }
  }

  /** The step starts a request, about a job past its queue. */
  predicate StartsRequest(w: World, step: Step, p: string, id: string) {
    && (step.BeginReview? || step.BeginRelease?) && step.p == p && step.id == id
    && id in w.rows && w.rows[id].status !in {Received, Processing}
  }

  lemma RequestBefore(s: System, w: World, step: Step, p: string)
    requires Inv(s, w) && Enabled(s, w, step) && p in Procs(s, w, step) && !Procs(s, w, step)[p].Working?
    ensures var id := Procs(s, w, step)[p].job.id;
      && id in w.used
      && ((p in w.procs && !w.procs[p].Working? && w.procs[p].job.id == id) || StartsRequest(w, step, p, id))
  {
  }

  /** Without manual retries no request comes to be about a queued job: such a row never gets queued again. */
  lemma StepKeepsBehind(s: System, w: World, step: Step)
    requires Inv(s, w) && Enabled(s, w, step) && AllHold(s, w) && RequestsBehind(w) && !step.Retry?
    ensures RequestsBehind(Apply(s, w, step))
  {
    var after := Apply(s, w, step);
    forall p | p in after.procs && !after.procs[p].Working? && after.procs[p].job.id in after.rows
      ensures after.rows[after.procs[p].job.id].status !in {Received, Processing}
    {
      RequestBefore(s, w, step, p);
      BehindRowKept(s, w, step, after.procs[p].job.id);
    }
  }

  lemma BehindRowKept(s: System, w: World, step: Step, id: string)
    requires Inv(s, w) && Enabled(s, w, step) && AllHold(s, w) && !step.Retry? && id in w.used
    requires id in w.rows ==> w.rows[id].status !in {Received, Processing}
    ensures id in Rows(s, w, step) ==> Rows(s, w, step)[id].status !in {Received, Processing}
  {
    if step.FinishProcess? {
      assert Holds(s, w, step.p);
    }
    if id in Rows(s, w, step) && Rows(s, w, step)[id].status in {Received, Processing} && !FinishesJob(w, step, id)
      && !ClaimsJob(step, id) {
      OthersKeepWaiting(s, w, step, id);
    }
  }

  ghost predicate NoRetries(r: Run) {
    forall i :: 0 <= i < |r.steps| ==> !r.steps[i].Retry?
  }

  /** Nobody crashes or retries jobs by hand, and every heartbeat is punctual. */
  ghost predicate Patient(s: System, r: Run, late: real) {
    && s.config.maxAttempts >= 1 && IsRun(s, r) && Punctual(s, r, late) && NoRetries(r)
    && Inv(s, r.worlds[0]) && AllHold(s, r.worlds[0]) && Owned(r.worlds[0]) && RequestsBehind(r.worlds[0])
    && forall i :: 0 <= i < |r.steps| ==> !r.steps[i].Crash?
  }

  lemma {:induction false} PatientStays(s: System, r: Run, late: real, i: nat)
    requires Patient(s, r, late) && i < |r.worlds|
    ensures var w := r.worlds[i]; Inv(s, w) && AllHold(s, w) && RequestsBehind(w)
  {
    if i > 0 {
      var w, step := r.worlds[i - 1], r.steps[i - 1];
      PatientStays(s, r, late, i - 1);
      assert StepAt(s, r, i - 1) && OnTime(s, w, late);
      BehindUndisturbed(s, w, step);
      StepKeeps(s, w, step);
      StepKeepsHolds(s, w, step);
      StepKeepsBehind(s, w, step);
    }
  }

  /** So no request ever writes over a job in work. */
  lemma PatientCrashless(s: System, r: Run, late: real)
    requires Patient(s, r, late)
    ensures Crashless(s, r, late)
  {
    forall i: nat | i < |r.steps|
      ensures !Disturbs(s, r.worlds[i], r.steps[i])
    {
      PatientStays(s, r, late, i);
      assert StepAt(s, r, i);
      BehindUndisturbed(s, r.worlds[i], r.steps[i]);
    }
  }

  // ---------- Exponential backoff ----------

  /** The least time from the first claim to the n-th. */
  function Span(c: Config, n: nat): real
    requires n >= 1
  {
    (c.retryBase * (Pow2(n - 1) - 1)) as real
  }

  lemma SpanGrows(c: Config, n: nat)
    requires n >= 1
    ensures Span(c, n + 1) == Span(c, n) + Backoff(c.retryBase, n)
  {
  }

  /** claims counts the claims so far, the first of which happened at first. */
  predicate Waited(c: Config, w: World, id: string, first: real, claims: nat) {
    && id in w.used && claims >= 1
    && (id in w.rows ==>
      var job := w.rows[id];
      && (job.status in {Received, Processing} ==> job.attempts == claims)
      && (job.status == Processing ==> w.now >= first + Span(c, claims))
      && (job.status == Received ==> job.nextAttempt.Some? && job.nextAttempt.value >= first + Span(c, claims + 1)))
  }

  lemma RetryWaits(c: Config, job: Job, files: Disk, env: Env, now: real)
    requires job.status == Processing
    ensures var done := Processed(c, job, files, env, now).0;
      && (done.status == Received ==>
        && done.attempts == job.attempts
        && done.nextAttempt.Some? && done.nextAttempt.value >= now + Backoff(c.retryBase, job.attempts))
  {
    KeepsId(c, job, files, env);
  }

  /** A waiting job is claimed when its time has come. */
  lemma ClaimWaits(s: System, w: World, step: Step, id: string, first: real, claims: nat)
    requires Enabled(s, w, step) && AllHold(s, w) && Fresh(s, w) && Owned(w) && ClaimsJob(step, id)
    requires Waited(s.config, w, id, first, claims)
    ensures w.rows[id].status == Received && w.now >= first + Span(s.config, claims + 1)
  {
    ClaimsReceived(s, w, step.p, id);
  }

  lemma StepKeepsWaited(s: System, w: World, step: Step, id: string, first: real, claims: nat)
    requires Inv(s, w) && Enabled(s, w, step) && AllHold(s, w) && Fresh(s, w) && Owned(w) && !step.Retry?
    requires Waited(s.config, w, id, first, claims)
    ensures Waited(s.config, Apply(s, w, step), id, first, claims + One(ClaimsJob(step, id)))
  {
    if ClaimsJob(step, id) {
      ClaimWaits(s, w, step, id, first, claims);
    } else if FinishesJob(w, step, id) {
      assert Holds(s, w, step.p);
      ProcessedGood(s.config, w.procs[step.p].job, step.files, step.env, w.now);
      RetryWaits(s.config, w.procs[step.p].job, step.files, step.env, w.now);
      SpanGrows(s.config, claims);
    } else if id in Rows(s, w, step) && Rows(s, w, step)[id].status in {Received, Processing} {
      OthersKeepWaiting(s, w, step, id);
    }
  }

  ghost function ClaimsOf(r: Run, id: string, i: nat, n: nat): nat
    requires i <= n <= |r.steps|
  {
    if n == i then 0 else ClaimsOf(r, id, i, n - 1) + One(ClaimsJob(r.steps[n - 1], id))
  }

  lemma FirstClaimWaits(s: System, w: World, step: Step, id: string)
    requires Inv(s, w) && Enabled(s, w, step) && ClaimsJob(step, id) && w.rows[id].attempts == 0
    ensures Waited(s.config, Apply(s, w, step), id, w.now, 1)
  {
  }

  lemma {:induction false} WaitedStays(s: System, r: Run, late: real, id: string, i: nat, n: nat)
    requires Crashless(s, r, late) && NoRetries(r) && i < n <= |r.steps|
    requires ClaimsJob(r.steps[i], id) && id in r.worlds[i].rows && r.worlds[i].rows[id].attempts == 0
    ensures Waited(s.config, r.worlds[n], id, r.worlds[i].now, ClaimsOf(r, id, i, n))
  {
    OwnedStays(s, r, late, n - 1);
    assert StepAt(s, r, n - 1);
    if n == i + 1 {
      FirstClaimWaits(s, r.worlds[i], r.steps[i], id);
    } else {
      WaitedStays(s, r, late, id, i, n - 1);
      StepKeepsWaited(s, r.worlds[n - 1], r.steps[n - 1], id, r.worlds[i].now, ClaimsOf(r, id, i, n - 1));
    }
  }

  lemma LaterClaimWaits(s: System, r: Run, late: real, id: string, i: nat, j: nat)
    requires Crashless(s, r, late) && NoRetries(r) && i < j < |r.steps|
    requires ClaimsJob(r.steps[i], id) && id in r.worlds[i].rows && r.worlds[i].rows[id].attempts == 0
    requires ClaimsJob(r.steps[j], id)
    ensures var claims := ClaimsOf(r, id, i, j);
      claims >= 1 && r.worlds[j].now >= r.worlds[i].now + Span(s.config, claims + 1)
  {
    WaitedStays(s, r, late, id, i, j);
    OwnedStays(s, r, late, j);
    assert StepAt(s, r, j);
    ClaimWaits(s, r.worlds[j], r.steps[j], id, r.worlds[i].now, ClaimsOf(r, id, i, j));
  }

  /** The n-th claim comes at least base * (2^(n-1) - 1) seconds after the first. */
  lemma BackoffBound(s: System, r: Run, late: real, id: string, i: nat, j: nat)
    requires Patient(s, r, late) && i < j < |r.steps|
    requires ClaimsJob(r.steps[i], id) && id in r.worlds[i].rows && r.worlds[i].rows[id].attempts == 0
    requires ClaimsJob(r.steps[j], id)
    ensures var n := ClaimsOf(r, id, i, j + 1);
      n >= 2 && r.worlds[j].now >= r.worlds[i].now + Span(s.config, n)
  {
    PatientCrashless(s, r, late);
    LaterClaimWaits(s, r, late, id, i, j);
  }

  // ---------- Retry-After ----------

  predicate WaitsUntil(w: World, id: string, at: real) {
    && id in w.used
    && (id in w.rows ==>
      w.rows[id].status != Processing && (w.rows[id].status == Received ==> w.rows[id].nextAttempt == Some(at)))
  }

  lemma StepKeepsWaiting(s: System, w: World, step: Step, id: string, at: real)
    requires Inv(s, w) && Enabled(s, w, step) && AllHold(s, w) && !step.Retry? && !ClaimsJob(step, id)
    requires WaitsUntil(w, id, at)
    ensures WaitsUntil(Apply(s, w, step), id, at)
  {
    if FinishesJob(w, step, id) {
      assert Holds(s, w, step.p);
    } else if id in Rows(s, w, step) && Rows(s, w, step)[id].status in {Received, Processing} {
      OthersKeepWaiting(s, w, step, id);
    }
  }

  lemma {:induction false} WaitingStays(s: System, r: Run, late: real, id: string, at: real, i: nat, n: nat)
    requires Crashless(s, r, late) && NoRetries(r) && i <= n <= |r.steps|
    requires WaitsUntil(r.worlds[i], id, at) && ClaimsOf(r, id, i, n) == 0
    ensures WaitsUntil(r.worlds[n], id, at)
  {
    if i < n {
      WaitingStays(s, r, late, id, at, i, n - 1);
      OwnedStays(s, r, late, n - 1);
      assert StepAt(s, r, n - 1);
      StepKeepsWaiting(s, r.worlds[n - 1], r.steps[n - 1], id, at);
    }
  }

  /** What made this attempt fail. */
  function Raised(c: Config, job: Job, step: Step): Option<Failure>
    requires step.FinishProcess?
  {
    TrySteps(c, job, step.files, step.env).raised
  }

  /** After a failed attempt the next claim waits the backoff and, if the connector asked for one, its Retry-After. */
  lemma RetryAfterRespected(s: System, r: Run, late: real, id: string, i: nat, j: nat, e: Failure)
    requires Patient(s, r, late) && i < j < |r.steps|
    requires FinishesJob(r.worlds[i], r.steps[i], id)
    requires Raised(s.config, r.worlds[i].procs[r.steps[i].p].job, r.steps[i]) == Some(e)
    requires ClaimsOf(r, id, i + 1, j) == 0 && ClaimsJob(r.steps[j], id)
    ensures var attempts := r.worlds[i].procs[r.steps[i].p].job.attempts;
      r.worlds[j].now >= r.worlds[i].now + Backoff(s.config.retryBase, attempts)
    ensures e.kind.Temporary? && e.kind.retryAfter.Some? ==>
      r.worlds[j].now >= r.worlds[i].now + e.kind.retryAfter.value as real
  {
    PatientCrashless(s, r, late);
    var w, step := r.worlds[i], r.steps[i];
    var job := w.procs[step.p].job;
    var at := w.now + RetryDelay(s.config, job.attempts, e.kind);
    OwnedStays(s, r, late, i);
    assert StepAt(s, r, i);
    FailedWaits(s, w, step, id, e, at);
    WaitingStays(s, r, late, id, at, i + 1, j);
    OwnedStays(s, r, late, j);
    assert StepAt(s, r, j);
    ClaimsReceived(s, r.worlds[j], r.steps[j].p, id);
  }

  lemma FailedWaits(s: System, w: World, step: Step, id: string, e: Failure, at: real)
    requires Inv(s, w) && AllHold(s, w) && Enabled(s, w, step) && FinishesJob(w, step, id)
    requires var job := w.procs[step.p].job;
      Raised(s.config, job, step) == Some(e) && at == w.now + RetryDelay(s.config, job.attempts, e.kind)
    ensures WaitsUntil(Apply(s, w, step), id, at)
  {
    KeepsId(s.config, w.procs[step.p].job, step.files, step.env);
  }
}
