/**
 Why requests must not write over a job in work (review and release in pipeline.py, save in
 store.py): after such a write, punctual heartbeats or not, the job can be given to a second
 worker. Together with module Leases this says exactly which steps endanger exclusivity.
 */
module Thefts {
  import opened Wrappers
  import opened Jobs
  import opened Pipeline
  import opened Concurrency
  import opened Leases

  // ---------- Runs built step by step ----------

  /** w with one row rewritten and other processes. */
  function With(w: World, row: Job, procs: map<string, Proc>): World {
    w.(rows := w.rows[row.id := row], procs := procs)
  }

  lemma StepMatches(s: System, r: Run, k: nat)
    requires k < |r.steps| && |r.worlds| == |r.steps| + 1 && Enabled(s, r.worlds[k], r.steps[k])
    requires !r.steps[k].Tick? && !r.steps[k].Ingest? && r.worlds[k + 1].now == r.worlds[k].now
    requires r.worlds[k + 1].used == r.worlds[k].used
    requires Rows(s, r.worlds[k], r.steps[k]) == r.worlds[k + 1].rows
    requires Procs(s, r.worlds[k], r.steps[k]) == r.worlds[k + 1].procs
    ensures StepAt(s, r, k)
  {
  }

  function Then(a: Run, step: Step, b: Run): Run {
    Run(a.worlds + b.worlds, a.steps + [step] + b.steps)
  }

  lemma ThenIsRun(s: System, a: Run, step: Step, b: Run)
    requires IsRun(s, a) && IsRun(s, b)
    requires var last := a.worlds[|a.steps|]; Enabled(s, last, step) && b.worlds[0] == Apply(s, last, step)
    ensures IsRun(s, Then(a, step, b))
  {
    var r, n := Then(a, step, b), |a.steps|;
    forall i: nat | i < |r.steps|
      ensures StepAt(s, r, i)
    {
      if i < n {
        assert StepAt(s, a, i);
      } else if i > n {
        assert StepAt(s, b, i - n - 1);
        assert r.steps[i] == b.steps[i - n - 1] && r.worlds[i] == b.worlds[i - n - 1]
          && r.worlds[i + 1] == b.worlds[i - n];
      }
    }
  }

  /**
   v differs from w in one existing row, on which no process of w has gained a lease, and in
   processes that came in at this very moment.
   */
  ghost predicate Beside(w: World, v: World, id: string) {
    && v.now == w.now && v.used == w.used && v.rows.Keys == w.rows.Keys
    && (forall k :: k in w.rows && k != id ==> v.rows[k] == w.rows[k])
    && (forall q :: q in w.procs && CanRenew(v.rows, id, q) ==> CanRenew(w.rows, id, q))
    && (forall q :: q in w.procs ==> q in v.procs && v.procs[q] == w.procs[q])
    && (forall q :: q in v.procs && v.procs[q].Working? && q !in w.procs ==> v.procs[q].renewed == v.now)
  }

  lemma WithBeside(w: World, row: Job, b: string, proc: Proc)
    requires row.id in w.rows && b !in w.procs && (proc.Working? ==> proc.renewed == w.now)
    requires row.status == Processing ==> row.worker == Some(b)
    ensures Beside(w, w, row.id)
    ensures Beside(w, With(w, row, w.procs), row.id) && Beside(w, With(w, row, w.procs[b := proc]), row.id)
  {
    assert With(w, row, w.procs).rows.Keys == w.rows.Keys;
  }

  lemma BesideOnTime(s: System, w: World, v: World, id: string, late: real)
    requires Beside(w, v, id) && OnTime(s, w, late) && late >= 0.0
    ensures OnTime(s, v, late)
  {
    forall q | q in v.procs && v.procs[q].Working? && CanRenew(v.rows, v.procs[q].job.id, q)
      ensures v.now <= v.procs[q].renewed + Interval(s.config.leaseSeconds) + late
    {
      if q in w.procs { assert v.procs[q] == w.procs[q]; }
    }
  }

  /** The row of the job is up for grabs, and the step writes no other row. */
  ghost predicate Open(s: System, w: World, step: Step, id: string) {
    && id in w.rows && w.rows[id].status != Processing && w.rows[id].status != Delivered
    && Enabled(s, w, step) && (Saved(s, w, step).Some? ==> Saved(s, w, step).value.id == id)
  }

  lemma OpenHarmless(s: System, w: World, step: Step, id: string)
    requires Open(s, w, step, id)
    ensures !Harms(s, w, step)
  {
  }

  /** A run that starts in w, only touches the job's open row, and ends in a claim of it by a new worker. */
  ghost predicate Takes(s: System, w: World, id: string, r: Run) {
    && IsRun(s, r) && |r.steps| >= 1 && r.worlds[0] == w
    && r.steps[|r.steps| - 1].Claim? && r.steps[|r.steps| - 1].id == id
    && (forall k :: 0 <= k < |r.worlds| ==> Beside(w, r.worlds[k], id))
    && (forall k :: 0 <= k < |r.steps| ==> Open(s, r.worlds[k], r.steps[k], id))
  }

  // ---------- From a FAILED row ----------

  function Retried(job: Job): Job {
    job.(status := Received, attempts := 0, nextAttempt := None, lease := None, worker := None, lastError := None)
  }

  function RetryRun(s: System, w: World, job: Job, worker: string): Run {
    var claimed := Claimed(Retried(job), worker, w.now, s.config.leaseSeconds);
    Run([w, With(w, Retried(job), w.procs), With(w, claimed, w.procs[worker := Working(claimed, w.now)])],
        [Retry(job.id), Claim(worker, job.id)])
  }

  lemma RetrySteps(s: System, w: World, job: Job, worker: string, k: nat)
    requires job.id in w.rows && w.rows[job.id] == job && job.status == Failed && worker !in w.procs && k < 2
    ensures StepAt(s, RetryRun(s, w, job, worker), k)
    ensures Open(s, RetryRun(s, w, job, worker).worlds[k], RetryRun(s, w, job, worker).steps[k], job.id)
  {
    StepMatches(s, RetryRun(s, w, job, worker), k);
  }

  lemma RetryTakes(s: System, w: World, job: Job, worker: string)
    requires job.id in w.rows && w.rows[job.id] == job && job.status == Failed && worker !in w.procs
    ensures Takes(s, w, job.id, RetryRun(s, w, job, worker))
  {
    var r := RetryRun(s, w, job, worker);
    var claimed := Claimed(Retried(job), worker, w.now, s.config.leaseSeconds);
    forall k: nat | k < 2
      ensures StepAt(s, r, k) && Open(s, r.worlds[k], r.steps[k], job.id)
    {
      RetrySteps(s, w, job, worker, k);
    }
    WithBeside(w, Retried(job), worker, Working(claimed, w.now));
    WithBeside(w, claimed, worker, Working(claimed, w.now));
  }

  // ---------- From a QUARANTINED row that passes the rules ----------

  ghost predicate Releasable(s: System, w: World, job: Job) {
    job.id in w.rows && w.rows[job.id] == job && job.status == Quarantined && RuleErrors(s.config, job) == []
  }

  function Checked(job: Job): Job {
    job.(errors := [], status := Delivering)
  }

  /** Process b releases the job and the delivery fails. */
  function FailingRelease(w: World, job: Job, e: Failure, b: string): Run {
    var c, procs := Checked(job), w.procs;
    Run(
      [w, With(w, job, procs[b := Releasing(job)]), With(w, c.(errors := job.errors), procs[b := DeliveryClaimed(c)]),
       With(w, c.(errors := job.errors), procs[b := Called(c, Err(e))]), With(w, ReleaseFailed(c, e), procs)],
      [BeginRelease(b, job.id), ClaimRelease(b), CallConnector(b, Err(e)), FinishRelease(b, map[], false)])
  }

  lemma ReleaseSteps(s: System, w: World, job: Job, e: Failure, b: string, k: nat)
    requires Releasable(s, w, job) && b !in w.procs && k < 2
    ensures StepAt(s, FailingRelease(w, job, e, b), k)
  {
    StepMatches(s, FailingRelease(w, job, e, b), k);
  }

  lemma FailSteps(s: System, w: World, job: Job, e: Failure, b: string, k: nat)
    requires Releasable(s, w, job) && b !in w.procs && 2 <= k < 4
    ensures StepAt(s, FailingRelease(w, job, e, b), k)
  {
    StepMatches(s, FailingRelease(w, job, e, b), k);
  }

  lemma ReleaseBeside(s: System, w: World, job: Job, e: Failure, b: string, k: nat)
    requires Releasable(s, w, job) && b !in w.procs && k < 5
    ensures Beside(w, FailingRelease(w, job, e, b).worlds[k], job.id)
  {
    var c := Checked(job);
    WithBeside(w, job, b, Releasing(job));
    WithBeside(w, c.(errors := job.errors), b, DeliveryClaimed(c));
    WithBeside(w, c.(errors := job.errors), b, Called(c, Err(e)));
    WithBeside(w, ReleaseFailed(c, e), b, Releasing(job));
  }

  lemma ReleaseOpen(s: System, w: World, job: Job, e: Failure, b: string, k: nat)
    requires Releasable(s, w, job) && b !in w.procs && k < 4
    requires Enabled(s, FailingRelease(w, job, e, b).worlds[k], FailingRelease(w, job, e, b).steps[k])
    ensures Open(s, FailingRelease(w, job, e, b).worlds[k], FailingRelease(w, job, e, b).steps[k], job.id)
  {
  }

  lemma FailingReleaseRuns(s: System, w: World, job: Job, e: Failure, b: string) returns (r: Run)
    requires Releasable(s, w, job) && b !in w.procs
    ensures r == FailingRelease(w, job, e, b) && IsRun(s, r)
    ensures forall k :: 0 <= k < 5 ==> Beside(w, r.worlds[k], job.id)
    ensures forall k :: 0 <= k < 4 ==> Open(s, r.worlds[k], r.steps[k], job.id)
  {
    r := FailingRelease(w, job, e, b);
    forall k: nat | k < 4
      ensures StepAt(s, r, k) && Open(s, r.worlds[k], r.steps[k], job.id)
    {
      if k < 2 { ReleaseSteps(s, w, job, e, b, k); } else { FailSteps(s, w, job, e, b, k); }
      ReleaseOpen(s, w, job, e, b, k);
    }
    forall k: nat | k < 5
      ensures Beside(w, r.worlds[k], job.id)
    {
      ReleaseBeside(s, w, job, e, b, k);
    }
  }

  // ---------- Joining runs ----------

  lemma BesideTransitive(w: World, v: World, u: World, id: string)
    requires Beside(w, v, id) && Beside(v, u, id)
    ensures Beside(w, u, id)
  {
  }

  /** Any steps on the open row, before a run that takes the job. */
  ghost predicate Opens(s: System, w: World, id: string, a: Run) {
    && IsRun(s, a) && |a.steps| >= 1 && a.worlds[0] == w
    && (forall k :: 0 <= k < |a.worlds| ==> Beside(w, a.worlds[k], id))
    && (forall k :: 0 <= k < |a.steps| ==> Open(s, a.worlds[k], a.steps[k], id))
  }

  /** a, then b from where a ends. */
  function Join(a: Run, b: Run): Run
    requires |a.steps| >= 1 && |a.worlds| == |a.steps| + 1
  {
    Run(a.worlds[..|a.steps|] + b.worlds, a.steps + b.steps)
  }

  lemma JoinIsRun(s: System, a: Run, b: Run)
    requires IsRun(s, a) && |a.steps| >= 1 && IsRun(s, b) && b.worlds[0] == a.worlds[|a.steps|]
    ensures IsRun(s, Join(a, b))
  {
    var r, n := Join(a, b), |a.steps|;
    forall i: nat | i < |r.steps|
      ensures StepAt(s, r, i)
    {
      if i < n {
        assert StepAt(s, a, i);
        assert r.worlds[i] == a.worlds[i] && r.worlds[i + 1] == a.worlds[i + 1] && r.steps[i] == a.steps[i];
      } else {
        assert StepAt(s, b, i - n);
        assert r.worlds[i] == b.worlds[i - n] && r.worlds[i + 1] == b.worlds[i - n + 1] && r.steps[i] == b.steps[i - n];
      }
    }
  }

  lemma JoinBeside(s: System, w: World, id: string, a: Run, b: Run, k: nat)
    requires Opens(s, w, id, a) && Takes(s, a.worlds[|a.steps|], id, b) && k < |a.steps| + |b.worlds|
    ensures Beside(w, Join(a, b).worlds[k], id)
  {
    var n := |a.steps|;
    if k >= n {
      BesideTransitive(w, a.worlds[n], b.worlds[k - n], id);
      assert Join(a, b).worlds[k] == b.worlds[k - n];
    } else {
      assert Join(a, b).worlds[k] == a.worlds[k];
    }
  }

  lemma JoinOpen(s: System, w: World, id: string, a: Run, b: Run, k: nat)
    requires Opens(s, w, id, a) && Takes(s, a.worlds[|a.steps|], id, b) && k < |a.steps| + |b.steps|
    ensures Open(s, Join(a, b).worlds[k], Join(a, b).steps[k], id)
  {
    var n, r := |a.steps|, Join(a, b);
    if k >= n {
      assert Open(s, b.worlds[k - n], b.steps[k - n], id);
      assert r.worlds[k] == b.worlds[k - n] && r.steps[k] == b.steps[k - n];
    } else {
      assert Open(s, a.worlds[k], a.steps[k], id);
      assert r.worlds[k] == a.worlds[k] && r.steps[k] == a.steps[k];
    }
  }

  lemma JoinTakes(s: System, w: World, id: string, a: Run, b: Run)
    requires Opens(s, w, id, a) && Takes(s, a.worlds[|a.steps|], id, b)
    ensures Takes(s, w, id, Join(a, b))
  {
    var r := Join(a, b);
    JoinIsRun(s, a, b);
    forall k: nat | k < |r.worlds|
      ensures Beside(w, r.worlds[k], id)
    {
      JoinBeside(s, w, id, a, b, k);
    }
    forall k: nat | k < |r.steps|
      ensures Open(s, r.worlds[k], r.steps[k], id)
    {
      JoinOpen(s, w, id, a, b, k);
    }
  }

  lemma ReleasableTakes(s: System, w: World, job: Job, e: Failure, b: string) returns (r: Run)
    requires Releasable(s, w, job) && b !in w.procs
    ensures Takes(s, w, job.id, r)
  {
    var a := FailingReleaseRuns(s, w, job, e, b);
    var failed := ReleaseFailed(Checked(job), e);
    RetryTakes(s, With(w, failed, w.procs), failed, b);
    r := Join(a, RetryRun(s, With(w, failed, w.procs), failed, b));
    JoinTakes(s, w, job.id, a, RetryRun(s, With(w, failed, w.procs), failed, b));
  }

  // ---------- From any QUARANTINED row ----------

  /** A review that satisfies every rule. */
  const FIXING := Review(Some("x"), Some("x"), None)

  function Fixed(job: Job): Job {
    job.(documentType := "x", routing := Some("x"))
  }

  function ReviewRun(w: World, job: Job, b: string): Run {
    Run(
      [w, With(w, job, w.procs[b := Reviewing(job)]), With(w, Fixed(job), w.procs)],
      [BeginReview(b, job.id), FinishReview(b, FIXING)])
  }

  lemma ReviewSteps(s: System, w: World, job: Job, b: string, k: nat)
    requires job.id in w.rows && w.rows[job.id] == job && job.status == Quarantined && b !in w.procs && k < 2
    ensures StepAt(s, ReviewRun(w, job, b), k)
    ensures Open(s, ReviewRun(w, job, b).worlds[k], ReviewRun(w, job, b).steps[k], job.id)
  {
    StepMatches(s, ReviewRun(w, job, b), k);
  }

  lemma ReviewOpens(s: System, w: World, job: Job, b: string)
    requires job.id in w.rows && w.rows[job.id] == job && job.status == Quarantined && b !in w.procs
    ensures Opens(s, w, job.id, ReviewRun(w, job, b))
  {
    var r := ReviewRun(w, job, b);
    forall k: nat | k < 2
      ensures StepAt(s, r, k) && Open(s, r.worlds[k], r.steps[k], job.id)
    {
      ReviewSteps(s, w, job, b, k);
    }
    WithBeside(w, job, b, Reviewing(job));
    WithBeside(w, Fixed(job), b, Reviewing(job));
  }

  lemma FixedReleasable(s: System, w: World, job: Job)
    requires job.id in w.rows && job.status == Quarantined
    ensures Releasable(s, With(w, Fixed(job), w.procs), Fixed(job))
  {
    assert |"x"| != |UNKNOWN|;
  }

  lemma QuarantinedTakes(s: System, w: World, job: Job, e: Failure, b: string) returns (r: Run)
    requires job.id in w.rows && w.rows[job.id] == job && job.status == Quarantined && b !in w.procs
    ensures Takes(s, w, job.id, r)
  {
    ReviewOpens(s, w, job, b);
    FixedReleasable(s, w, job);
    var rest := ReleasableTakes(s, With(w, Fixed(job), w.procs), Fixed(job), e, b);
    JoinTakes(s, w, job.id, ReviewRun(w, job, b), rest);
    r := Join(ReviewRun(w, job, b), rest);
  }

  // ---------- Exactly the harmful writes ----------

  lemma {:induction false} LongerName(names: set<string>) returns (name: string)
    ensures forall x :: x in names ==> |x| < |name|
  {
    if names == {} { return "x"; }
    var x :| x in names;
    name := LongerName(names - {x});
    if |name| <= |x| { name := x + "x"; }
  }

  /** What a request writes over a row: QUARANTINED, DELIVERED or FAILED. */
  lemma RequestWrites(s: System, w: World, step: Step)
    requires GoodProcs(s, w) && Enabled(s, w, step) && !step.FinishProcess? && Saved(s, w, step).Some?
    ensures Saved(s, w, step).value.status in {Quarantined, Delivered, Failed}
    ensures !step.Tick? && Apply(s, w, step).now == w.now
    ensures Apply(s, w, step).rows == SaveRow(w.rows, Saved(s, w, step).value)
    ensures forall p :: p in w.procs && w.procs[p].Working? ==>
      p in Procs(s, w, step) && Procs(s, w, step)[p] == w.procs[p]
    ensures forall p :: p in Procs(s, w, step) ==> p in w.procs && Procs(s, w, step)[p] == w.procs[p]
  {
  }

  /**
   A punctual run that begins with the step, writes nothing harmful after it, and ends by taking a job
   from its worker.
   */
  ghost predicate Theft(s: System, w: World, step: Step, late: real, r: Run) {
    && IsRun(s, r) && |r.steps| >= 1 && r.worlds[0] == w && r.steps[0] == step && Punctual(s, r, late)
    && (forall k :: 0 < k < |r.steps| ==> !Harms(s, r.worlds[k], r.steps[k]))
    && Steals(r.worlds[|r.steps| - 1], r.steps[|r.steps| - 1])
  }

  lemma HarmTakes(s: System, w: World, step: Step) returns (r: Run, id: string, p: string)
    requires Inv(s, w) && Harms(s, w, step)
    ensures Takes(s, Apply(s, w, step), id, r) && WorksOn(Apply(s, w, step), p, id)
  {
    RequestWrites(s, w, step);
    SavedGood(s, w, step);
    var after, job := Apply(s, w, step), Saved(s, w, step).value;
    id := job.id;
    p :| WorksOn(w, p, id) && Secure(s, w, p);
    var b := LongerName(after.procs.Keys);
    assert b !in after.procs;
    if job.status == Failed {
      RetryTakes(s, after, job, b);
      r := RetryRun(s, after, job, b);
    } else {
      r := QuarantinedTakes(s, after, job, FILE_MISSING, b);
    }
  }

  lemma RequestOnTime(s: System, w: World, step: Step, late: real)
    requires GoodProcs(s, w) && Harms(s, w, step) && OnTime(s, w, late)
    ensures OnTime(s, Apply(s, w, step), late)
  {
    RequestWrites(s, w, step);
  }

  ghost predicate AllOnTime(s: System, worlds: seq<World>, late: real) {
    forall i :: 0 <= i < |worlds| ==> OnTime(s, worlds[i], late)
  }

  lemma ThenOnTime(s: System, w: World, v: World, step: Step, late: real, rest: Run, id: string)
    requires OnTime(s, w, late) && OnTime(s, v, late) && 0.0 <= late
    requires forall k :: 0 <= k < |rest.worlds| ==> Beside(v, rest.worlds[k], id)
    ensures AllOnTime(s, Then(Run([w], []), step, rest).worlds, late)
  {
    var r := Then(Run([w], []), step, rest);
    forall i: nat | i < |r.worlds|
      ensures OnTime(s, r.worlds[i], late)
    {
      if i > 0 {
        assert r.worlds[i] == rest.worlds[i - 1];
        BesideOnTime(s, v, rest.worlds[i - 1], id, late);
      }
    }
  }

  lemma StaysHarmless(s: System, w: World, step: Step, rest: Run, id: string, k: nat)
    requires |rest.worlds| == |rest.steps| + 1 && 0 < k <= |rest.steps|
    requires Open(s, rest.worlds[k - 1], rest.steps[k - 1], id)
    ensures var r := Then(Run([w], []), step, rest); !Harms(s, r.worlds[k], r.steps[k])
  {
    var r := Then(Run([w], []), step, rest);
    OpenHarmless(s, rest.worlds[k - 1], rest.steps[k - 1], id);
    assert r.worlds[k] == rest.worlds[k - 1] && r.steps[k] == rest.steps[k - 1];
  }

  lemma EndsInTheft(w: World, step: Step, rest: Run, id: string, v: World, p: string)
    requires |rest.worlds| == |rest.steps| + 1 && |rest.steps| >= 1 && Beside(v, rest.worlds[|rest.steps| - 1], id)
    requires rest.steps[|rest.steps| - 1].Claim? && rest.steps[|rest.steps| - 1].id == id && WorksOn(v, p, id)
    ensures var r := Then(Run([w], []), step, rest); Steals(r.worlds[|r.steps| - 1], r.steps[|r.steps| - 1])
  {
    var r, n := Then(Run([w], []), step, rest), |rest.steps| - 1;
    assert r.worlds[n + 1] == rest.worlds[n] && r.steps[n + 1] == rest.steps[n];
    assert WorksOn(rest.worlds[n], p, id);
  }

  lemma TakesIsTheft(s: System, w: World, step: Step, late: real, rest: Run, id: string, p: string)
    requires GoodProcs(s, w) && Harms(s, w, step) && OnTime(s, w, late)
    requires 0.0 <= late < s.config.leaseSeconds - Interval(s.config.leaseSeconds)
    requires Takes(s, Apply(s, w, step), id, rest) && WorksOn(Apply(s, w, step), p, id)
    ensures Theft(s, w, step, late, Then(Run([w], []), step, rest))
  {
    var r, after := Then(Run([w], []), step, rest), Apply(s, w, step);
    ThenIsRun(s, Run([w], []), step, rest);
    RequestOnTime(s, w, step, late);
    ThenOnTime(s, w, after, step, late, rest, id);
    forall k: nat | 0 < k < |r.steps|
      ensures !Harms(s, r.worlds[k], r.steps[k])
    {
      StaysHarmless(s, w, step, rest, id, k);
    }
    EndsInTheft(w, step, rest, id, after, p);
  }

  lemma HarmIsTheft(s: System, w: World, step: Step, late: real) returns (r: Run)
    requires Inv(s, w) && Harms(s, w, step) && OnTime(s, w, late)
    requires 0.0 <= late < s.config.leaseSeconds - Interval(s.config.leaseSeconds)
    ensures Theft(s, w, step, late, r)
  {
    var rest, id, p := HarmTakes(s, w, step);
    TakesIsTheft(s, w, step, late, rest, id, p);
    r := Then(Run([w], []), step, rest);
  }

  /**
   With punctual heartbeats, a step of any process lets a second worker onto a job in work
   exactly when it is a request writing anything but DELIVERED over the row of such a job.
   */
  lemma TheftExactly(s: System, w: World, step: Step, late: real)
    requires s.config.maxAttempts >= 1 && Guarded(s, w) && Enabled(s, w, step)
    requires OnTime(s, w, late) && 0.0 <= late < s.config.leaseSeconds - Interval(s.config.leaseSeconds)
    ensures (exists r :: Theft(s, w, step, late, r)) <==> Harms(s, w, step)
  {
    if Harms(s, w, step) {
      var r := HarmIsTheft(s, w, step, late);
    } else {
      forall r
        ensures !Theft(s, w, step, late, r)
      {
        if IsRun(s, r) && |r.steps| >= 1 && r.worlds[0] == w && r.steps[0] == step && Punctual(s, r, late)
          && forall k :: 0 < k < |r.steps| ==> !Harms(s, r.worlds[k], r.steps[k])
        {
          NoHarmNoTheft(s, r, late, |r.steps| - 1);
        }
      }
    }
  }

  // ---------- A harmful write, reached from one quarantined job ----------

  const NO_CHANGE := Review(None, None, None)

  lemma ReviewBegins(s: System, w: World, job: Job)
    requires Releasable(s, w, job) && w.procs == map[]
    ensures Enabled(s, w, BeginReview("a", job.id))
    ensures Apply(s, w, BeginReview("a", job.id)) == With(w, job, map["a" := Reviewing(job)])
  {
    assert w.rows[job.id := job] == w.rows;
  }

  /** The run ends with the new worker holding the job. */
  lemma TakesHolds(s: System, w: World, id: string, r: Run) returns (p: string)
    requires s.config.maxAttempts >= 1 && Inv(s, w) && Takes(s, w, id, r)
    ensures var end := r.worlds[|r.steps|]; Inv(s, end) && id in end.rows && WorksOn(end, p, id) && Secure(s, end, p)
  {
    var n := |r.steps| - 1;
    p := r.steps[n].p;
    RowsStayGood(s, r, n);
    RowsStayGood(s, r, n + 1);
    assert StepAt(s, r, n);
    ClaimedSecure(s, r.worlds[n], r.steps[n]);
  }

  lemma StaleReviewHarms(s: System, w: World, job: Job, p: string)
    requires "a" in w.procs && w.procs["a"] == Reviewing(job) && job.status == Quarantined && job.id in w.rows
    requires WorksOn(w, p, job.id) && Secure(s, w, p)
    ensures Harms(s, w, FinishReview("a", NO_CHANGE))
  {
    assert Reviewed(job, NO_CHANGE) == Some(job);
  }

  lemma ThenEnds(w: World, step: Step, rest: Run)
    requires |rest.worlds| == |rest.steps| + 1
    ensures var r := Then(Run([w], []), step, rest);
      |r.steps| == |rest.steps| + 1 && r.worlds[0] == w && r.worlds[|r.steps|] == rest.worlds[|rest.steps|]
  {
  }

  lemma WithProcs(w: World, v: World, id: string, p: string)
    requires Beside(w, v, id) && p in w.procs
    ensures p in v.procs && v.procs[p] == w.procs[p]
  {
  }

  /** The job is released, fails, is retried and claimed while process a keeps the row it read for a review. */
  lemma StaleReviewArises(s: System, w: World, job: Job, e: Failure) returns (r: Run, p: string)
    requires s.config.maxAttempts >= 1 && Inv(s, w) && Releasable(s, w, job) && w.procs == map[]
    ensures IsRun(s, r) && |r.steps| >= 1 && r.worlds[0] == w && AllOnTime(s, r.worlds, 0.0)
    ensures var end := r.worlds[|r.steps|];
      && Inv(s, end) && job.id in end.rows && WorksOn(end, p, job.id) && Secure(s, end, p)
      && "a" in end.procs && end.procs["a"] == Reviewing(job)
  {
    ReviewBegins(s, w, job);
    var step, read := BeginReview("a", job.id), With(w, job, map["a" := Reviewing(job)]);
    StepKeeps(s, w, step);
    var first := ReleasableTakes(s, read, job, e, "b");
    p := TakesHolds(s, read, job.id, first);
    r := Then(Run([w], []), step, first);
    ThenIsRun(s, Run([w], []), step, first);
    ThenOnTime(s, w, read, step, 0.0, first, job.id);
    ThenEnds(w, step, first);
    WithProcs(read, first.worlds[|first.steps|], job.id, "a");
  }

  lemma JoinTheft(s: System, a: Run, step: Step, late: real, b: Run)
    requires IsRun(s, a) && |a.steps| >= 1 && AllOnTime(s, a.worlds, late)
    requires Theft(s, a.worlds[|a.steps|], step, late, b)
    ensures var r := Join(a, b);
      IsRun(s, r) && r.worlds[0] == a.worlds[0] && Punctual(s, r, late)
        && Steals(r.worlds[|r.steps| - 1], r.steps[|r.steps| - 1])
  {
    var r, n := Join(a, b), |a.steps|;
    JoinIsRun(s, a, b);
    forall i: nat | i < |r.worlds|
      ensures OnTime(s, r.worlds[i], late)
    {
      assert r.worlds[i] == if i < n then a.worlds[i] else b.worlds[i - n];
    }
  }

  /**
   Heartbeats on time are not enough. A review request reads the quarantined job; meanwhile the
   job is released, fails, is retried and claimed; the review then writes its old row back, and
   the job, released, failed and retried once more, is claimed again while its first worker works on it.
   */
  lemma StaleReviewBreaksExclusivity(s: System, w: World, job: Job, e: Failure) returns (r: Run)
    requires s.config.maxAttempts >= 1 && Inv(s, w) && Releasable(s, w, job) && w.procs == map[]
    requires s.config.leaseSeconds > 1.0
    ensures IsRun(s, r) && |r.steps| >= 1 && r.worlds[0] == w && Punctual(s, r, 0.0)
    ensures Steals(r.worlds[|r.steps| - 1], r.steps[|r.steps| - 1])
  {
    var first, p := StaleReviewArises(s, w, job, e);
    var end, step := first.worlds[|first.steps|], FinishReview("a", NO_CHANGE);
    StaleReviewHarms(s, end, job, p);
    RoomForLateness(s.config.leaseSeconds);
    var theft := HarmIsTheft(s, end, step, 0.0);
    r := Join(first, theft);
    JoinTheft(s, first, step, 0.0, theft);
  }
}
