/**
 Leases (worker.py, claim_next, renew_lease): what punctual heartbeats guarantee for any number
 of workers on the job table of module Concurrency, and exactly which writes of review and
 release requests undo it.
 */
module Leases {
  import opened Wrappers
  import opened Jobs
  import opened Concurrency

  function Interval(leaseSeconds: real): real {
    if leaseSeconds / 3.0 < 1.0 then 1.0 else leaseSeconds / 3.0
  }

  /** No heartbeat that can still renew is later than `late` after its interval; the others have ended. */
  ghost predicate OnTime(s: System, w: World, late: real) {
    forall p :: p in w.procs && w.procs[p].Working? && CanRenew(w.rows, w.procs[p].job.id, p) ==>
      w.now <= w.procs[p].renewed + Interval(s.config.leaseSeconds) + late
  }

  /** Every lease that can still be renewed is running. */
  ghost predicate Fresh(s: System, w: World) {
    forall p :: p in w.procs && w.procs[p].Working? && CanRenew(w.rows, w.procs[p].job.id, p) ==>
      w.now < w.procs[p].renewed + s.config.leaseSeconds
  }

  /** The row of a job a worker is working on is gone or what the worker claimed, with the lease last set. */
  predicate Holds(s: System, w: World, p: string)
    requires p in w.procs && w.procs[p].Working?
  {
    var job := w.procs[p].job;
    job.id in w.rows ==>
      && job.status == Processing && job.worker == Some(p)
      && w.rows[job.id] == job.(lease := Some(w.procs[p].renewed + s.config.leaseSeconds))
  }

  ghost predicate AllHold(s: System, w: World) {
    forall p :: p in w.procs && w.procs[p].Working? ==> Holds(s, w, p)
  }

  /** The step is a review or release request writing over a row that a worker holds. */
  ghost predicate Disturbs(s: System, w: World, step: Step) {
    && Enabled(s, w, step) && !step.FinishProcess?
    && var saved := Saved(s, w, step);
    && saved.Some? && saved.value.id in w.rows
    && exists p :: p in w.procs && w.procs[p].Working? && w.procs[p].job.id == saved.value.id
  }

  /** A held job is due exactly when its worker has not renewed for a whole lease. */
  lemma DueExactly(s: System, w: World, p: string)
    requires AllHold(s, w) && p in w.procs && w.procs[p].Working? && w.procs[p].job.id in w.rows
    ensures IsDue(w.rows[w.procs[p].job.id], w.now) <==> w.now >= w.procs[p].renewed + s.config.leaseSeconds
  {
    assert Holds(s, w, p);
  }

  lemma StepKeepsHolds(s: System, w: World, step: Step)
    requires Inv(s, w) && Enabled(s, w, step) && AllHold(s, w) && Fresh(s, w)
    ensures AllHold(s, Apply(s, w, step)) <==> !Disturbs(s, w, step)
  {
    SavedGood(s, w, step);
    var after := Apply(s, w, step);
    if Disturbs(s, w, step) {
      var saved := Saved(s, w, step).value;
      var p :| p in w.procs && w.procs[p].Working? && w.procs[p].job.id == saved.id;
      assert p in after.procs && after.procs[p] == w.procs[p];
      assert !Holds(s, after, p);
    } else {
      forall p | p in after.procs && after.procs[p].Working?
        ensures Holds(s, after, p)
      {
        HoldSurvives(s, w, step, p);
      }
    }
  }

  /** Nobody else touches a held row, except to delete it. */
  lemma HeldRowKept(s: System, w: World, step: Step, p: string)
    requires Inv(s, w) && Enabled(s, w, step) && AllHold(s, w) && Fresh(s, w)
    requires !Disturbs(s, w, step)
    requires p in w.procs && w.procs[p].Working? && step != Renew(p) && !(step.FinishProcess? && step.p == p)
    ensures var id := w.procs[p].job.id;
      id in Rows(s, w, step) ==> id in w.rows && Rows(s, w, step)[id] == w.rows[id]
  {
    var id := w.procs[p].job.id;
    assert Holds(s, w, p);
    if id in w.rows { DueExactly(s, w, p); }
    match step
    case Claim(q, other) =>
    case Renew(q) =>
    case ClaimRelease(q) =>
    case Delete(_) =>
    case FinishProcess(q, files, env) =>
      assert Holds(s, w, q);
      ProcessedGood(s.config, w.procs[q].job, files, env, w.now);
    case _ =>
  }

  lemma WorkerBefore(s: System, w: World, step: Step, p: string)
    requires Enabled(s, w, step) && p in Procs(s, w, step) && Procs(s, w, step)[p].Working?
    ensures
      || (step.Claim? && step.p == p)
      || (p in w.procs && w.procs[p].Working? && !(step.FinishProcess? && step.p == p))
    ensures !(step.Claim? && step.p == p) && step != Renew(p) ==> Procs(s, w, step)[p] == w.procs[p]
  {
  }

  lemma HoldSurvives(s: System, w: World, step: Step, p: string)
    requires Inv(s, w) && Enabled(s, w, step) && AllHold(s, w) && Fresh(s, w)
    requires !Disturbs(s, w, step)
    requires p in Procs(s, w, step) && Procs(s, w, step)[p].Working?
    ensures Holds(s, Apply(s, w, step), p)
  {
    WorkerBefore(s, w, step, p);
    if !(step.Claim? && step.p == p) {
      assert Holds(s, w, p);
      if step != Renew(p) {
        HeldRowKept(s, w, step, p);
      }
    }
  }

  /** The heartbeats are on time in every state of the run, and late by less than the lease allows. */
  ghost predicate Punctual(s: System, r: Run, late: real) {
    && late < s.config.leaseSeconds - Interval(s.config.leaseSeconds)
    && forall i: nat :: i < |r.worlds| ==> OnTime(s, r.worlds[i], late)
  }

  ghost predicate Undisturbed(s: System, r: Run) {
    && |r.worlds| == |r.steps| + 1
    && forall i: nat :: i < |r.steps| ==> !Disturbs(s, r.worlds[i], r.steps[i])
  }

  lemma {:induction false} HoldsStay(s: System, r: Run, late: real, i: nat)
    requires s.config.maxAttempts >= 1 && IsRun(s, r) && Inv(s, r.worlds[0]) && AllHold(s, r.worlds[0])
    requires Punctual(s, r, late) && Undisturbed(s, r) && i < |r.worlds|
    ensures AllHold(s, r.worlds[i])
  {
    if i > 0 {
      HoldsStay(s, r, late, i - 1);
      RowsStayGood(s, r, i - 1);
      assert StepAt(s, r, i - 1);
      StepKeepsHolds(s, r.worlds[i - 1], r.steps[i - 1]);
    }
  }

  /** With punctual heartbeats every row stays as its worker claimed it exactly when no request writes over it. */
  lemma HoldsExactly(s: System, r: Run, late: real)
    requires s.config.maxAttempts >= 1 && IsRun(s, r) && Inv(s, r.worlds[0]) && AllHold(s, r.worlds[0])
    requires Punctual(s, r, late)
    ensures (forall i: nat :: i < |r.worlds| ==> AllHold(s, r.worlds[i])) <==> Undisturbed(s, r)
  {
    if Undisturbed(s, r) {
      forall i: nat | i < |r.worlds|
        ensures AllHold(s, r.worlds[i])
      {
        HoldsStay(s, r, late, i);
      }
    } else {
      var i: nat :| i < |r.steps| && Disturbs(s, r.worlds[i], r.steps[i]);
      RowsStayGood(s, r, i);
      assert StepAt(s, r, i);
      if AllHold(s, r.worlds[i]) {
        StepKeepsHolds(s, r.worlds[i], r.steps[i]);
        assert !AllHold(s, r.worlds[i + 1]);
      }
    }
  }

  /** No claim takes a job another worker is working on, and a finishing worker writes a row it still holds. */
  lemma LeaseExclusivity(s: System, r: Run, late: real, i: nat)
    requires s.config.maxAttempts >= 1 && IsRun(s, r) && Inv(s, r.worlds[0]) && AllHold(s, r.worlds[0])
    requires Punctual(s, r, late) && Undisturbed(s, r) && i < |r.steps|
    ensures r.steps[i].Claim? ==>
      forall p :: p in r.worlds[i].procs && r.worlds[i].procs[p].Working? ==>
        r.worlds[i].procs[p].job.id != r.steps[i].id
    ensures r.steps[i].FinishProcess? ==> StepAt(s, r, i) && Holds(s, r.worlds[i], r.steps[i].p)
  {
    HoldsStay(s, r, late, i);
    assert StepAt(s, r, i);
    var w := r.worlds[i];
    if r.steps[i].Claim? {
      forall p | p in w.procs && w.procs[p].Working?
        ensures w.procs[p].job.id != r.steps[i].id
      {
        if w.procs[p].job.id in w.rows { DueExactly(s, w, p); }
      }
    }
  }

  /**
   The interval is a third of the lease or a second, whichever is longer, so that a lease of two
   seconds or more leaves room for late heartbeats and a shorter one may leave none.
   */
  lemma RoomForLateness(leaseSeconds: real)
    ensures Interval(leaseSeconds) >= 1.0 && 3.0 * Interval(leaseSeconds) >= leaseSeconds
    ensures Interval(leaseSeconds) == 1.0 || 3.0 * Interval(leaseSeconds) == leaseSeconds
    ensures Interval(leaseSeconds) < leaseSeconds <==> leaseSeconds > 1.0
    ensures leaseSeconds >= 2.0 ==> leaseSeconds - Interval(leaseSeconds) >= 1.0
  {
  }

  // ---------- Exclusivity, exactly ----------

  predicate WorksOn(w: World, p: string, id: string) {
    p in w.procs && w.procs[p].Working? && w.procs[p].job.id == id
  }

  /** The step claims a job that another worker is still working on. */
  ghost predicate Steals(w: World, step: Step) {
    step.Claim? && exists p :: WorksOn(w, p, step.id)
  }

  /** The row is gone, held, or already DELIVERED: nobody can claim it. */
  predicate Secure(s: System, w: World, p: string)
    requires p in w.procs && w.procs[p].Working?
  {
    var id := w.procs[p].job.id;
    Holds(s, w, p) || (id in w.rows && w.rows[id].status == Delivered)
  }

  ghost predicate AllSecure(s: System, w: World) {
    forall p :: p in w.procs && w.procs[p].Working? ==> Secure(s, w, p)
  }

  /** A request writes anything but DELIVERED over the row of a job in work. */
  ghost predicate Harms(s: System, w: World, step: Step) {
    && Enabled(s, w, step) && !step.FinishProcess?
    && var saved := Saved(s, w, step);
    && saved.Some? && saved.value.id in w.rows && saved.value.status != Delivered
    && exists p :: WorksOn(w, p, saved.value.id) && Secure(s, w, p)
  }

  /** No other process makes a secure row claimable. */
  lemma SecureRowKept(s: System, w: World, step: Step, p: string)
    requires Inv(s, w) && Enabled(s, w, step) && AllSecure(s, w) && Fresh(s, w) && !Harms(s, w, step)
    requires p in w.procs && w.procs[p].Working? && step != Renew(p) && !(step.FinishProcess? && step.p == p)
    requires step.FinishProcess? ==> !WorksOn(w, step.p, w.procs[p].job.id)
    ensures var id := w.procs[p].job.id;
      id in Rows(s, w, step) ==>
        id in w.rows && (Rows(s, w, step)[id] == w.rows[id] || Rows(s, w, step)[id].status == Delivered)
  {
    assert Secure(s, w, p);
    assert WorksOn(w, p, w.procs[p].job.id);
    match step
    case FinishProcess(q, files, env) => ProcessedGood(s.config, w.procs[q].job, files, env, w.now);
    case _ =>
  }

  /** At most one worker on an existing job. */
  ghost predicate Sole(w: World) {
    forall p, q, id :: WorksOn(w, p, id) && WorksOn(w, q, id) && id in w.rows ==> p == q
  }

  lemma NobodySteals(s: System, w: World, step: Step)
    requires Enabled(s, w, step) && AllSecure(s, w) && Fresh(s, w)
    ensures !Steals(w, step)
  {
    if step.Claim? {
      forall p | p in w.procs && w.procs[p].Working?
        ensures w.procs[p].job.id != step.id
      {
        assert Secure(s, w, p);
      }
    }
  }

  lemma ClaimedSecure(s: System, w: World, step: Step)
    requires Inv(s, w) && Enabled(s, w, step) && step.Claim?
    ensures Secure(s, Apply(s, w, step), step.p)
  {
  }

  lemma RenewedSecure(s: System, w: World, step: Step)
    requires Inv(s, w) && Enabled(s, w, step) && step.Renew? && Secure(s, w, step.p)
    ensures Secure(s, Apply(s, w, step), step.p)
  {
  }

  lemma SecureSurvives(s: System, w: World, step: Step, p: string)
    requires Inv(s, w) && Enabled(s, w, step) && AllSecure(s, w) && Sole(w) && Fresh(s, w) && !Harms(s, w, step)
    requires p in Procs(s, w, step) && Procs(s, w, step)[p].Working?
    ensures Secure(s, Apply(s, w, step), p)
  {
    WorkerBefore(s, w, step, p);
    if step.Claim? && step.p == p {
      ClaimedSecure(s, w, step);
    } else if step == Renew(p) {
      RenewedSecure(s, w, step);
    } else {
      var id := w.procs[p].job.id;
      assert WorksOn(w, p, id);
      SameJobBefore(s, w, step, p);
      RowsAppearFreshFor(s, w, step, id);
      if id in w.rows { SecureRowKept(s, w, step, p); }
    }
  }

  lemma RowsAppearFreshFor(s: System, w: World, step: Step, id: string)
    requires Enabled(s, w, step) && id in w.used
    ensures id in Rows(s, w, step) ==> id in w.rows
  {
    if id in Rows(s, w, step) { RowsAppearFresh(s, w, step, id); }
  }

  lemma RowsAppearFresh(s: System, w: World, step: Step, id: string)
    requires Enabled(s, w, step) && id in Rows(s, w, step)
    ensures id in w.rows || (step.Ingest? && id !in w.used)
  {
  }

  lemma SoleSurvives(s: System, w: World, step: Step)
    requires Inv(s, w) && Enabled(s, w, step) && AllSecure(s, w) && Sole(w) && Fresh(s, w)
    ensures Sole(Apply(s, w, step))
  {
    NobodySteals(s, w, step);
    var after := Apply(s, w, step);
    forall p, q, id | WorksOn(after, p, id) && WorksOn(after, q, id) && id in after.rows
      ensures p == q
    {
      WorkerBefore(s, w, step, p);
      WorkerBefore(s, w, step, q);
      RowsAppearFresh(s, w, step, id);
      SameJobBefore(s, w, step, p);
      SameJobBefore(s, w, step, q);
    }
  }

  lemma SameJobBefore(s: System, w: World, step: Step, p: string)
    requires Inv(s, w) && Enabled(s, w, step) && p in Procs(s, w, step) && Procs(s, w, step)[p].Working?
    ensures var id := Procs(s, w, step)[p].job.id;
      if step.Claim? && step.p == p then id == step.id && id in w.rows else WorksOn(w, p, id) && id in w.used
  {
  }

  ghost predicate Guarded(s: System, w: World) {
    Inv(s, w) && AllSecure(s, w) && Sole(w)
  }

  lemma StepKeepsGuard(s: System, w: World, step: Step)
    requires s.config.maxAttempts >= 1 && Guarded(s, w) && Enabled(s, w, step) && Fresh(s, w) && !Harms(s, w, step)
    ensures Guarded(s, Apply(s, w, step))
  {
    StepKeeps(s, w, step);
    SoleSurvives(s, w, step);
    forall p | p in Procs(s, w, step) && Procs(s, w, step)[p].Working?
      ensures Secure(s, Apply(s, w, step), p)
    {
      SecureSurvives(s, w, step, p);
    }
  }

  lemma {:induction false} GuardStays(s: System, r: Run, late: real, i: nat)
    requires s.config.maxAttempts >= 1 && IsRun(s, r) && Guarded(s, r.worlds[0]) && Punctual(s, r, late)
    requires i < |r.worlds|
    requires forall k :: 0 <= k < i ==> !Harms(s, r.worlds[k], r.steps[k])
    ensures Guarded(s, r.worlds[i])
  {
    if i > 0 {
      GuardStays(s, r, late, i - 1);
      assert StepAt(s, r, i - 1) && OnTime(s, r.worlds[i - 1], late);
      StepKeepsGuard(s, r.worlds[i - 1], r.steps[i - 1]);
    }
  }

  /** Without a harmful write, no punctual run takes a job from a worker. */
  lemma NoHarmNoTheft(s: System, r: Run, late: real, i: nat)
    requires s.config.maxAttempts >= 1 && IsRun(s, r) && Guarded(s, r.worlds[0]) && Punctual(s, r, late)
    requires i < |r.steps|
    requires forall k :: 0 <= k < i ==> !Harms(s, r.worlds[k], r.steps[k])
    ensures !Steals(r.worlds[i], r.steps[i])
  {
    GuardStays(s, r, late, i);
    assert StepAt(s, r, i) && OnTime(s, r.worlds[i], late);
    NobodySteals(s, r.worlds[i], r.steps[i]);
  }
}
