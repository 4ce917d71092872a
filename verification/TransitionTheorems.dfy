/**
 When exactly a job fails in a step, and with it when exactly a READY project falls back
 to PROVISION_FAILED: decided by the state before the step and the event alone.
*/
module TransitionTheorems {
  import opened Options
  import opened Rows
  import opened LifecycleQueue
  import opened LifecycleRequests
  import opened ProvisionStore
  import opened StoreInvariant
  import opened LifecycleSystem
  import opened SystemInvariant
  import opened SagaSteps
  import opened WorkerSteps
  import opened LifecycleRuns
  import opened QueueOutcomes
  import RetryDelay

  /** An idle worker's claim query finds the job running on its last permitted attempt. */
  predicate ExpiresFinally(s: System, e: Event, j: JobId) {
    e.ClaimTurn? && e.w in s.workers && s.workers[e.w].pc.Idle? && s.workers[e.w].id != "" && e.lease > 0.0
    && SelectDue(s.db, e.now, e.skip) == Some(j)
    && s.db.jobs[j].status.Running? && s.db.jobs[j].attempt >= s.db.jobs[j].maxAttempts
  }

  /** A worker whose runner raised finalizes a job it still owns, for good. */
  predicate FinallyRaised(s: System, e: Event, j: JobId) {
    e.Finalize? && e.w in s.workers && s.workers[e.w].pc.Raised? && s.workers[e.w].pc.claim.job == j
    && Owns(s.db, j, s.workers[e.w].pc.claim.worker, s.workers[e.w].pc.claim.attempt, e.now)
    && (s.workers[e.w].pc.error.permanent || s.db.jobs[j].attempt >= s.db.jobs[j].maxAttempts)
  }

  predicate Fails(s: System, e: Event, j: JobId) { ExpiresFinally(s, e, j) || FinallyRaised(s, e, j) }

  lemma TurnFails(db: Db, worker: WorkerId, now: Time, lease: Time, skip: set<JobId>, j: JobId)
    requires j in db.jobs && !db.jobs[j].status.Failed? && !ClaimOnce(db, worker, now, lease, skip).1.Broken?
    ensures var next := ClaimOnce(db, worker, now, lease, skip).0;
            j in next.jobs
            && (next.jobs[j].status.Failed? <==>
                  worker != "" && lease > 0.0 && SelectDue(db, now, skip) == Some(j)
                  && db.jobs[j].status.Running? && db.jobs[j].attempt >= db.jobs[j].maxAttempts)
  {
    hide FailJob, FirstDue, Eligible;
    SelectDueBasics(db, now, skip);
    var selected := SelectDue(db, now, skip);
    if selected.Some? {
      FailJobShape(db, selected.value, now, LEASE_EXPIRED_CODE);
    }
  }

  lemma ClaimFailsExactly(s: System, e: Event, j: JobId)
    requires StoreOk(s.db) && j in s.db.jobs && !s.db.jobs[j].status.Failed? && e.ClaimTurn? && e.w in s.workers
    ensures j in Next(s, e).db.jobs && (Next(s, e).db.jobs[j].status.Failed? <==> Fails(s, e, j))
  {
    hide StoreOk, ClaimOnce, SelectDue;
    ClaimKeeps(s.db, s.workers[e.w].id, e.now, e.lease, e.skip);
    TurnFails(s.db, s.workers[e.w].id, e.now, e.lease, e.skip, j);
  }

  lemma GivingUpFails(db: Db, c: Claim, now: Time, error: LifecycleError, options: RetryOptions, j: JobId)
    requires j in db.jobs && !db.jobs[j].status.Failed?
    requires c.job in db.jobs ==> FailJob(db, c.job, now, ErrorCode(error)).Some?
    ensures var next := RetryOrFail(db, c.job, c.worker, c.attempt, now, error, options).0;
            j in next.jobs
            && (next.jobs[j].status.Failed? <==>
                  c.job == j && Owns(db, j, c.worker, c.attempt, now)
                  && (error.permanent || db.jobs[j].attempt >= db.jobs[j].maxAttempts))
  {
    hide FailJob, RetryDelay.Delay;
    if c.job in db.jobs {
      FailJobShape(db, c.job, now, ErrorCode(error));
    }
  }

  lemma ProjectOf(db: Db, j: JobId, now: Time, code: string)
    requires StoreOk(db) && j in db.jobs
    ensures FailJob(db, j, now, code).Some?
  {
    assert JobOk(db.jobs[j]);
  }

  lemma CompletionFailsNothing(db: Db, pc: Pc, now: Time, j: JobId)
    requires j in db.jobs && !db.jobs[j].status.Failed?
    ensures pc.Returned? ==>
              var next := Complete(db, pc.claim.job, pc.claim.worker, pc.claim.attempt, now).0;
              j in next.jobs && !next.jobs[j].status.Failed?
  {
    hide Owns;
  }

  lemma FinalizeFailsExactly(s: System, e: Event, j: JobId)
    requires StoreOk(s.db) && j in s.db.jobs && !s.db.jobs[j].status.Failed? && e.Finalize? && e.w in s.workers
    ensures j in Next(s, e).db.jobs && (Next(s, e).db.jobs[j].status.Failed? <==> Fails(s, e, j))
  {
    hide StoreOk, RetryOrFail, FailJob, Owns, Complete;
    var pc := s.workers[e.w].pc;
    CompletionFailsNothing(s.db, pc, e.now, j);
    if pc.Raised? {
      if pc.claim.job in s.db.jobs { ProjectOf(s.db, pc.claim.job, e.now, ErrorCode(pc.error)); }
      GivingUpFails(s.db, pc.claim, e.now, pc.error, e.options, j);
    }
  }

  lemma SagaFailsNothing(s: System, w: nat, c: Claim, at: Point, now: Time, answer: Answer, j: JobId)
    requires w in s.workers && j in s.db.jobs
    ensures var next := AdvanceSaga(s, w, c, at, now, answer).db;
            j in next.jobs && next.jobs[j].status == s.db.jobs[j].status
  {
    hide AdvanceSaga, PublishReady, SetStep;
    SagaTouches(s, w, c, at, now, answer);
    StepsKeepStatus(s.db, c, now, j);
  }

  lemma StepsKeepStatus(db: Db, c: Claim, now: Time, j: JobId)
    requires j in db.jobs
    ensures forall step :: var next := SetStep(db, c, step, now).0;
                           j in next.jobs && next.jobs[j].status == db.jobs[j].status
    ensures var next := PublishReady(db, c, now).0;
            j in next.jobs && next.jobs[j].status == db.jobs[j].status
  {
  }

  /** In any state the invariant allows, a step fails a job exactly when it expires or is given up for good. */
  lemma JobFailsExactly(s: System, e: Event, j: JobId)
    requires SystemOk(s) && j in s.db.jobs && !s.db.jobs[j].status.Failed?
    ensures j in Next(s, e).db.jobs && (Next(s, e).db.jobs[j].status.Failed? <==> Fails(s, e, j))
  {
    hide StoreOk, WorkersOk, LocksOk, DistinctClaims, LogOk, Blocks, InitRecorded, Next;
    if e.ClaimTurn? && e.w in s.workers {
      ClaimFailsExactly(s, e, j);
    } else if e.Finalize? && e.w in s.workers {
      FinalizeFailsExactly(s, e, j);
    } else {
      OtherEventsFailNothing(s, e, j);
    }
  }

  lemma BeatFailsNothing(s: System, e: Event, j: JobId)
    requires j in s.db.jobs && e.Beat? && e.w in s.workers && !s.workers[e.w].pc.Idle?
    ensures var next := BeatOnce(s, e.w, s.workers[e.w].pc.claim, e.now, e.lease).db;
            j in next.jobs && next.jobs[j].status == s.db.jobs[j].status
  {
    hide Owns;
  }

  lemma OtherEventsFailNothing(s: System, e: Event, j: JobId)
    requires j in s.db.jobs && !((e.ClaimTurn? || e.Finalize?) && e.w in s.workers)
    ensures j in Next(s, e).db.jobs && Next(s, e).db.jobs[j].status == s.db.jobs[j].status
  {
    hide RequestNext, AdvanceSaga, Owns, TakeClaim, Conclude, BeatOnce;
    if IsRequest(e) {
      RequestLeavesJobs(s.db, e);
    } else if e.w in s.workers && e.Beat? && !s.workers[e.w].pc.Idle? {
      BeatFailsNothing(s, e, j);
    } else if e.w in s.workers && e.Advance? && s.workers[e.w].pc.InSaga? {
      SagaFailsNothing(s, e.w, s.workers[e.w].pc.claim, s.workers[e.w].pc.at, e.now, e.answer, j);
    }
  }

  /** A provision that has published READY, is not completed, and is failed by the event. */
  predicate LosesPublished(s: System, e: Event, p: ProjectId, j: JobId) {
    ActiveFor(s.db, p, j) && s.db.jobs[j].operation.Provision? && s.db.jobs[j].step == Some(Published) && Fails(s, e, j)
  }

  lemma FailureReachesProject(s: System, e: Event, p: ProjectId, j: JobId)
    requires SystemOk(s) && LosesPublished(s, e, p, j) && p in s.db.projects
    ensures p in Next(s, e).db.projects && Next(s, e).db.projects[p].status.ProvisionFailed?
  {
    hide StoreOk, WorkersOk, LocksOk, DistinctClaims, LogOk, Blocks, InitRecorded, FirstDue;
    JobIsOk(s.db, j) by { assert JobsOk(s.db) by { JobsOf(s.db); } }
  }

  lemma JobsOf(db: Db)
    requires StoreOk(db)
    ensures JobsOk(db)
  {
  }

  /**
   In every reachable state, a READY project goes to PROVISION_FAILED in a step exactly when
   the step fails a PROVISION job of it that has published READY and is not completed.
  */
  lemma ReadyFallsBackExactly(es: seq<Event>, e: Event, p: ProjectId)
    requires p in Run(INIT, es).db.projects && Run(INIT, es).db.projects[p].status.Ready?
    ensures p in Run(INIT, es + [e]).db.projects
    ensures Run(INIT, es + [e]).db.projects[p].status.ProvisionFailed?
            <==> exists j :: LosesPublished(Run(INIT, es), e, p, j)
  {
    hide Next, SystemOk, Fails;
    var s := Run(INIT, es);
    RunStep(es, e);
    StatusTransitions(es, e, p);
    var next := Run(INIT, es + [e]).db;
    if next.projects[p].status.ProvisionFailed? {
      var j :| PublishedThenFailed(s.db, next, p, j);
      JobFailsExactly(s, e, j);
      assert LosesPublished(s, e, p, j);
    }
    if j :| LosesPublished(s, e, p, j) {
      FailureReachesProject(s, e, p, j);
    }
  }

  /**
   Every status change of every run is in the transition table, but one: READY to
   PROVISION_FAILED, and that one happens exactly when the step fails a PROVISION job which
   has published READY and is not completed.
  */
  lemma StatusChangesExactly(es: seq<Event>, e: Event, p: ProjectId)
    requires p in Run(INIT, es).db.projects
    ensures p in Run(INIT, es + [e]).db.projects
    ensures var a, b := Run(INIT, es).db.projects[p].status, Run(INIT, es + [e]).db.projects[p].status;
            var lost := a.Ready? && exists j :: LosesPublished(Run(INIT, es), e, p, j);
            && (a == b || (a, b) in ALLOWED_TRANSITIONS || lost)
            && (a.Ready? && b.ProvisionFailed? <==> lost)
  {
    hide Run, Next, LosesPublished;
    StatusTransitions(es, e, p);
    if Run(INIT, es).db.projects[p].status.Ready? {
      ReadyFallsBackExactly(es, e, p);
    }
  }

  // ---- When a job succeeds ----

  /** A worker whose runner returned finalizes a job that it holds. */
  predicate Completes(s: System, e: Event, j: JobId) {
    e.Finalize? && e.w in s.workers && s.workers[e.w].pc.Returned? && s.workers[e.w].pc.claim.job == j
    && j in s.db.jobs && HeldBy(s.db.jobs[j], s.workers[e.w].pc.claim.worker, s.workers[e.w].pc.claim.attempt, e.now)
  }

  /** A claim turn leaves a job as it is, running or failed. */
  lemma TurnStatus(db: Db, worker: WorkerId, now: Time, lease: Time, skip: set<JobId>, j: JobId)
    requires j in db.jobs
    ensures var next := ClaimOnce(db, worker, now, lease, skip).0;
            && j in next.jobs
            && (next.jobs[j].status == db.jobs[j].status || next.jobs[j].status == Running || next.jobs[j].status == Failed)
  {
    hide FailJob, SelectDue;
    SelectDueBasics(db, now, skip);
    var selected := SelectDue(db, now, skip);
    if selected.Some? {
      FailJobShape(db, selected.value, now, LEASE_EXPIRED_CODE);
    }
  }

  lemma GivingUpSucceedsNothing(db: Db, c: Claim, now: Time, error: LifecycleError, options: RetryOptions, j: JobId)
    requires j in db.jobs && db.jobs[j].status != Succeeded
    ensures var next := RetryOrFail(db, c.job, c.worker, c.attempt, now, error, options).0;
            j in next.jobs && next.jobs[j].status != Succeeded
  {
    hide FailJob, RetryDelay.Delay;
    if c.job in db.jobs {
      FailJobShape(db, c.job, now, ErrorCode(error));
    }
  }

  lemma FinalizeSucceedsExactly(s: System, e: Event, j: JobId)
    requires j in s.db.jobs && s.db.jobs[j].status != Succeeded && e.Finalize? && e.w in s.workers
    ensures j in Next(s, e).db.jobs && (Next(s, e).db.jobs[j].status == Succeeded <==> Completes(s, e, j))
    ensures Completes(s, e, j) ==>
              Next(s, e).db == s.db.(jobs := s.db.jobs[j := s.db.jobs[j].(
                status := Succeeded, lockedBy := None, lockExpiresAt := None, errorCode := None, finishedAt := Some(e.now))])
  {
    hide RetryOrFail, Complete;
    var pc := s.workers[e.w].pc;
    if pc.Raised? {
      GivingUpSucceedsNothing(s.db, pc.claim, e.now, pc.error, e.options, j);
    } else if pc.Returned? {
      CompleteExactly(s.db, pc.claim.job, pc.claim.worker, pc.claim.attempt, e.now);
    }
  }

  /**
   A step makes a job SUCCEEDED exactly when a worker that returned finalizes a job it holds.
   The row is then released and finished, everything else is as before, and the job is a
   provision whose project is READY.
  */
  lemma JobSucceedsExactly(s: System, e: Event, j: JobId)
    requires SystemOk(s) && j in s.db.jobs && s.db.jobs[j].status != Succeeded
    ensures j in Next(s, e).db.jobs && (Next(s, e).db.jobs[j].status == Succeeded <==> Completes(s, e, j))
    ensures Completes(s, e, j) ==>
              && Next(s, e).db == s.db.(jobs := s.db.jobs[j := s.db.jobs[j].(
                   status := Succeeded, lockedBy := None, lockExpiresAt := None, errorCode := None,
                   finishedAt := Some(e.now))])
              && s.db.jobs[j].operation == Provision && s.db.jobs[j].project in s.db.projects
              && s.db.projects[s.db.jobs[j].project].status == Ready
  {
    hide StoreOk, LocksOk, DistinctClaims, LogOk, Blocks, InitRecorded, Next;
    if e.ClaimTurn? && e.w in s.workers {
      TurnStep(s, e, j);
    } else if e.Finalize? && e.w in s.workers {
      FinalizeSucceedsExactly(s, e, j);
      if Completes(s, e, j) {
        assert WorkerOk(s, e.w);
        ActiveFits(s.db, j);
      }
    } else {
      OtherEventsFailNothing(s, e, j);
    }
  }

  lemma TurnStep(s: System, e: Event, j: JobId)
    requires j in s.db.jobs && e.ClaimTurn? && e.w in s.workers
    ensures j in Next(s, e).db.jobs
    ensures var status := Next(s, e).db.jobs[j].status;
            status == s.db.jobs[j].status || status == Running || status == Failed
  {
    hide ClaimOnce;
    TurnStatus(s.db, s.workers[e.w].id, e.now, e.lease, e.skip, j);
  }

  // ---- When a job is claimed, and when it is put back ----

  /** An idle worker's claim query takes the job, and an attempt is left. */
  predicate Takes(s: System, e: Event, j: JobId) {
    e.ClaimTurn? && e.w in s.workers && s.workers[e.w].pc.Idle? && s.workers[e.w].id != "" && e.lease > 0.0
    && SelectDue(s.db, e.now, e.skip) == Some(j) && j in s.db.jobs
    && (s.db.jobs[j].status == Running ==> s.db.jobs[j].attempt < s.db.jobs[j].maxAttempts)
  }

  /** The worker then runs the saga for a provision; for any other operation it has no runner and raises for good. */
  function Started(s: System, e: Event, j: JobId): Pc
    requires Takes(s, e, j)
  {
    var job := s.db.jobs[j];
    var claim := Claim(j, job.project, job.operation, job.attempt + 1, s.workers[e.w].id);
    if job.operation == Provision then InSaga(claim, AwaitLock)
    else Raised(claim, LifecycleError(true, "RUNNER_NOT_CONFIGURED"))
  }

  lemma TakingLeavesAttempt(db: Db, worker: WorkerId, now: Time, lease: Time, skip: set<JobId>, j: JobId)
    requires j in db.jobs
    ensures var next := ClaimOnce(db, worker, now, lease, skip).0;
            j in next.jobs
            && (next.jobs[j].attempt != db.jobs[j].attempt ==>
                  worker != "" && lease > 0.0 && SelectDue(db, now, skip) == Some(j)
                  && (db.jobs[j].status == Running ==> db.jobs[j].attempt < db.jobs[j].maxAttempts))
  {
    hide FailJob, SelectDue;
    SelectDueBasics(db, now, skip);
    var selected := SelectDue(db, now, skip);
    if selected.Some? {
      FailJobShape(db, selected.value, now, LEASE_EXPIRED_CODE);
    }
  }

  /** A step raises the attempt of a job exactly when an idle worker takes it; the worker then runs it. */
  lemma JobClaimedExactly(s: System, e: Event, j: JobId)
    requires SystemOk(s) && j in s.db.jobs
    ensures j in Next(s, e).db.jobs
    ensures Next(s, e).db.jobs[j].attempt != s.db.jobs[j].attempt <==> Takes(s, e, j)
    ensures Takes(s, e, j) ==>
              && Next(s, e).workers == s.workers[e.w := s.workers[e.w].(pc := Started(s, e, j))]
              && HeldBy(Next(s, e).db.jobs[j], s.workers[e.w].id, s.db.jobs[j].attempt + 1, e.now)
              && Next(s, e).db.jobs[j].lockExpiresAt == Some(e.now + e.lease)
  {
    hide StoreOk, WorkersOk, LocksOk, DistinctClaims, LogOk, Blocks, InitRecorded, Next;
    if e.ClaimTurn? && e.w in s.workers {
      TurnClaims(s, e, j);
    } else {
      OthersKeepAttempt(s, e, j);
    }
  }

  lemma TurnClaims(s: System, e: Event, j: JobId)
    requires j in s.db.jobs && e.ClaimTurn? && e.w in s.workers
    ensures j in Next(s, e).db.jobs
    ensures Next(s, e).db.jobs[j].attempt != s.db.jobs[j].attempt <==> Takes(s, e, j)
    ensures Takes(s, e, j) ==>
              && Next(s, e).workers == s.workers[e.w := s.workers[e.w].(pc := Started(s, e, j))]
              && HeldBy(Next(s, e).db.jobs[j], s.workers[e.w].id, s.db.jobs[j].attempt + 1, e.now)
              && Next(s, e).db.jobs[j].lockExpiresAt == Some(e.now + e.lease)
  {
    hide ClaimOnce, SelectDue;
    TakingLeavesAttempt(s.db, s.workers[e.w].id, e.now, e.lease, e.skip, j);
    if Takes(s, e, j) {
      ClaimExactly(s.db, s.workers[e.w].id, e.now, e.lease, e.skip, j);
    }
  }

  lemma RetryKeepsAttempt(db: Db, c: Claim, now: Time, error: LifecycleError, options: RetryOptions, j: JobId)
    requires j in db.jobs
    ensures var next := RetryOrFail(db, c.job, c.worker, c.attempt, now, error, options).0;
            j in next.jobs && next.jobs[j].attempt == db.jobs[j].attempt
  {
    hide RetryOrFail;
    RetryOrFailShape(db, c, now, error, options);
  }

  lemma OthersKeepAttempt(s: System, e: Event, j: JobId)
    requires j in s.db.jobs && !(e.ClaimTurn? && e.w in s.workers)
    ensures j in Next(s, e).db.jobs && Next(s, e).db.jobs[j].attempt == s.db.jobs[j].attempt
  {
    hide RequestNext, AdvanceSaga, TakeClaim, RetryOrFail, Complete, Heartbeat, HeldBy;
    if IsRequest(e) {
      RequestLeavesJobs(s.db, e);
    } else if e.w in s.workers {
      var pc := s.workers[e.w].pc;
      if e.Finalize? && pc.Raised? {
        RetryKeepsAttempt(s.db, pc.claim, e.now, pc.error, e.options, j);
      } else if e.Finalize? && pc.Returned? {
        CompleteExactly(s.db, pc.claim.job, pc.claim.worker, pc.claim.attempt, e.now);
      } else if e.Advance? && pc.InSaga? {
        SagaKeepsAttempt(s, e.w, pc.claim, pc.at, e.now, e.answer, j);
      } else if e.Beat? && !pc.Idle? {
        HeartbeatExactly(s.db, pc.claim.job, pc.claim.worker, pc.claim.attempt, e.now, e.lease);
      }
    }
  }

  lemma SagaKeepsAttempt(s: System, w: nat, c: Claim, at: Point, now: Time, answer: Answer, j: JobId)
    requires w in s.workers && j in s.db.jobs
    ensures var next := AdvanceSaga(s, w, c, at, now, answer).db;
            j in next.jobs && next.jobs[j].attempt == s.db.jobs[j].attempt
  {
    hide AdvanceSaga;
    SagaTouches(s, w, c, at, now, answer);
  }

  /** A worker that raised puts back a job it holds: the error is not final and the backoff can be computed. */
  predicate PutsBack(s: System, e: Event, j: JobId) {
    e.Finalize? && e.w in s.workers && s.workers[e.w].pc.Raised? && s.workers[e.w].pc.claim.job == j && j in s.db.jobs
    && HeldBy(s.db.jobs[j], s.workers[e.w].pc.claim.worker, s.workers[e.w].pc.claim.attempt, e.now)
    && !Final(s.db.jobs[j], s.workers[e.w].pc.error)
    && e.options.base > 0.0 && e.options.cap > 0.0 && e.options.jitter >= 0.0
  }

  lemma RetriedExactly(db: Db, c: Claim, now: Time, error: LifecycleError, options: RetryOptions, j: JobId)
    requires j in db.jobs && db.jobs[j].status != RetryWait
    ensures var next := RetryOrFail(db, c.job, c.worker, c.attempt, now, error, options).0;
            j in next.jobs
            && (next.jobs[j].status == RetryWait <==>
                  c.job == j && HeldBy(db.jobs[j], c.worker, c.attempt, now) && !Final(db.jobs[j], error)
                  && options.base > 0.0 && options.cap > 0.0 && options.jitter >= 0.0)
  {
    hide RetryOrFail, HeldBy, Final;
    RetryOrFailShape(db, c, now, error, options);
    RetriedWhen(db, c.job, c.worker, c.attempt, now, error, options);
    if c.job in db.jobs {
      OutcomeStatus(db, c.job, c.worker, c.attempt, now, error, options);
    }
  }

  /** A step schedules a retry of a job exactly when a worker puts it back. */
  lemma JobRetriedExactly(s: System, e: Event, j: JobId)
    requires SystemOk(s) && j in s.db.jobs && s.db.jobs[j].status != RetryWait
    ensures j in Next(s, e).db.jobs && (Next(s, e).db.jobs[j].status == RetryWait <==> PutsBack(s, e, j))
  {
    hide StoreOk, WorkersOk, LocksOk, DistinctClaims, LogOk, Blocks, InitRecorded, Next;
    if e.ClaimTurn? && e.w in s.workers {
      TurnStep(s, e, j);
    } else if e.Finalize? && e.w in s.workers {
      FinalizePutsBackExactly(s, e, j);
    } else {
      OtherEventsFailNothing(s, e, j);
    }
  }

  lemma FinalizePutsBackExactly(s: System, e: Event, j: JobId)
    requires j in s.db.jobs && s.db.jobs[j].status != RetryWait && e.Finalize? && e.w in s.workers
    ensures j in Next(s, e).db.jobs && (Next(s, e).db.jobs[j].status == RetryWait <==> PutsBack(s, e, j))
  {
    hide RetryOrFail, Complete, HeldBy, Final;
    var pc := s.workers[e.w].pc;
    if pc.Raised? {
      RetriedExactly(s.db, pc.claim, e.now, pc.error, e.options, j);
    } else if pc.Returned? {
      CompleteExactly(s.db, pc.claim.job, pc.claim.worker, pc.claim.attempt, e.now);
    }
  }
}
