/**
 What the queue transactions do, said of the fields of the rows alone: who may act on a job,
 which job a claim takes, and the row each transaction leaves.
*/
module QueueOutcomes {
  import opened Options
  import opened Rows
  import opened LifecycleQueue
  import RetryDelay

  /** The worker holds a running job for this attempt, and its lease lasts beyond `now`. */
  predicate HeldBy(job: Job, worker: WorkerId, attempt: nat, now: Time) {
    job.status == Running && job.lockedBy == Some(worker) && job.attempt == attempt
    && job.lockExpiresAt.Some? && now < job.lockExpiresAt.value
  }

  /** The job waits and its time has come, or its lease is over. */
  predicate Claimable(job: Job, now: Time) {
    || (job.status == Pending && job.availableAt <= now)
    || (job.status == RetryWait && job.availableAt <= now)
    || (job.status == Running && job.lockExpiresAt.Some? && job.lockExpiresAt.value <= now)
  }

  /** By time available, then time created, then identifier. */
  predicate Before(a: Job, i: JobId, b: Job, j: JobId) {
    if a.availableAt != b.availableAt then a.availableAt < b.availableAt
    else if a.createdAt != b.createdAt then a.createdAt < b.createdAt
    else i < j
  }

  // ---- Owner transactions ----

  /**
   A heartbeat is accepted exactly from the holder, and from then on the holder keeps the job
   until a whole lease has passed, and no longer. Nothing else changes.
  */
  lemma HeartbeatExactly(db: Db, j: JobId, worker: WorkerId, attempt: nat, now: Time, lease: Time)
    ensures var (next, ok) := Heartbeat(db, j, worker, attempt, now, lease);
            && (ok <==> lease > 0.0 && j in db.jobs && HeldBy(db.jobs[j], worker, attempt, now))
            && (!ok ==> next == db)
            && (ok ==> && next == db.(jobs := db.jobs[j := next.jobs[j]])
                       && next.jobs[j] == db.jobs[j].(heartbeatAt := Some(now), lockExpiresAt := Some(now + lease))
                       && forall t :: HeldBy(next.jobs[j], worker, attempt, t) <==> t < now + lease)
  {
  }

  /** Completion is accepted exactly from the holder; the job is SUCCEEDED, its lease and its error are gone. */
  lemma CompleteExactly(db: Db, j: JobId, worker: WorkerId, attempt: nat, now: Time)
    ensures var (next, ok) := Complete(db, j, worker, attempt, now);
            && (ok <==> j in db.jobs && HeldBy(db.jobs[j], worker, attempt, now))
            && (!ok ==> next == db)
            && (ok ==> && next == db.(jobs := db.jobs[j := next.jobs[j]])
                       && next.jobs[j] == db.jobs[j].(status := Succeeded, lockedBy := None, lockExpiresAt := None,
                                                      errorCode := None, finishedAt := Some(now)))
  {
  }

  /** An error is final exactly when it is permanent or the attempts are used up. */
  predicate Final(job: Job, error: LifecycleError) { error.permanent || job.attempt >= job.maxAttempts }

  function Truncated(code: string): string { if |code| > 64 then code[..64] else code }

  /** The n-th attempt waits the base doubled n - 1 times, with the jitter, and the cap at most. */
  function Wait(job: Job, options: RetryOptions): real {
    var doublings := if job.attempt == 0 then 0 else job.attempt - 1;
    var delay := options.base * RetryDelay.TwoTo(doublings) as real + options.jitter;
    if delay < options.cap then delay else options.cap
  }

  /** Base and cap are positive, the jitter is not negative, and the logarithms compare without rounding error. */
  predicate Sound(job: Job, options: RetryOptions) {
    && options.base > 0.0 && options.cap > 0.0 && options.jitter >= 0.0
    && options.thresholdReached
       == (options.base * RetryDelay.TwoTo(if job.attempt == 0 then 0 else job.attempt - 1) as real >= options.cap)
  }

  /** Only the holder is heard; an error that is not final schedules the next attempt after the backoff. */
  lemma RetryExactly(db: Db, j: JobId, worker: WorkerId, attempt: nat, now: Time, error: LifecycleError,
                     options: RetryOptions)
    ensures var (next, outcome) := RetryOrFail(db, j, worker, attempt, now, error, options);
            && (outcome == LostOwnership <==> !(j in db.jobs && HeldBy(db.jobs[j], worker, attempt, now)))
            && (outcome.LostOwnership? || outcome.Rejected? ==> next == db)
            && (j in db.jobs && HeldBy(db.jobs[j], worker, attempt, now) && !Final(db.jobs[j], error)
                && Sound(db.jobs[j], options) ==>
                  && outcome == Retried && next == db.(jobs := db.jobs[j := next.jobs[j]])
                  && next.jobs[j] == db.jobs[j].(status := RetryWait, errorCode := Some(Truncated(error.code)),
                                                 lockedBy := None, lockExpiresAt := None, finishedAt := None,
                                                 availableAt := now + Wait(db.jobs[j], options)))
  {
    hide FailJob, RetryDelay.Delay, RetryDelay.Ldexp, RetryDelay.TwoTo, RetryDelay.Min, RetryDelay.ExactThreshold;
    if j in db.jobs && Sound(db.jobs[j], options) {
      var exponent := if db.jobs[j].attempt == 0 then 0 else db.jobs[j].attempt - 1;
      RetryDelay.DelayIsCappedExponential(exponent, options.base, options.cap, options.jitter);
    }
  }

  /** A retry is scheduled exactly for the holder's error that is not final, with options the backoff accepts. */
  lemma RetriedWhen(db: Db, j: JobId, worker: WorkerId, attempt: nat, now: Time, error: LifecycleError,
                    options: RetryOptions)
    ensures RetryOrFail(db, j, worker, attempt, now, error, options).1 == Retried
            <==> && j in db.jobs && HeldBy(db.jobs[j], worker, attempt, now) && !Final(db.jobs[j], error)
                 && options.base > 0.0 && options.cap > 0.0 && options.jitter >= 0.0
  {
    hide FailJob, RetryDelay.Delay, RetryDelay.Ldexp, ErrorCode;
    if j in db.jobs {
      var n := db.jobs[j].attempt;
      RetryDelay.DelayInRange(if n >= 1 then n - 1 else 0, options.base, options.cap, options.jitter,
                              options.thresholdReached);
    }
  }

  lemma OutcomeStatus(db: Db, j: JobId, worker: WorkerId, attempt: nat, now: Time, error: LifecycleError,
                      options: RetryOptions)
    requires j in db.jobs
    ensures var (next, outcome) := RetryOrFail(db, j, worker, attempt, now, error, options);
            && j in next.jobs && next.jobs == db.jobs[j := next.jobs[j]]
            && next.jobs[j].status == (if outcome == Retried then RetryWait else if outcome == Terminal then Failed
                                       else db.jobs[j].status)
  {
    hide FailJob, FailedWith, RetryDelay.Delay, ErrorCode, Owns;
    FailedRow(db, j, now, ErrorCode(error));
  }

  lemma FailedRow(db: Db, j: JobId, now: Time, code: string)
    requires j in db.jobs
    ensures FailJob(db, j, now, code).Some? ==>
              var next := FailJob(db, j, now, code).value;
              j in next.jobs && next.jobs[j].status == Failed && next.jobs == db.jobs[j := next.jobs[j]]
  {
    hide FailJob;
    FailJobExactly(db, j, now, code);
  }

  /** What a terminal failure leaves: the job FAILED and released, its project in the failed state of the operation. */
  ghost predicate FailedWith(db: Db, next: Db, j: JobId, now: Time, code: string)
    requires j in db.jobs
  {
    var job := db.jobs[j];
    && j in next.jobs && next.jobs == db.jobs[j := next.jobs[j]]
    && next.jobs[j] == job.(status := Failed, errorCode := Some(code), lockedBy := None, lockExpiresAt := None,
                            finishedAt := Some(now))
    && next.grants == db.grants && next.spent == db.spent && next.registry == db.registry
    && next.keyIndex == db.keyIndex && next.slugIndex == db.slugIndex
    && job.project in db.projects && job.project in next.projects
    && next.projects == db.projects[job.project := next.projects[job.project]]
    && (job.operation == Reconcile ==> next.projects == db.projects && next.audit == db.audit)
    && (job.operation == Provision ==>
          && next.projects[job.project] == db.projects[job.project].(status := ProvisionFailed, updatedAt := now)
          && next.audit == db.audit + [FailedOperation("project.provision.failed", job.requestedBy, job.project, j,
                                                       job.attempt, code)])
    && (job.operation == Delete ==>
          && next.projects[job.project] == db.projects[job.project].(status := DeletionFailed, updatedAt := now)
          && next.audit == db.audit + [FailedOperation("project.delete.failed", job.requestedBy, job.project, j,
                                                       job.attempt, code)])
  }

  lemma FailJobExactly(db: Db, j: JobId, now: Time, code: string)
    requires j in db.jobs
    ensures FailJob(db, j, now, code).Some? <==> db.jobs[j].project in db.projects
    ensures FailJob(db, j, now, code).Some? ==> FailedWith(db, FailJob(db, j, now, code).value, j, now, code)
  {
    var job := db.jobs[j];
    if job.project in db.projects {
      var next := FailJob(db, j, now, code).value;
      assert next.jobs == db.jobs[j := next.jobs[j]];
      match job.operation {
        case Provision => FailedProject(db, next, job.project, ProvisionFailed, now);
        case Delete => FailedProject(db, next, job.project, DeletionFailed, now);
        case Reconcile => assert next.projects == db.projects;
      }
    }
  }

  lemma FailedProject(db: Db, next: Db, p: ProjectId, status: ProjectStatus, now: Time)
    requires p in db.projects && next.projects == WithStatus(db.projects, p, status, now)
    ensures p in next.projects && next.projects == db.projects[p := next.projects[p]]
    ensures next.projects[p] == db.projects[p].(status := status, updatedAt := now)
  {
  }

  lemma FinalErrorFails(db: Db, j: JobId, worker: WorkerId, attempt: nat, now: Time, error: LifecycleError,
                        options: RetryOptions)
    requires j in db.jobs && HeldBy(db.jobs[j], worker, attempt, now) && Final(db.jobs[j], error)
    requires db.jobs[j].project in db.projects
    ensures var (next, outcome) := RetryOrFail(db, j, worker, attempt, now, error, options);
            outcome == Terminal && FailedWith(db, next, j, now, Truncated(error.code))
  {
    hide FailJob, FailedWith;
    FailJobExactly(db, j, now, Truncated(error.code));
  }

  // ---- The claim ----

  /** Of the claimable jobs whose rows are free the query takes the first, whatever else is in the table. */
  lemma SelectedExactly(db: Db, now: Time, skip: set<JobId>, j: JobId)
    ensures SelectDue(db, now, skip) == Some(j)
            <==> && j in db.jobs && j !in skip && Claimable(db.jobs[j], now)
                 && forall k :: k in db.jobs && k !in skip && Claimable(db.jobs[k], now) && k != j ==>
                      Before(db.jobs[j], j, db.jobs[k], k)
    ensures SelectDue(db, now, skip) == None
            <==> forall k :: k in db.jobs && k !in skip ==> !Claimable(db.jobs[k], now)
  {
    assert forall k :: k in db.jobs ==> (Eligible(db, now, skip, k) <==> k !in skip && Claimable(db.jobs[k], now));
    assert forall i, k :: i in db.jobs && k in db.jobs && i != k ==>
      (Precedes(db.jobs[i], i, db.jobs[k], k) <==> Before(db.jobs[i], i, db.jobs[k], k));
    var selected := SelectDue(db, now, skip);
    if selected.Some? && selected.value != j && j in db.jobs {
      var i := selected.value;
      assert Before(db.jobs[i], i, db.jobs[j], j) ==> !Before(db.jobs[j], j, db.jobs[i], i);
    }
  }

  /**
   A claim takes the selected job unless it runs on its last attempt, which fails it. The row
   is leased to the worker from now on, with one more attempt; it starts with its first claim.
  */
  lemma ClaimExactly(db: Db, worker: WorkerId, now: Time, lease: Time, skip: set<JobId>, j: JobId)
    requires worker != "" && lease > 0.0 && SelectDue(db, now, skip) == Some(j) && j in db.jobs
    ensures var (next, outcome) := ClaimOnce(db, worker, now, lease, skip);
            var job := db.jobs[j];
            if job.status == Running && job.attempt >= job.maxAttempts then
              job.project in db.projects ==>
                outcome == ExpiredFinally(j) && FailedWith(db, next, j, now, "WORKER_LEASE_EXPIRED")
            else
              && outcome == Claimed(Claim(j, job.project, job.operation, job.attempt + 1, worker))
              && next == db.(jobs := db.jobs[j := next.jobs[j]])
              && next.jobs[j] == job.(status := Running, attempt := job.attempt + 1, lockedBy := Some(worker),
                                      lockExpiresAt := Some(now + lease), heartbeatAt := Some(now), finishedAt := None,
                                      startedAt := next.jobs[j].startedAt)
              && next.jobs[j].startedAt == (if job.startedAt == None then Some(now) else job.startedAt)
  {
    hide FailJob, FailedWith, SelectDue;
    FailJobExactly(db, j, now, LEASE_EXPIRED_CODE);
  }
}
