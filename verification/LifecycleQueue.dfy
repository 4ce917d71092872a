/**
 The queue transactions as functions of the database: claiming a due job, and the three
 things a lease owner may do with it. Each function is one committed transaction;
 an unchanged database stands for a rollback.
*/
module LifecycleQueue {
  import opened Options
  import opened Rows
  import RetryDelay

  const LEASE_EXPIRED_CODE := "WORKER_LEASE_EXPIRED"

  datatype LifecycleError = LifecycleError(permanent: bool, code: string)

  datatype ClaimOutcome = NothingDue | Invalid | Broken | ExpiredFinally(job: JobId) | Claimed(claim: Claim)

  datatype RetryOutcome = LostOwnership | Rejected | Terminal | Retried

  datatype RetryOptions = RetryOptions(base: real, cap: real, jitter: real, thresholdReached: bool)

  /** The WHERE clause of the claim query. */
  predicate Due(job: Job, now: Time) {
    || ((job.status.Pending? || job.status.RetryWait?) && job.availableAt <= now)
    || (job.status.Running? && job.lockExpiresAt.Some? && job.lockExpiresAt.value <= now)
  }

  /** A due row that no other transaction has locked; `skip` are the rows SKIP LOCKED passes over. */
  predicate Eligible(db: Db, now: Time, skip: set<JobId>, j: JobId) {
    j in db.jobs && j !in skip && Due(db.jobs[j], now)
  }

  /** ORDER BY available_at, created_at, id. */
  predicate Precedes(a: Job, i: JobId, b: Job, j: JobId) {
    || a.availableAt < b.availableAt
    || (a.availableAt == b.availableAt
        && (a.createdAt < b.createdAt || (a.createdAt == b.createdAt && i <= j)))
  }

  predicate FirstDue(db: Db, now: Time, skip: set<JobId>, j: JobId) {
    && Eligible(db, now, skip, j)
    && forall k :: k in db.jobs && Eligible(db, now, skip, k) ==> Precedes(db.jobs[j], j, db.jobs[k], k)
  }

  lemma {:induction false} FirstExists(db: Db, candidates: set<JobId>) returns (j: JobId)
    requires candidates != {} && candidates <= db.jobs.Keys
    ensures j in candidates
    ensures forall k :: k in candidates ==> Precedes(db.jobs[j], j, db.jobs[k], k)
  {
    var c :| c in candidates;
    if candidates == {c} {
      j := c;
    } else {
      var r := FirstExists(db, candidates - {c});
      j := if Precedes(db.jobs[c], c, db.jobs[r], r) then c else r;
      forall k | k in candidates ensures Precedes(db.jobs[j], j, db.jobs[k], k) {
        if k != c { assert k in candidates - {c}; }
      }
    }
  }

  lemma FirstDueExists(db: Db, now: Time, skip: set<JobId>)
    requires exists j :: j in db.jobs && Eligible(db, now, skip, j)
    ensures exists j :: j in db.jobs && FirstDue(db, now, skip, j)
  {
    var candidates := set j | j in db.jobs && Eligible(db, now, skip, j);
    var some :| some in db.jobs && Eligible(db, now, skip, some);
    assert some in candidates;
    var j := FirstExists(db, candidates);
    assert FirstDue(db, now, skip, j);
  }

  /** LIMIT 1 over the ordered query. */
  function SelectDue(db: Db, now: Time, skip: set<JobId>): (r: Option<JobId>)
    ensures r.None? <==> !exists j :: j in db.jobs && Eligible(db, now, skip, j)
    ensures r.Some? ==> r.value in db.jobs && FirstDue(db, now, skip, r.value)
  {
    if exists j :: j in db.jobs && Eligible(db, now, skip, j) then
      FirstDueExists(db, now, skip);
      var j :| j in db.jobs && FirstDue(db, now, skip, j);
      Some(j)
    else
      None
  }

  /** `_fail_job`; None when the job has no project, which rolls the transaction back. */
  function FailJob(db: Db, j: JobId, now: Time, code: string): Option<Db>
    requires j in db.jobs
  {
    var job := db.jobs[j];
    var failed := job.(status := Failed, errorCode := Some(code), lockedBy := None,
                       lockExpiresAt := None, finishedAt := Some(now));
    if job.project !in db.projects then None
    else
      var jobs := db.jobs[j := failed];
      match job.operation
      case Provision =>
        Some(db.(jobs := jobs,
                 projects := WithStatus(db.projects, job.project, ProvisionFailed, now),
                 audit := db.audit + [FailedOperation("project.provision.failed", job.requestedBy,
                                                      job.project, j, job.attempt, code)]))
      case Delete =>
        Some(db.(jobs := jobs,
                 projects := WithStatus(db.projects, job.project, DeletionFailed, now),
                 audit := db.audit + [FailedOperation("project.delete.failed", job.requestedBy,
                                                      job.project, j, job.attempt, code)]))
      case Reconcile => Some(db.(jobs := jobs))
  }

  function ClaimOf(j: JobId, job: Job, worker: WorkerId): Claim {
    Claim(j, job.project, job.operation, job.attempt, worker)
  }

  function Leased(job: Job, worker: WorkerId, now: Time, lease: Time): Job {
    job.(status := Running, attempt := job.attempt + 1, lockedBy := Some(worker),
         lockExpiresAt := Some(now + lease), heartbeatAt := Some(now),
         startedAt := if job.startedAt.None? then Some(now) else job.startedAt, finishedAt := None)
  }

  /** One turn of the claim loop, which is one transaction. */
  function ClaimOnce(db: Db, worker: WorkerId, now: Time, lease: Time, skip: set<JobId>): (Db, ClaimOutcome) {
    if worker == "" || lease <= 0.0 then (db, Invalid)
    else
      match SelectDue(db, now, skip)
      case None => (db, NothingDue)
      case Some(j) =>
        var job := db.jobs[j];
        if job.status.Running? && job.attempt >= job.maxAttempts then
          match FailJob(db, j, now, LEASE_EXPIRED_CODE)
          case None => (db, Broken)
          case Some(failed) => (failed, ExpiredFinally(j))
        else
          var leased := Leased(job, worker, now, lease);
          (db.(jobs := db.jobs[j := leased]), Claimed(ClaimOf(j, leased, worker)))
  }

  /** The check of `_lock_owned_job`. */
  predicate Owns(db: Db, j: JobId, worker: WorkerId, attempt: nat, now: Time) {
    && j in db.jobs
    && db.jobs[j].status.Running?
    && db.jobs[j].lockedBy == Some(worker)
    && db.jobs[j].attempt == attempt
    && db.jobs[j].lockExpiresAt.Some?
    && db.jobs[j].lockExpiresAt.value > now
  }

  function Heartbeat(db: Db, j: JobId, worker: WorkerId, attempt: nat, now: Time, lease: Time): (Db, bool) {
    if lease <= 0.0 || !Owns(db, j, worker, attempt, now) then (db, false)
    else
      (db.(jobs := db.jobs[j := db.jobs[j].(heartbeatAt := Some(now), lockExpiresAt := Some(now + lease))]),
       true)
  }

  function Complete(db: Db, j: JobId, worker: WorkerId, attempt: nat, now: Time): (Db, bool) {
    if !Owns(db, j, worker, attempt, now) then (db, false)
    else
      var done := db.jobs[j].(status := Succeeded, lockedBy := None, lockExpiresAt := None,
                              errorCode := None, finishedAt := Some(now));
      (db.(jobs := db.jobs[j := done]), true)
  }

  function ErrorCode(error: LifecycleError): string {
    if |error.code| <= 64 then error.code else error.code[..64]
  }

  function RetryOrFail(db: Db, j: JobId, worker: WorkerId, attempt: nat, now: Time,
                       error: LifecycleError, options: RetryOptions): (Db, RetryOutcome)
  {
    if !Owns(db, j, worker, attempt, now) then (db, LostOwnership)
    else
      var job := db.jobs[j];
      if error.permanent || job.attempt >= job.maxAttempts then
        match FailJob(db, j, now, ErrorCode(error))
        case None => (db, Rejected)
        case Some(failed) => (failed, Terminal)
      else
        var exponent := if job.attempt >= 1 then job.attempt - 1 else 0;
        match RetryDelay.Delay(exponent, options.base, options.cap, options.jitter, options.thresholdReached)
        case None => (db, Rejected)
        case Some(delay) =>
          var waiting := job.(errorCode := Some(ErrorCode(error)), lockedBy := None, lockExpiresAt := None,
                              status := RetryWait, availableAt := now + delay, finishedAt := None);
          (db.(jobs := db.jobs[j := waiting]), Retried)
  }
}
