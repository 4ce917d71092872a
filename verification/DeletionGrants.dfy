/**
 A failed deletion can be requested again only with a grant issued after the failure:
 under a clock that never runs backwards the DELETE jobs of a project form a chain in
 which each one spends a grant created strictly after its predecessor failed.
*/
module DeletionGrants {
  import opened Options
  import opened Rows
  import opened LifecycleQueue
  import opened LifecycleRequests
  import opened ProvisionStore
  import opened StoreInvariant
  import opened LifecycleSystem
  import opened SystemInvariant
  import opened SagaSteps
  import opened WorkerSteps
  import opened LifecycleRuns

  /** Job `i` had failed before the grant that job `j` spent was created. */
  ghost predicate FailedBefore(db: Db, i: JobId, j: JobId)
    requires i in db.jobs
  {
    && db.jobs[i].status.Failed? && db.jobs[i].finishedAt.Some?
    && forall t :: t in db.spent && db.spent[t] == j && t in db.grants ==>
         db.grants[t].createdAt > db.jobs[i].finishedAt.value
  }

  ghost predicate JobTimes(db: Db, clock: Time) {
    forall j :: j in db.jobs ==>
      && db.jobs[j].createdAt <= clock
      && (Terminated(db.jobs[j]) ==>
            db.jobs[j].finishedAt.Some? && db.jobs[j].createdAt <= db.jobs[j].finishedAt.value <= clock)
  }

  ghost predicate GrantTimes(db: Db, clock: Time) {
    && (forall t :: t in db.grants ==> db.grants[t].createdAt <= clock)
    && (forall t :: t in db.spent && t in db.grants && db.spent[t] in db.jobs ==>
          db.grants[t].createdAt <= db.jobs[db.spent[t]].createdAt)
  }

  ghost predicate DeleteJobs(db: Db) {
    forall j :: j in db.jobs && db.jobs[j].operation.Delete? ==>
      && !db.jobs[j].status.Succeeded?
      && db.jobs[j].project in db.projects
      && (db.projects[db.jobs[j].project].status.Deleting? || db.projects[db.jobs[j].project].status.DeletionFailed?)
  }

  ghost predicate Rivals(db: Db, i: JobId, j: JobId) {
    i != j && i in db.jobs && j in db.jobs && db.jobs[i].operation.Delete? && db.jobs[j].operation.Delete?
    && db.jobs[i].project == db.jobs[j].project
  }

  ghost predicate Chained(db: Db) {
    forall i, j :: Rivals(db, i, j) ==> FailedBefore(db, i, j) || FailedBefore(db, j, i)
  }

  ghost predicate Timed(db: Db, clock: Time) {
    JobTimes(db, clock) && GrantTimes(db, clock) && DeleteJobs(db) && Chained(db)
  }

  // ---- The boundary ----

  lemma BoundaryCoversFailures(db: Db, p: ProjectId, i: JobId, clock: Time)
    requires StoreOk(db) && Timed(db, clock) && p in db.projects && FailedDelete(db, p, i)
    ensures db.jobs[i].finishedAt.Some? && db.jobs[i].finishedAt.value <= FailureBoundary(db, p)
  {
    hide Indexed, Fingerprinted, OneActive, Coupled, Audited, FailureBoundary;
    var l := BoundaryJob(db, p, i);
    if l != i {
      assert Rivals(db, i, l) && Rivals(db, l, i);
      var t :| SpentOn(db, t, l);
      var u :| SpentOn(db, u, i);
    }
  }

  lemma BoundaryJob(db: Db, p: ProjectId, i: JobId) returns (l: JobId)
    requires JobsOk(db) && p in db.projects && FailedDelete(db, p, i)
    ensures l in db.jobs && LatestFailure(db, p, l)
    ensures db.jobs[l].finishedAt.Some? && FailureBoundary(db, p) == db.jobs[l].finishedAt.value
  {
    LatestFailureExists(db, p);
    l :| l in db.jobs && LatestFailure(db, p, l);
    forall k | k in db.jobs && LatestFailure(db, p, k) ensures k == l {
      assert Newer(db.jobs[k], k, db.jobs[l], l) && Newer(db.jobs[l], l, db.jobs[k], k);
    }
    assert JobOk(db.jobs[l]);
  }

  // ---- One step ----

  /** How a step at instant `now` may touch the times of a job row. */
  ghost predicate RowTimes(a: Job, b: Job, now: Time) {
    && (Terminated(b) ==> b.finishedAt == if Terminated(a) then a.finishedAt else Some(now))
    && (a.operation.Delete? && b.status.Succeeded? ==> a.status.Succeeded?)
  }

  /** A step at `now` that makes no DELETE job and spends no grant. */
  ghost predicate TimedStep(db: Db, next: Db, now: Time) {
    && (forall j :: j in db.jobs ==> j in next.jobs && RowTimes(db.jobs[j], next.jobs[j], now))
    && (forall j :: j in next.jobs && j !in db.jobs ==>
          next.jobs[j].createdAt == now && next.jobs[j].status.Pending? && !next.jobs[j].operation.Delete?)
    && next.spent == db.spent
    && (forall t :: t in next.grants && t !in db.grants ==> next.grants[t].createdAt == now)
  }

  lemma StepTimes(db: Db, next: Db, clock: Time, now: Time)
    requires JobTimes(db, clock) && GrantTimes(db, clock) && clock <= now
    requires JobsEvolve(db, next) && GrantsEvolve(db, next) && TimedStep(db, next, now) && SpentRows(db)
    ensures JobTimes(next, now) && GrantTimes(next, now)
  {
  }

  lemma StepDeleteJobs(db: Db, next: Db, now: Time)
    requires DeleteJobs(db) && Evolves(db, next) && TimedStep(db, next, now)
    ensures DeleteJobs(next)
  {
    hide GrantsEvolve;
  }

  lemma TimedStepKeeps(db: Db, next: Db, clock: Time, now: Time)
    requires StoreOk(db) && Timed(db, clock) && clock <= now
    requires Evolves(db, next) && TimedStep(db, next, now)
    ensures Timed(next, now)
  {
    hide Indexed, Fingerprinted, OneActive, Coupled, Audited, JobsOk, JobTimes, GrantTimes, DeleteJobs, FailedBefore,
         EveryDeletionPaid;
    StepTimes(db, next, clock, now);
    StepDeleteJobs(db, next, now);
    forall i, j | Rivals(next, i, j) ensures FailedBefore(next, i, j) || FailedBefore(next, j, i) {
      assert Rivals(db, i, j);
      FailedBeforeKept(db, next, i, j);
      FailedBeforeKept(db, next, j, i);
    }
  }

  lemma FailedBeforeKept(db: Db, next: Db, i: JobId, j: JobId)
    requires GrantsOk(db) && GrantsEvolve(db, next) && JobsEvolve(db, next) && next.spent == db.spent && i in db.jobs
    ensures i in next.jobs && (FailedBefore(db, i, j) ==> FailedBefore(next, i, j))
  {
  }

  lemma LocalTimes(db: Db, next: Db, j: JobId, now: Time)
    requires j in db.jobs && j in next.jobs && next.jobs == db.jobs[j := next.jobs[j]]
    requires RowTimes(db.jobs[j], next.jobs[j], now) && next.grants == db.grants && next.spent == db.spent
    ensures TimedStep(db, next, now)
  {
  }

  lemma SameJobsTimes(db: Db, next: Db, now: Time)
    requires next.jobs == db.jobs && next.grants == db.grants && next.spent == db.spent
    ensures TimedStep(db, next, now)
  {
  }

  /** A failure stamps the job with the instant of the step. */
  lemma FailJobTimes(db: Db, j: JobId, now: Time, code: string)
    requires j in db.jobs && !Terminated(db.jobs[j])
    ensures FailJob(db, j, now, code).Some? ==> TimedStep(db, FailJob(db, j, now, code).value, now)
  {
    var next := FailJob(db, j, now, code);
    if next.Some? {
      LocalTimes(db, next.value, j, now);
    }
  }

  lemma LeaseTimes(db: Db, j: JobId, worker: WorkerId, now: Time, lease: Time)
    requires j in db.jobs && !Terminated(db.jobs[j])
    ensures TimedStep(db, db.(jobs := db.jobs[j := Leased(db.jobs[j], worker, now, lease)]), now)
  {
    hide TimedStep;
    var next := db.(jobs := db.jobs[j := Leased(db.jobs[j], worker, now, lease)]);
    assert next.jobs[j] == Leased(db.jobs[j], worker, now, lease);
    LocalTimes(db, next, j, now);
  }

  lemma SelectedIsActive(db: Db, now: Time, skip: set<JobId>)
    ensures var selected := SelectDue(db, now, skip);
            selected.Some? ==> selected.value in db.jobs && !Terminated(db.jobs[selected.value])
  {
    hide Precedes;
    var selected := SelectDue(db, now, skip);
    if selected.Some? { assert Eligible(db, now, skip, selected.value); }
  }

  lemma ClaimTimes(db: Db, worker: WorkerId, now: Time, lease: Time, skip: set<JobId>)
    requires StoreOk(db)
    ensures TimedStep(db, ClaimOnce(db, worker, now, lease, skip).0, now)
  {
    hide StoreOk, FailJob, SelectDue, TimedStep, Leased;
    SelectedIsActive(db, now, skip);
    var selected := SelectDue(db, now, skip);
    SameJobsTimes(db, db, now);
    if selected.Some? {
      LeaseTimes(db, selected.value, worker, now, lease);
      FailJobTimes(db, selected.value, now, LEASE_EXPIRED_CODE);
    }
  }

  lemma RetryOrFailTimes(db: Db, c: Claim, now: Time, error: LifecycleError, options: RetryOptions)
    ensures TimedStep(db, RetryOrFail(db, c.job, c.worker, c.attempt, now, error, options).0, now)
  {
    hide FailJob, TimedStep;
    var (next, outcome) := RetryOrFail(db, c.job, c.worker, c.attempt, now, error, options);
    match outcome {
      case Terminal => FailJobTimes(db, c.job, now, ErrorCode(error));
      case Retried => LocalTimes(db, next, c.job, now);
      case _ => SameJobsTimes(db, next, now);
    }
  }

  lemma HeartbeatTimes(db: Db, c: Claim, now: Time, lease: Time)
    ensures TimedStep(db, Heartbeat(db, c.job, c.worker, c.attempt, now, lease).0, now)
  {
    hide TimedStep;
    var (next, ok) := Heartbeat(db, c.job, c.worker, c.attempt, now, lease);
    if ok { LocalTimes(db, next, c.job, now); } else { SameJobsTimes(db, next, now); }
  }

  lemma CompleteTimes(db: Db, c: Claim, now: Time)
    requires c.job in db.jobs ==> !db.jobs[c.job].operation.Delete?
    ensures TimedStep(db, Complete(db, c.job, c.worker, c.attempt, now).0, now)
  {
    hide TimedStep;
    var (next, ok) := Complete(db, c.job, c.worker, c.attempt, now);
    if ok { LocalTimes(db, next, c.job, now); } else { SameJobsTimes(db, next, now); }
  }

  lemma SagaTimes(s: System, w: nat, c: Claim, at: Point, now: Time, answer: Answer)
    requires w in s.workers
    ensures TimedStep(s.db, AdvanceSaga(s, w, c, at, now, answer).db, now)
  {
    hide TimedStep, AdvanceSaga;
    SagaTouches(s, w, c, at, now, answer);
    var next := AdvanceSaga(s, w, c, at, now, answer).db;
    if c.job in s.db.jobs && next.jobs != s.db.jobs {
      LocalTimes(s.db, next, c.job, now);
    } else {
      SameJobsTimes(s.db, next, now);
    }
  }

  lemma WorkerTimes(s: System, w: nat, e: Event, now: Time)
    requires SystemOk(s) && w in s.workers && ClockOf(e) == Some(now) && !IsRequest(e)
    ensures TimedStep(s.db, WorkerNext(s, w, e).db, now)
  {
    hide StoreOk, LocksOk, DistinctClaims, LogOk, Blocks, InitRecorded, SagaOk, TimedStep, ClaimOnce, RetryOrFail,
         Heartbeat, Complete, AdvanceSaga;
    var pc := s.workers[w].pc;
    SameJobsTimes(s.db, s.db, now);
    match e {
      case ClaimTurn(_, _, lease, skip) => ClaimTimes(s.db, s.workers[w].id, now, lease, skip);
      case Beat(_, _, lease) => if !pc.Idle? { HeartbeatTimes(s.db, pc.claim, now, lease); }
      case Advance(_, _, answer) => if pc.InSaga? { SagaTimes(s, w, pc.claim, pc.at, now, answer); }
      case Finalize(_, _, options) =>
        if pc.Raised? {
          RetryOrFailTimes(s.db, pc.claim, now, pc.error, options);
        } else if pc.Returned? {
          assert WorkerOk(s, w);
          CompleteTimes(s.db, pc.claim, now);
        }
      case _ =>
    }
  }

  // ---- Requests ----

  /** A new pending job of another kind than DELETE is all that changes. */
  lemma NewJobTimes(db: Db, next: Db, j: JobId, now: Time)
    requires j !in db.jobs && j in next.jobs && next.jobs == db.jobs[j := next.jobs[j]]
    requires next.grants == db.grants && next.spent == db.spent
    requires next.jobs[j].createdAt == now && next.jobs[j].status.Pending? && !next.jobs[j].operation.Delete?
    ensures TimedStep(db, next, now)
  {
  }

  lemma CreateTimes(db: Db, e: Event)
    requires e.Create?
    ensures TimedStep(db, RequestNext(db, e), e.now)
  {
    hide TimedStep, HasActive;
    var next := RequestNext(db, e);
    SameJobsTimes(db, db, e.now);
    if next != db {
      NewJobTimes(db, next, e.job, e.now);
    }
  }

  lemma RetryTimes(db: Db, e: Event)
    requires e.Retry?
    ensures TimedStep(db, RequestNext(db, e), e.now)
  {
    hide TimedStep, HasActive, SameRequest;
    var next := RequestNext(db, e);
    SameJobsTimes(db, db, e.now);
    if next != db {
      NewJobTimes(db, next, e.job, e.now);
    }
  }

  lemma IssueTimes(db: Db, e: Event)
    requires e.IssueReauth?
    ensures TimedStep(db, RequestNext(db, e), e.now)
  {
    hide IssueGrant, TimedStep;
    IssueShape(db, e.user, e.project, e.token, e.now, e.ttl, e.check);
    var next := RequestNext(db, e);
    if next.grants == db.grants {
      SameJobsTimes(db, next, e.now);
    } else {
      NewGrantTimes(db, next, e.token, e.now);
    }
  }

  lemma NewGrantTimes(db: Db, next: Db, t: Token, now: Time)
    requires next.jobs == db.jobs && next.spent == db.spent
    requires t in next.grants && next.grants == db.grants[t := next.grants[t]] && next.grants[t].createdAt == now
    ensures TimedStep(db, next, now)
  {
  }

  lemma OtherRequestTimes(db: Db, e: Event, now: Time)
    requires IsRequest(e) && ClockOf(e) == Some(now) && !e.RequestDelete?
    ensures TimedStep(db, RequestNext(db, e), now)
  {
    if e.Create? {
      CreateTimes(db, e);
    } else if e.Retry? {
      RetryTimes(db, e);
    } else {
      IssueTimes(db, e);
    }
  }

  /** A new DELETE job `j` of project `p`, created at `now`, spends grant `t`. */
  ghost predicate NewDeletion(db: Db, next: Db, p: ProjectId, j: JobId, t: Token, now: Time) {
    && p in db.projects && !db.projects[p].status.Deleting? && j !in db.jobs && j in next.jobs
    && next.jobs == db.jobs[j := next.jobs[j]]
    && next.jobs[j].project == p && next.jobs[j].status.Pending? && next.jobs[j].operation.Delete?
    && next.jobs[j].createdAt == now
    && p in next.projects && next.projects[p].status.Deleting?
    && (forall q :: q in db.projects && q != p ==> q in next.projects && next.projects[q] == db.projects[q])
    && t in db.grants && t !in db.spent && next.spent == db.spent[t := j] && next.grants.Keys == db.grants.Keys
    && (db.projects[p].status.DeletionFailed? ==> db.grants[t].createdAt > FailureBoundary(db, p))
  }

  lemma NewDeletionTimes(db: Db, next: Db, p: ProjectId, j: JobId, t: Token, clock: Time, now: Time)
    requires GrantsOk(db) && JobTimes(db, clock) && GrantTimes(db, clock) && clock <= now && GrantsEvolve(db, next)
    requires NewDeletion(db, next, p, j, t, now)
    ensures JobTimes(next, now) && GrantTimes(next, now)
  {
    hide FailureBoundary, EveryDeletionPaid, GrantRows, SpentOnce;
  }

  lemma NewDeletionJobs(db: Db, next: Db, p: ProjectId, j: JobId, t: Token, now: Time)
    requires DeleteJobs(db) && NewDeletion(db, next, p, j, t, now)
    ensures DeleteJobs(next)
  {
    hide FailureBoundary;
  }

  lemma NewDeletionRows(db: Db, next: Db, p: ProjectId, j: JobId, t: Token, clock: Time, now: Time)
    requires GrantsOk(db) && Timed(db, clock) && clock <= now && GrantsEvolve(db, next)
    requires NewDeletion(db, next, p, j, t, now)
    ensures JobTimes(next, now) && GrantTimes(next, now) && DeleteJobs(next)
  {
    hide NewDeletion, GrantsOk, GrantsEvolve, JobTimes, GrantTimes, DeleteJobs, Chained;
    NewDeletionTimes(db, next, p, j, t, clock, now);
    NewDeletionJobs(db, next, p, j, t, now);
  }

  /** It comes with a grant newer than every failed deletion of its project. */
  /** Every earlier DELETE job of the project had failed before the grant now spent was created. */
  lemma SpentAfter(db: Db, next: Db, p: ProjectId, j: JobId, t: Token, now: Time, other: JobId)
    requires GrantsEvolve(db, next) && NewDeletion(db, next, p, j, t, now)
    requires other in db.jobs && db.jobs[other].status.Failed? && db.jobs[other].finishedAt.Some?
    requires db.grants[t].createdAt > db.jobs[other].finishedAt.value
    requires forall u :: u in db.spent ==> db.spent[u] != j
    ensures other in next.jobs && FailedBefore(next, other, j)
  {
    hide FailureBoundary;
  }

  /** Every earlier DELETE job of the project had failed before the grant now spent was created. */
  lemma OlderFailedBefore(db: Db, next: Db, p: ProjectId, j: JobId, t: Token, clock: Time, now: Time, other: JobId)
    requires StoreOk(db) && Timed(db, clock) && GrantsEvolve(db, next) && NewDeletion(db, next, p, j, t, now)
    requires other in db.jobs && other != j && db.jobs[other].operation.Delete? && db.jobs[other].project == p
    ensures other in next.jobs && FailedBefore(next, other, j)
  {
    hide Indexed, Fingerprinted, OneActive, Audited, JobTimes, GrantTimes, DeleteJobs, FailureBoundary, Coupled, JobsOk,
         Chained, GrantsOk, GrantsEvolve, FailedBefore;
    OldDeletionFailed(db, p, other);
    BoundaryCoversFailures(db, p, other, clock);
    NothingSpentYet(db, j);
    SpentAfter(db, next, p, j, t, now, other);
  }

  lemma NothingSpentYet(db: Db, j: JobId)
    requires GrantsOk(db) && j !in db.jobs
    ensures forall t :: t in db.spent ==> db.spent[t] != j
  {
    hide EveryDeletionPaid, GrantRows, SpentOnce;
  }

  lemma NewDeletionChains(db: Db, next: Db, p: ProjectId, j: JobId, t: Token, clock: Time, now: Time)
    requires StoreOk(db) && Timed(db, clock) && GrantsEvolve(db, next) && NewDeletion(db, next, p, j, t, now)
    ensures Chained(next)
  {
    hide Indexed, Fingerprinted, OneActive, Audited, JobTimes, GrantTimes, DeleteJobs, FailureBoundary, Coupled, JobsOk,
         EveryDeletionPaid, GrantRows, SpentOnce;
    forall i: JobId, k: JobId | Rivals(next, i, k) ensures FailedBefore(next, i, k) || FailedBefore(next, k, i) {
      if i != j && k != j {
        assert Rivals(db, i, k);
      } else {
        OlderFailedBefore(db, next, p, j, t, clock, now, if i == j then k else i);
      }
    }
  }

  /** While a project is not being deleted, all its DELETE jobs have failed. */
  lemma OldDeletionFailed(db: Db, p: ProjectId, i: JobId)
    requires JobsOk(db) && Coupled(db) && DeleteJobs(db)
    requires i in db.jobs && db.jobs[i].operation.Delete? && db.jobs[i].project == p
    requires p in db.projects && !db.projects[p].status.Deleting?
    ensures FailedDelete(db, p, i) && db.projects[p].status.DeletionFailed?
  {
    assert Active(db.jobs[i]) ==> ActiveFor(db, p, i);
  }

  /** A request that changes anything makes a new DELETE job. */
  lemma DeletionMade(db: Db, e: Event)
    requires Indexed(db) && GrantsOk(db) && e.RequestDelete? && RequestNext(db, e) != db
    ensures e.slug in db.slugIndex && e.reauth.Some?
    ensures NewDeletion(db, RequestNext(db, e), db.slugIndex[e.slug], e.job, e.reauth.value, e.now)
  {
    hide FailureBoundary;
  }

  lemma DeletionTimes(db: Db, e: Event, clock: Time)
    requires StoreOk(db) && Timed(db, clock) && e.RequestDelete? && clock <= e.now
    ensures Timed(RequestNext(db, e), e.now)
  {
    hide Indexed, GrantsOk, JobsOk, Fingerprinted, OneActive, Coupled, Audited, Timed, Evolves, RequestNext, NewDeletion;
    var next := RequestNext(db, e);
    if next == db {
      Aging(db, clock, e.now);
    } else {
      RequestStoreKeeps(db, e);
      EvolvesParts(db, next);
      DeletionMade(db, e);
      var p, t := db.slugIndex[e.slug], e.reauth.value;
      NewDeletionRows(db, next, p, e.job, t, clock, e.now);
      NewDeletionChains(db, next, p, e.job, t, clock, e.now);
      TimedParts(next, e.now);
    }
  }

  lemma EvolvesParts(db: Db, next: Db)
    requires Evolves(db, next)
    ensures GrantsEvolve(db, next) && ProjectsEvolve(db, next)
  {
  }

  lemma TimedParts(db: Db, clock: Time)
    requires JobTimes(db, clock) && GrantTimes(db, clock) && DeleteJobs(db) && Chained(db)
    ensures Timed(db, clock)
  {
  }

  lemma Aging(db: Db, clock: Time, now: Time)
    requires Timed(db, clock) && clock <= now
    ensures Timed(db, now)
  {
  }

  // ---- Runs under a clock that never runs backwards ----

  /** The clock readings of the run never decrease, and none exceeds `clock`. */
  ghost predicate Monotone(es: seq<Event>, clock: Time) {
    && (forall i, k :: 0 <= i < k < |es| && ClockOf(es[i]).Some? && ClockOf(es[k]).Some? ==>
          ClockOf(es[i]).value <= ClockOf(es[k]).value)
    && (forall i :: 0 <= i < |es| && ClockOf(es[i]).Some? ==> ClockOf(es[i]).value <= clock)
  }

  lemma TimedNext(s: System, e: Event, clock: Time, now: Time)
    requires SystemOk(s) && Timed(s.db, clock) && clock <= now
    requires ClockOf(e).Some? ==> clock <= ClockOf(e).value <= now
    ensures Timed(Next(s, e).db, now)
  {
    hide StoreOk, WorkersOk, LocksOk, DistinctClaims, LogOk, Blocks, InitRecorded, Timed, WorkerNext, RequestNext,
         Evolves, TimedStep;
    NextEvolves(s, e);
    Aging(s.db, clock, now);
    if ClockOf(e).Some? {
      var at := ClockOf(e).value;
      if e.RequestDelete? {
        DeletionTimes(s.db, e, clock);
        Aging(Next(s, e).db, at, now);
      } else if IsRequest(e) {
        OtherRequestTimes(s.db, e, at);
        TimedStepKeeps(s.db, Next(s, e).db, clock, at);
        Aging(Next(s, e).db, at, now);
      } else if e.w in s.workers {
        WorkerTimes(s, e.w, e, at);
        TimedStepKeeps(s.db, Next(s, e).db, clock, at);
        Aging(Next(s, e).db, at, now);
      }
    } else if e.w in s.workers {
      ClocklessKeepsDb(s, e.w, e);
    }
  }

  lemma ClocklessKeepsDb(s: System, w: nat, e: Event)
    requires w in s.workers && ClockOf(e).None?
    ensures WorkerNext(s, w, e).db == s.db
  {
  }

  lemma {:induction false} MonotoneRunTimed(es: seq<Event>, clock: Time)
    requires Monotone(es, clock)
    ensures Timed(Run(INIT, es).db, clock)
  {
    hide Next, Timed;
    if |es| == 0 {
      EmptyTimed(clock);
    } else {
      var front, last := es[..|es| - 1], es[|es| - 1];
      var before := if ClockOf(last).Some? then ClockOf(last).value else clock;
      MonotoneRunTimed(front, before);
      RunKeeps(front);
      TimedNext(Run(INIT, front), last, before, clock);
    }
  }

  lemma EmptyTimed(clock: Time)
    ensures Timed(EMPTY_DB, clock)
  {
  }

  /**
   Two DELETE jobs of one project were never created at the same instant, and the later
   one spent a grant created strictly after the earlier one had failed.
  */
  lemma DeletionsChain(es: seq<Event>, clock: Time, i: JobId, j: JobId, t: Token)
    requires Monotone(es, clock) && Rivals(Run(INIT, es).db, i, j)
    requires SpentOn(Run(INIT, es).db, t, j)
    requires Run(INIT, es).db.jobs[i].createdAt <= Run(INIT, es).db.jobs[j].createdAt
    ensures var db := Run(INIT, es).db;
            && db.jobs[i].createdAt < db.jobs[j].createdAt
            && db.jobs[i].status.Failed? && db.jobs[i].finishedAt.Some?
            && t in db.grants && db.grants[t].createdAt > db.jobs[i].finishedAt.value
  {
    hide Run, Next;
    MonotoneRunTimed(es, clock);
    RunKeeps(es);
    var db := Run(INIT, es).db;
    assert GrantsOk(db);
    var u :| SpentOn(db, u, i);
    assert FailedBefore(db, i, j) || FailedBefore(db, j, i);
  }
}
