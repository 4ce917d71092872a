/**
 Main results about runs: the coupling of jobs and projects, the transition relation,
 the finality of deletion, fencing, and the bound on the work done for a job.
*/
module LifecycleRuns {
  import opened Options
  import opened Rows
  import opened LifecycleQueue
  import opened LifecycleRequests
  import opened ProvisionStore
  import opened StoreInvariant
  import opened LifecycleSystem
  import opened SystemInvariant
  import opened SystemSteps
  import opened SagaSteps
  import opened WorkerSteps

  // ---- One event ----

  lemma SagaEvolves(s: System, w: nat, c: Claim, at: Point, now: Time, answer: Answer)
    requires SystemOk(s) && w in s.workers && s.workers[w].pc == InSaga(c, at)
    ensures Evolves(s.db, AdvanceSaga(s, w, c, at, now, answer).db)
  {
    hide StoreOk, Evolves, LogOk, Blocks, InitRecorded, LocksOk, DistinctClaims, EvidenceOk, RegistryOk, Tail,
         Upsert, MarkMissing, PublishReady, LoadClaimedState;
    EvolvesReflexive(s.db);
    assert WorkerOk(s, w);
    var t := AdvanceSaga(s, w, c, at, now, answer);
    var generation := GenerationOf(s.db, c.project);
    if !answer.Fails? {
      match at {
        case Enter(step) => SetStepKeeps(s.db, c, step, now);
        case Record(action) => UpsertEvolves(s.db, c.project, generation, RecordedRow(action));
        case Saving(_, observed, k) =>
          if k < |observed| { UpsertEvolves(s.db, c.project, generation, observed[k]); }
        case Marking(_, observed) => MarkEvolves(s.db, c.project, generation, observed);
        case Publishing(_) => PublishKeeps(s.db, c, now);
        case _ =>
      }
    }
  }

  lemma UpsertEvolves(db: Db, p: ProjectId, generation: nat, row: Observed)
    requires StoreOk(db)
    ensures Evolves(db, Upsert(db, p, generation, row))
  {
    hide StoreOk, Evolves;
    RegistryOnly(db, Upsert(db, p, generation, row));
  }

  lemma MarkEvolves(db: Db, p: ProjectId, generation: nat, observed: seq<Observed>)
    requires StoreOk(db)
    ensures Evolves(db, MarkMissing(db, p, generation, observed))
  {
    hide StoreOk, Evolves;
    RegistryOnly(db, MarkMissing(db, p, generation, observed));
  }

  lemma WorkerEvolves(s: System, w: nat, e: Event)
    requires SystemOk(s) && w in s.workers
    ensures Evolves(s.db, WorkerNext(s, w, e).db)
  {
    hide StoreOk, Evolves, LogOk, Blocks, InitRecorded, LocksOk, DistinctClaims, SagaOk, AdvanceSaga,
         ClaimOnce, Heartbeat, Complete, RetryOrFail;
    EvolvesReflexive(s.db);
    var pc := s.workers[w].pc;
    match e {
      case ClaimTurn(_, now, lease, skip) => ClaimKeeps(s.db, s.workers[w].id, now, lease, skip);
      case Beat(_, now, lease) =>
        if !pc.Idle? { HeartbeatKeeps(s.db, pc.claim.job, pc.claim.worker, pc.claim.attempt, now, lease); }
      case Advance(_, now, answer) => if pc.InSaga? { SagaEvolves(s, w, pc.claim, pc.at, now, answer); }
      case Finalize(_, now, options) =>
        if pc.Raised? {
          RetryOrFailKeeps(s.db, pc.claim.job, pc.claim.worker, pc.claim.attempt, now, pc.error, options);
        } else if pc.Returned? {
          assert WorkerOk(s, w);
          CompleteKeeps(s.db, pc.claim.job, pc.claim.worker, pc.claim.attempt, now);
        }
      case _ =>
    }
  }

  lemma NextEvolves(s: System, e: Event)
    requires SystemOk(s)
    ensures Evolves(s.db, Next(s, e).db)
  {
    hide Evolves, StoreOk, WorkerNext, RequestNext;
    EvolvesReflexive(s.db);
    if IsRequest(e) {
      RequestStoreKeeps(s.db, e);
    } else if e.w in s.workers {
      WorkerEvolves(s, e.w, e);
    }
  }

  // ---- Runs ----

  lemma {:induction false} RunSplit(s: System, es: seq<Event>, more: seq<Event>)
    ensures Run(s, es + more) == Run(Run(s, es), more)
  {
    if |more| == 0 {
      assert es + more == es;
    } else {
      var front := more[..|more| - 1];
      assert (es + more)[..|es + more| - 1] == es + front;
      RunSplit(s, es, front);
    }
  }

  /** One more event: the invariant holds before, and the rows evolve in the step. */
  lemma RunStep(es: seq<Event>, e: Event)
    ensures SystemOk(Run(INIT, es))
    ensures Run(INIT, es + [e]) == Next(Run(INIT, es), e)
    ensures Evolves(Run(INIT, es).db, Run(INIT, es + [e]).db)
  {
    hide SystemOk, Evolves, Next;
    RunKeeps(es);
    assert (es + [e])[..|es|] == es;
    NextEvolves(Run(INIT, es), e);
  }

  /** A job row evolves over any further run, and a project stays where it is known. */
  lemma {:induction false} RunEvolvesJob(es: seq<Event>, more: seq<Event>, j: JobId)
    requires j in Run(INIT, es).db.jobs
    ensures j in Run(INIT, es + more).db.jobs
    ensures JobEvolves(Run(INIT, es).db.jobs[j], Run(INIT, es + more).db.jobs[j])
  {
    hide Next, SystemOk, Evolves, JobEvolves;
    if |more| == 0 {
      assert es + more == es;
      RowIsReflexive(Run(INIT, es).db.jobs[j]);
    } else {
      var front := more[..|more| - 1];
      RunEvolvesJob(es, front, j);
      RunStep(es + front, more[|more| - 1]);
      assert (es + front) + [more[|more| - 1]] == es + more;
      hide Run;
      EvolvesRow(Run(INIT, es + front).db, Run(INIT, es + more).db, j);
      EvolvesTransitive(Run(INIT, es).db.jobs[j], Run(INIT, es + front).db.jobs[j],
                        Run(INIT, es + more).db.jobs[j]);
    }
  }

  lemma RowIsReflexive(job: Job)
    ensures JobEvolves(job, job)
  {
  }

  lemma EvolvesRow(db: Db, next: Db, j: JobId)
    requires Evolves(db, next) && j in db.jobs
    ensures j in next.jobs && JobEvolves(db.jobs[j], next.jobs[j])
  {
  }

  lemma ProgressBounded(job: Job)
    requires JobOk(job)
    ensures 0 <= Progress(job) <= 2 * job.maxAttempts
  {
  }

  lemma EvolvesTransitive(a: Job, b: Job, d: Job)
    requires JobEvolves(a, b) && JobEvolves(b, d)
    ensures JobEvolves(a, d)
  {
  }

  // ---- Jobs and project status are coupled in every reachable state ----

  ghost predicate ActiveOf(db: Db, p: ProjectId, operation: Operation) {
    exists j :: ActiveFor(db, p, j) && db.jobs[j].operation == operation
  }

  lemma Coupling(es: seq<Event>, p: ProjectId)
    requires p in Run(INIT, es).db.projects
    ensures var db := Run(INIT, es).db;
            var status := db.projects[p].status;
            && (forall i, j :: ActiveFor(db, p, i) && ActiveFor(db, p, j) ==> i == j)
            && (ActiveOf(db, p, Provision) ==> status.Provisioning? || status.Ready?)
            && (status.Provisioning? ==> ActiveOf(db, p, Provision))
            && (status.Deleting? <==> ActiveOf(db, p, Delete))
  {
    RunKeeps(es);
    var db := Run(INIT, es).db;
    var status := db.projects[p].status;
    assert OneActive(db) && Coupled(db) && JobsOk(db);
    hide Run, SystemOk, StoreOk;
    if status.Provisioning? || status.Deleting? {
      var j :| j in db.jobs && ActiveFor(db, p, j);
      assert Fits(db.jobs[j], status);
    }
  }

  // ---- Which status changes happen ----

  /**
   The only pairs of statuses a step can connect: the allowed transitions, and READY to
   PROVISION_FAILED when a provision that had published READY fails without being completed.
  */
  lemma StatusTransitions(es: seq<Event>, e: Event, p: ProjectId)
    requires p in Run(INIT, es).db.projects
    ensures p in Run(INIT, es + [e]).db.projects
    ensures var db, next := Run(INIT, es).db, Run(INIT, es + [e]).db;
            var a, b := db.projects[p].status, next.projects[p].status;
            || a == b
            || (a, b) in ALLOWED_TRANSITIONS
            || (a.Ready? && b.ProvisionFailed? && exists j :: PublishedThenFailed(db, next, p, j))
  {
    hide Next, SystemOk;
    RunStep(es, e);
  }

  /** Once a deletion has been accepted the project stays in deletion for ever. */
  lemma {:induction false} DeletionIsFinal(es: seq<Event>, more: seq<Event>, p: ProjectId)
    requires p in Run(INIT, es).db.projects
    requires Run(INIT, es).db.projects[p].status.Deleting? || Run(INIT, es).db.projects[p].status.DeletionFailed?
    ensures var db := Run(INIT, es + more).db;
            p in db.projects && (db.projects[p].status.Deleting? || db.projects[p].status.DeletionFailed?)
  {
    hide Next;
    if |more| == 0 {
      assert es + more == es;
    } else {
      var front, last := more[..|more| - 1], more[|more| - 1];
      DeletionIsFinal(es, front, p);
      StatusTransitions(es + front, last, p);
      assert (es + front) + [last] == es + more;
    }
  }

  // ---- What the active-job index can reject ----

  /** A provision that has published READY and is not completed yet. */
  ghost predicate UnfinishedProvision(db: Db, p: ProjectId) {
    exists j :: ActiveFor(db, p, j) && db.jobs[j].operation.Provision? && db.jobs[j].step == Some(Published)
  }

  /** The request gets past every guard of a deletion, to the insert of its job. */
  predicate ReachesInsert(db: Db, slug: string, confirmation: string, key: Key, token: Option<Token>, actor: UserId,
                          now: Time, keyVisible: bool)
  {
    && ProjectWithSlug(db, slug).Some?
    && var p := ProjectWithSlug(db, slug).value;
       var status := db.projects[p].status;
       && VisibleJob(db, key, p, keyVisible).None?
       && (status.Ready? || status.ProvisionFailed? || status.DeletionFailed?)
       && confirmation == slug && GrantValid(db, token, actor, p, now)
  }

  /**
   Of the delete requests that pass every guard, the active-job index rejects exactly those for
   a READY project whose provision job is unfinished; and a reply that the request could not be
   queued, for a fresh identifier, means just that.
  */
  lemma DeletionRejectedByIndex(es: seq<Event>, slug: string, confirmation: string, key: Key, token: Option<Token>,
                                actor: UserId, newJob: JobId, now: Time, keyVisible: bool)
    requires ReachesInsert(Run(INIT, es).db, slug, confirmation, key, token, actor, now, keyVisible)
    ensures var db := Run(INIT, es).db;
            var p := db.slugIndex[slug];
            && slug in db.slugIndex && p in db.projects
            && RequestDeletion(db, slug, confirmation, key, token, actor, newJob, now, keyVisible)
               == QueueDeletion(db, p, slug, confirmation, key, token.value, actor, newJob, now)
            && (HasActive(db, p) <==> db.projects[p].status.Ready? && UnfinishedProvision(db, p))
            && (newJob in db.jobs || HasActive(db, p)
                || RequestDeletion(db, slug, confirmation, key, token, actor, newJob, now, keyVisible).1
                   != Refused(DeletionFailedToQueue))
  {
    hide FailureBoundary, Next;
    RunKeeps(es);
    var db := Run(INIT, es).db;
    var p := db.slugIndex[slug];
    assert Indexed(db) && Coupled(db);
    if HasActive(db, p) {
      var j :| j in db.jobs && ActiveFor(db, p, j);
      assert Fits(db.jobs[j], db.projects[p].status);
    }
  }

  /** That reply comes from the insert and from nowhere else. */
  lemma FailedToQueueAtInsert(db: Db, slug: string, confirmation: string, key: Key, token: Option<Token>,
                              actor: UserId, newJob: JobId, now: Time, keyVisible: bool)
    requires RequestDeletion(db, slug, confirmation, key, token, actor, newJob, now, keyVisible).1
             == Refused(DeletionFailedToQueue)
    ensures ReachesInsert(db, slug, confirmation, key, token, actor, now, keyVisible)
  {
    hide GrantValid, QueueDeletion;
  }

  /** While such a provision is unfinished, no new deletion of the project is accepted. */
  lemma UnfinishedProvisionBlocksDeletion(es: seq<Event>, slug: string, confirmation: string, key: Key,
                                          token: Option<Token>, actor: UserId, newJob: JobId, now: Time,
                                          keyVisible: bool)
    requires var db := Run(INIT, es).db;
             slug in db.slugIndex && UnfinishedProvision(db, db.slugIndex[slug])
    ensures var db := Run(INIT, es).db;
            RequestDeletion(db, slug, confirmation, key, token, actor, newJob, now, keyVisible).0 == db
  {
    hide FailureBoundary, Next;
    var db := Run(INIT, es).db;
    assert HasActive(db, db.slugIndex[slug]);
  }

  /** The index never rejects a retry: a refused insert is an identifier collision. */
  lemma RetryNeverRejectedByIndex(es: seq<Event>, slug: string, failedJob: JobId, user: UserId, key: Key,
                                  newJob: JobId, now: Time, keyVisible: bool)
    requires var db := Run(INIT, es).db;
             RetryProvision(db, slug, failedJob, user, key, newJob, now, keyVisible).1 == Refused(RetryConflict)
    ensures newJob in Run(INIT, es).db.jobs
  {
    hide Next;
    RunKeeps(es);
    var db := Run(INIT, es).db;
    assert Indexed(db);
    FailedIsIdle(db, db.slugIndex[slug]);
  }

  lemma FailedIsIdle(db: Db, p: ProjectId)
    requires StoreOk(db) && p in db.projects
    ensures db.projects[p].status.ProvisionFailed? || db.projects[p].status.DeletionFailed? ==> !HasActive(db, p)
  {
    hide Indexed, Fingerprinted, OneActive, Audited, GrantsOk;
  }

  /** Nor does it reject a creation: what fails there is a slug, a key or an identifier. */
  lemma CreateNeverRejectedByIndex(es: seq<Event>, p: ProjectId)
    requires p !in Run(INIT, es).db.projects
    ensures !HasActive(Run(INIT, es).db, p)
  {
    RunKeeps(es);
    var db := Run(INIT, es).db;
    assert Indexed(db);
  }

  // ---- Fencing ----

  /** The claim an event makes, if it makes one. */
  function ClaimMade(s: System, e: Event): Option<Claim> {
    if e.ClaimTurn? && e.w in s.workers && s.workers[e.w].pc.Idle? then
      match ClaimOnce(s.db, s.workers[e.w].id, e.now, e.lease, e.skip).1
      case Claimed(c) => Some(c)
      case _ => None
    else None
  }

  lemma ClaimRaisesAttempt(s: System, e: Event)
    requires ClaimMade(s, e).Some?
    ensures var c := ClaimMade(s, e).value;
            && c.job in s.db.jobs && c.attempt == s.db.jobs[c.job].attempt + 1
            && c.job in Next(s, e).db.jobs && Next(s, e).db.jobs[c.job].attempt == c.attempt
            && Next(s, e).db.jobs[c.job].lockedBy == Some(c.worker)
  {
    hide FirstDue, FailJob;
    SelectDueBasics(s.db, e.now, e.skip);
  }

  lemma AttemptsOnlyRise(es: seq<Event>, i: nat, k: nat, j: JobId)
    requires i <= k <= |es| && j in Run(INIT, es[..i]).db.jobs
    ensures j in Run(INIT, es[..k]).db.jobs
    ensures Run(INIT, es[..i]).db.jobs[j].attempt <= Run(INIT, es[..k]).db.jobs[j].attempt
  {
    hide Run;
    assert es[..k] == es[..i] + es[i..k];
    RunEvolvesJob(es[..i], es[i..k], j);
  }

  /** No two claims of a run are for the same attempt of the same job: a later one is a higher attempt. */
  lemma ClaimsAreUnique(es: seq<Event>, i: nat, k: nat)
    requires i < k < |es|
    requires ClaimMade(Run(INIT, es[..i]), es[i]).Some? && ClaimMade(Run(INIT, es[..k]), es[k]).Some?
    ensures var c, d := ClaimMade(Run(INIT, es[..i]), es[i]).value, ClaimMade(Run(INIT, es[..k]), es[k]).value;
            c.job == d.job ==> c.attempt < d.attempt
  {
    hide *;
    ClaimRaisesAttempt(Run(INIT, es[..i]), es[i]);
    ClaimRaisesAttempt(Run(INIT, es[..k]), es[k]);
    RunStep(es[..i], es[i]);
    assert es[..i] + [es[i]] == es[..i + 1];
    AttemptsOnlyRise(es, i + 1, k, ClaimMade(Run(INIT, es[..i]), es[i]).value.job);
  }

  /** The attempt has been overtaken by a reclaim, or its job is waiting or over. */
  predicate Fenced(job: Job, attempt: nat) {
    attempt < job.attempt || (attempt == job.attempt && !job.status.Running?)
  }

  /**
   A fenced attempt can never act again: at any later time, whatever clock reading and
   worker id it presents, heartbeat, completion and retry fail and change nothing.
  */
  lemma FencedForEver(es: seq<Event>, more: seq<Event>, j: JobId, attempt: nat, worker: WorkerId, now: Time,
                      lease: Time, error: LifecycleError, options: RetryOptions)
    requires j in Run(INIT, es).db.jobs && Fenced(Run(INIT, es).db.jobs[j], attempt)
    ensures var db := Run(INIT, es + more).db;
            && Heartbeat(db, j, worker, attempt, now, lease) == (db, false)
            && Complete(db, j, worker, attempt, now) == (db, false)
            && RetryOrFail(db, j, worker, attempt, now, error, options) == (db, LostOwnership)
  {
    hide Next;
    RunEvolvesJob(es, more, j);
  }

  /** SUCCEEDED and FAILED are absorbing: the row never changes again. */
  lemma TerminalIsAbsorbing(es: seq<Event>, more: seq<Event>, j: JobId)
    requires j in Run(INIT, es).db.jobs && Terminated(Run(INIT, es).db.jobs[j])
    ensures j in Run(INIT, es + more).db.jobs && Run(INIT, es + more).db.jobs[j] == Run(INIT, es).db.jobs[j]
  {
    hide Next;
    RunEvolvesJob(es, more, j);
  }

  /** For a running job, at every instant: its owner may act exactly when nobody may reclaim it. */
  lemma OwnerActsOrIsReclaimed(es: seq<Event>, j: JobId, now: Time)
    requires j in Run(INIT, es).db.jobs && Run(INIT, es).db.jobs[j].status.Running?
    ensures var db := Run(INIT, es).db;
            db.jobs[j].lockedBy.Some?
            && (Owns(db, j, db.jobs[j].lockedBy.value, db.jobs[j].attempt, now) <==> !Due(db.jobs[j], now))
  {
    hide Next;
    RunKeeps(es);
    assert JobsOk(Run(INIT, es).db);
  }

  // ---- Bounded work ----

  /** The last event of the run claims, retries or terminates the job. */
  predicate Works(es: seq<Event>, j: JobId)
    requires |es| > 0
  {
    var before, after := Run(INIT, es[..|es| - 1]).db, Run(INIT, es).db;
    j in before.jobs && j in after.jobs && !SameStage(before.jobs[j], after.jobs[j])
  }

  /** How many events of the run claim, retry or terminate the job. */
  function Work(es: seq<Event>, j: JobId): nat {
    if |es| == 0 then 0 else Work(es[..|es| - 1], j) + if Works(es, j) then 1 else 0
  }

  lemma ProgressStep(a: Job, b: Job)
    requires JobEvolves(a, b)
    ensures Progress(b) >= Progress(a) + if SameStage(a, b) then 0 else 1
  {
  }

  lemma {:induction false} WorkIsProgress(es: seq<Event>, j: JobId)
    ensures Work(es, j) <= if j in Run(INIT, es).db.jobs then Progress(Run(INIT, es).db.jobs[j]) else 0
  {
    if |es| > 0 {
      var front := es[..|es| - 1];
      WorkIsProgress(front, j);
      RunStep(front, es[|es| - 1]);
      assert front + [es[|es| - 1]] == es;
      RunKeeps(es);
      hide SystemOk, Evolves, JobEvolves, Progress, JobOk, SameStage, Run;
      if j in Run(INIT, es).db.jobs {
        JobIsInOrder(Run(INIT, es), j);
        if j in Run(INIT, front).db.jobs {
          EvolvesRow(Run(INIT, front).db, Run(INIT, es).db, j);
          ProgressStep(Run(INIT, front).db.jobs[j], Run(INIT, es).db.jobs[j]);
        }
      } else if j in Run(INIT, front).db.jobs {
        EvolvesRow(Run(INIT, front).db, Run(INIT, es).db, j);
      }
    }
  }

  lemma JobIsInOrder(s: System, j: JobId)
    requires SystemOk(s) && j in s.db.jobs
    ensures Progress(s.db.jobs[j]) >= 0
  {
    JobIsOk(s.db, j);
    ProgressBounded(s.db.jobs[j]);
  }

  /** Claims, retries and terminations of a job total at most twice its permitted attempts. */
  lemma BoundedWork(es: seq<Event>, j: JobId)
    requires j in Run(INIT, es).db.jobs
    ensures var job := Run(INIT, es).db.jobs[j];
            Work(es, j) <= 2 * job.maxAttempts
            && job.attempt <= job.maxAttempts
            && (job.status.Pending? || job.status.RetryWait? ==> job.attempt < job.maxAttempts)
  {
    hide Next;
    RunKeeps(es);
    JobIsOk(Run(INIT, es).db, j);
    ProgressBounded(Run(INIT, es).db.jobs[j]);
    WorkIsProgress(es, j);
  }
}
