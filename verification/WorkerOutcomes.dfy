/**
 How an attempt ends and what its steps record, said of the rows and the reports alone.
*/
module WorkerOutcomes {
  import opened Options
  import opened Rows
  import opened QueueOutcomes
  import opened LifecycleQueue
  import opened ProvisionStore
  import opened StoreInvariant
  import opened ProvisionOutcomes
  import opened LifecycleSystem
  import opened SystemInvariant
  import opened WorkerSteps
  import opened SagaSafety

  /** The error with which a step of the saga ends the attempt; None when it does not end so. */
  function EndsWith(db: Db, c: Claim, at: Point, now: Time, answer: Answer): Option<LifecycleError> {
    if answer.Fails? then Some(answer.error)
    else if at.LoadState? && HoldsJob(db, c, now) && !Resumable(db, c.project)
    then Some(LifecycleError(true, "FOREIGN_RESOURCE_CONFLICT"))
    else if at.Publishing? && HoldsJob(db, c, now) && c.project in db.projects && !Resumable(db, c.project)
    then Some(LifecycleError(true, "INVALID_LIFECYCLE_TRANSITION"))
    else if at.Checking? && !RequiredRunning(at.observed) then Some(LifecycleError(false, "TRANSIENT_LIFECYCLE_ERROR"))
    else None
  }

  /** The step finds that the attempt no longer holds its job. */
  predicate FindsLost(db: Db, c: Claim, at: Point, now: Time) {
    || ((at.LoadState? || at.Enter?) && !HoldsJob(db, c, now))
    || (at.Publishing? && !(HoldsJob(db, c, now) && c.project in db.projects))
  }

  /**
   A step of the saga raises exactly the errors of its place, gives up silently exactly when it
   finds its job lost, returns at the end, and otherwise goes on. Whoever leaves frees the lock.
  */
  lemma SagaEndsExactly(s: System, w: nat, c: Claim, at: Point, now: Time, answer: Answer)
    requires w in s.workers && s.workers[w].pc == InSaga(c, at)
    ensures var t := AdvanceSaga(s, w, c, at, now, answer);
            var pc := t.workers[w].pc;
            && (forall error :: pc == Raised(c, error) <==> EndsWith(s.db, c, at, now, answer) == Some(error))
            && (pc == Idle <==> !answer.Fails? && FindsLost(s.db, c, at, now))
            && (pc == Returned(c) <==> !answer.Fails? && at == Unlocking)
            && (pc.InSaga? || (pc in {Idle, Returned(c)} && t.db == s.db) || pc.Raised?)
            && (pc.Raised? ==> t.db == s.db && pc.claim == c)
            && (pc.InSaga? ==> pc.claim == c)
            && (!pc.InSaga? && c.project in s.locks && s.locks[c.project] == w ==> c.project !in t.locks)
  {
    hide RequiredRunning, HoldsJob, Upsert, MarkMissing, InitCompleted, LoadClaimedState, SetStep, PublishReady;
    LoadExactly(s.db, c, now);
    PublishExactly(s.db, c, now);
    if at.Enter? { SetStepExactly(s.db, c, at.step, now); }
  }

  /** A heartbeat that finds the job lost ends the attempt; one that is accepted prolongs the lease and nothing else. */
  lemma BeatExactly(s: System, w: nat, now: Time, lease: Time)
    requires w in s.workers && !s.workers[w].pc.Idle?
    ensures var t, c := Next(s, Beat(w, now, lease)), s.workers[w].pc.claim;
            var held := c.job in s.db.jobs && HeldBy(s.db.jobs[c.job], c.worker, c.attempt, now);
            && (t.workers[w].pc == Idle <==> lease > 0.0 && !held)
            && (lease <= 0.0 ==> t.workers[w].pc == Raised(c, LifecycleError(false, "TRANSIENT_LIFECYCLE_ERROR")))
            && (lease > 0.0 && held ==>
                  && t == s.(db := t.db) && t.db == s.db.(jobs := s.db.jobs[c.job := t.db.jobs[c.job]])
                  && t.db.jobs[c.job] == s.db.jobs[c.job].(heartbeatAt := Some(now), lockExpiresAt := Some(now + lease)))
            && (lease <= 0.0 || !held ==> t.db == s.db)
  {
    var c := s.workers[w].pc.claim;
    HeartbeatExactly(s.db, c.job, c.worker, c.attempt, now, lease);
    hide Heartbeat;
  }

  /** A heartbeat that breaks ends the attempt with its error, a crash ends it without one; the project's lock is free. */
  lemma BrokenExactly(s: System, w: nat, error: LifecycleError)
    requires w in s.workers && !s.workers[w].pc.Idle?
    ensures var c, broken, crashed := s.workers[w].pc.claim, Next(s, BeatBroken(w, error)), Next(s, Crash(w));
            && broken.workers == s.workers[w := Worker(s.workers[w].id, Raised(c, error))]
            && crashed.workers == s.workers[w := Worker(s.workers[w].id, Idle)]
            && broken.db == s.db && crashed.db == s.db && broken.log == s.log && crashed.log == s.log
            && broken.locks == crashed.locks
            && (c.project in broken.locks <==> c.project in s.locks && s.locks[c.project] != w)
            && forall p :: p != c.project ==> (p in broken.locks <==> p in s.locks)
  {
  }

  /**
   In every run, an attempt that comes to its last check goes on to publish exactly when its
   inspection after readiness reported all five services as running and not unwell.
  */
  lemma LastCheckExactly(es: seq<Event>, w: nat, c: Claim, observed: seq<Observed>, now: Time, answer: Answer)
    requires var s := Run(INIT, es); w in s.workers && s.workers[w].pc == InSaga(c, Checking(observed))
    requires !answer.Fails?
    ensures var s := Run(INIT, es);
            ChecksReports(s, c, observed, AdvanceSaga(s, w, c, Checking(observed), now, answer).workers[w].pc)
  {
    hide *;
    RunKeeps(es);
    var s := Run(INIT, es);
    var i, j, reports := SeenAtCheck(s, w, c, observed);
    RequiredRunningExactly(reports);
    CheckStep(s, w, c, observed, now, answer);
    assert ChecksReports(s, c, observed, AdvanceSaga(s, w, c, Checking(observed), now, answer).workers[w].pc) by {
      ReportsChecked(s, c, observed, j, reports, AdvanceSaga(s, w, c, Checking(observed), now, answer).workers[w].pc);
    }
  }

  /** Of the reports that the attempt saw after readiness, all five services serve, or the attempt ends in a passing error. */
  ghost predicate ChecksReports(s: System, c: Claim, observed: seq<Observed>, pc: Pc) {
    exists j: int, reports ::
      && DidAt(s.log, c, Inspected(AfterReadiness, reports), j)
      && (if AllServe(reports) then pc == InSaga(c, Publishing(observed))
          else pc == Raised(c, LifecycleError(false, "TRANSIENT_LIFECYCLE_ERROR")))
  }

  lemma ReportsChecked(s: System, c: Claim, observed: seq<Observed>, j: int, reports: seq<ContainerReport>, pc: Pc)
    requires DidAt(s.log, c, Inspected(AfterReadiness, reports), j)
    requires if AllServe(reports) then pc == InSaga(c, Publishing(observed))
             else pc == Raised(c, LifecycleError(false, "TRANSIENT_LIFECYCLE_ERROR"))
    ensures ChecksReports(s, c, observed, pc)
  {
    hide AllServe, DidAt;
  }

  lemma CheckStep(s: System, w: nat, c: Claim, observed: seq<Observed>, now: Time, answer: Answer)
    requires w in s.workers && !answer.Fails?
    ensures w in AdvanceSaga(s, w, c, Checking(observed), now, answer).workers
    ensures AdvanceSaga(s, w, c, Checking(observed), now, answer).workers[w].pc
            == if RequiredRunning(observed) then InSaga(c, Publishing(observed))
               else Raised(c, LifecycleError(false, "TRANSIENT_LIFECYCLE_ERROR"))
  {
    hide RequiredRunning;
  }

  lemma SeenAtCheck(s: System, w: nat, c: Claim, observed: seq<Observed>)
    returns (i: int, j: int, reports: seq<ContainerReport>)
    requires SystemOk(s) && w in s.workers && s.workers[w].pc == InSaga(c, Checking(observed))
    ensures DidAt(s.log, c, Inspected(AfterReadiness, reports), j) && Inspection(reports) == observed
  {
    hide StoreOk, LogOk, Blocks, InitRecorded, LocksOk, DistinctClaims, RegistryOk, EvidenceOk, Tail, DidAt, Inspection,
         WrittenAfterReady, ClaimOk, Live;
    assert WorkerOk(s, w);
    assert WritesOk(s.log, c, Checking(observed));
    i, j, reports :|
      0 <= i < j && DidAt(s.log, c, Performed(WaitReady), i) && DidAt(s.log, c, Inspected(AfterReadiness, reports), j)
      && Inspection(reports) == observed;
  }

  /** In every run the init service is started only where the registry does not say that it has exited. */
  lemma InitIsNotRepeated(es: seq<Event>, e: Event, i: nat)
    requires var s, t := Run(INIT, es), Next(Run(INIT, es), e);
             |s.log| <= i < |t.log| && t.log[i].kind == Performed(RunInit)
    ensures var s, effect := Run(INIT, es), Next(Run(INIT, es), e).log[i];
            var key := ResourceKey(effect.project, effect.generation, "airflow-init");
            !(key in s.db.registry && s.db.registry[key] == Resource(Container, "exited"))
  {
    hide *;
    RunKeeps(es);
    var s := Run(INIT, es);
    OnlyAdvanceLogs(s, e);
    var pc := s.workers[e.w].pc;
    AdvanceLogs(s, e, pc, i);
    StartsInitOnce(s, e.w, pc.claim);
  }

  lemma AdvanceLogs(s: System, e: Event, pc: Pc, i: nat)
    requires e.Advance? && e.w in s.workers && s.workers[e.w].pc == pc && pc.InSaga?
    requires |s.log| <= i < |Next(s, e).log| && Next(s, e).log[i].kind == Performed(RunInit)
    ensures pc.at == Act(RunInit)
    ensures Next(s, e).log[i].project == pc.claim.project
            && Next(s, e).log[i].generation == GenerationOf(s.db, pc.claim.project)
  {
    hide AdvanceSaga;
    LogsItsPoint(s, e.w, pc.claim, pc.at, e.now, e.answer);
  }

  lemma StartsInitOnce(s: System, w: nat, c: Claim)
    requires SystemOk(s) && w in s.workers && s.workers[w].pc == InSaga(c, Act(RunInit))
    ensures var key := ResourceKey(c.project, GenerationOf(s.db, c.project), "airflow-init");
            !(key in s.db.registry && s.db.registry[key] == Resource(Container, "exited"))
  {
    hide StoreOk, LogOk, Blocks, InitRecorded, LocksOk, DistinctClaims, EvidenceOk, Tail, ClaimOk, Live;
    assert WorkerOk(s, w);
    assert RegistryOk(s.db, c, Act(RunInit));
  }

  lemma OnlyAdvanceLogs(s: System, e: Event)
    requires |s.log| < |Next(s, e).log|
    ensures e.Advance? && e.w in s.workers && s.workers[e.w].pc.InSaga?
  {
    hide AdvanceSaga, ClaimOnce, Heartbeat, Complete, RetryOrFail, RequestNext;
  }

  /** A step logs at most one effect: of its place, for its own attempt. */
  lemma LogsItsPoint(s: System, w: nat, c: Claim, at: Point, now: Time, answer: Answer)
    requires w in s.workers
    ensures var log := AdvanceSaga(s, w, c, at, now, answer).log;
            || log == s.log
            || (&& |log| == |s.log| + 1 && log[..|s.log|] == s.log
                && var effect := log[|s.log|];
                   && effect.project == c.project && effect.generation == GenerationOf(s.db, c.project)
                   && effect.job == c.job && effect.attempt == c.attempt
                   && (forall action :: effect.kind == Performed(action) <==> at == Act(action)))
  {
    hide RequiredRunning, InitCompleted, LoadClaimedState, SetStep, PublishReady, StepNumber, Inspection, RecordedRow;
    match at {
      case Act(_) =>
      case Inspecting(_) =>
      case Record(_) =>
      case Saving(_, _, _) =>
      case Marking(_, _) =>
      case _ =>
    }
  }

  /** The three rows recorded outside an inspection: the role, the database and the rendered artifact. */
  lemma RecordingExactly(s: System, w: nat, c: Claim, action: Action, now: Time, answer: Answer)
    requires w in s.workers && s.workers[w].pc == InSaga(c, Record(action)) && !answer.Fails?
    requires action == EnsureRole || action == EnsureDatabase || action == RenderArtifact
    ensures var t, generation := AdvanceSaga(s, w, c, Record(action), now, answer), GenerationOf(s.db, c.project);
            var name := if action == EnsureRole then "role" else if action == EnsureDatabase then "database"
                        else "runtime_artifact";
            && t.db == s.db.(registry := t.db.registry)
            && t.db.registry
               == s.db.registry[ResourceKey(c.project, generation, name) :=
                                  if action == EnsureRole then Resource(DatabaseRoleResource, "present")
                                  else if action == EnsureDatabase then Resource(DatabaseResource, "present")
                                  else Resource(ProxyRoute, "rendered")]
  {
  }
}
