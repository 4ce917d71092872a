/**
 Main results about the provisioning saga: READY is earned, attempts never interleave,
 and an attempt that lost its lease does nothing beyond the step it is in.
*/
module SagaSafety {
  import opened Options
  import opened Rows
  import opened LifecycleQueue
  import opened LifecycleRequests
  import opened ProvisionStore
  import opened StoreInvariant
  import opened LifecycleSystem
  import opened SystemInvariant
  import opened SystemSteps
  import opened SagaSteps
  import opened WorkerSteps
  import opened LifecycleRuns

  // ---- READY is earned ----

  ghost predicate NoNewReady(db: Db, next: Db) {
    forall p :: p in next.projects && next.projects[p].status.Ready? ==>
      p in db.projects && db.projects[p].status.Ready?
  }

  lemma FailJobNotReady(db: Db, j: JobId, now: Time, code: string)
    requires j in db.jobs
    ensures FailJob(db, j, now, code).Some? ==> NoNewReady(db, FailJob(db, j, now, code).value)
  {
    var next := FailJob(db, j, now, code);
    if next.Some? {
      var p := db.jobs[j].project;
      assert next.value.projects == db.projects
             || next.value.projects == WithStatus(db.projects, p, ProvisionFailed, now)
             || next.value.projects == WithStatus(db.projects, p, DeletionFailed, now);
      hide FailJob;
    }
  }

  lemma CreateNotReady(db: Db, e: Event)
    requires e.Create?
    ensures NoNewReady(db, RequestNext(db, e))
  {
    hide HasActive;
  }

  lemma RetryNotReady(db: Db, e: Event)
    requires e.Retry?
    ensures NoNewReady(db, RequestNext(db, e))
  {
    hide HasActive, SameRequest, VisibleJob;
  }

  lemma DeleteNotReady(db: Db, e: Event)
    requires e.RequestDelete?
    ensures NoNewReady(db, RequestNext(db, e))
  {
    hide HasActive, SameRequest, VisibleJob, GrantValid;
  }

  lemma RequestNotReady(db: Db, e: Event)
    requires IsRequest(e)
    ensures NoNewReady(db, RequestNext(db, e))
  {
    hide RequestNext, NoNewReady;
    match e {
      case Create(_, _, _, _, _, _, _, _) => CreateNotReady(db, e);
      case Retry(_, _, _, _, _, _, _) => RetryNotReady(db, e);
      case IssueReauth(_, _, _, _, _, _) => IssueNotReady(db, e);
      case RequestDelete(_, _, _, _, _, _, _, _) => DeleteNotReady(db, e);
    }
  }

  lemma IssueNotReady(db: Db, e: Event)
    requires e.IssueReauth?
    ensures NoNewReady(db, RequestNext(db, e))
  {
    hide IssueGrant;
    IssueShape(db, e.user, e.project, e.token, e.now, e.ttl, e.check);
  }

  lemma SameProjectsNotReady(db: Db, next: Db)
    requires next.projects == db.projects
    ensures NoNewReady(db, next)
  {
  }

  lemma ClaimNotReady(db: Db, worker: WorkerId, now: Time, lease: Time, skip: set<JobId>)
    ensures NoNewReady(db, ClaimOnce(db, worker, now, lease, skip).0)
  {
    hide FailJob, FirstDue, SelectDue, NoNewReady;
    SelectDueBasics(db, now, skip);
    SameProjectsNotReady(db, db);
    var (next, outcome) := ClaimOnce(db, worker, now, lease, skip);
    match outcome {
      case ExpiredFinally(j) => FailJobNotReady(db, j, now, LEASE_EXPIRED_CODE);
      case _ => SameProjectsNotReady(db, next);
    }
  }

  lemma RetryOrFailNotReady(db: Db, c: Claim, now: Time, error: LifecycleError, options: RetryOptions)
    ensures NoNewReady(db, RetryOrFail(db, c.job, c.worker, c.attempt, now, error, options).0)
  {
    hide FailJob, NoNewReady;
    SameProjectsNotReady(db, db);
    var (next, outcome) := RetryOrFail(db, c.job, c.worker, c.attempt, now, error, options);
    if outcome.Terminal? {
      FailJobNotReady(db, c.job, now, ErrorCode(error));
    } else {
      SameProjectsNotReady(db, next);
    }
  }

  lemma SagaKeepsProjects(s: System, w: nat, c: Claim, at: Point, now: Time, answer: Answer)
    requires w in s.workers && !at.Publishing?
    ensures AdvanceSaga(s, w, c, at, now, answer).db.projects == s.db.projects
  {
    hide AdvanceSaga;
    SagaTouches(s, w, c, at, now, answer);
  }

  lemma WorkerNotReady(s: System, w: nat, e: Event)
    requires w in s.workers
    requires !(e.Advance? && s.workers[w].pc.InSaga? && s.workers[w].pc.at.Publishing?)
    ensures NoNewReady(s.db, WorkerNext(s, w, e).db)
  {
    hide NoNewReady, ClaimOnce, RetryOrFail, AdvanceSaga;
    var t := WorkerNext(s, w, e);
    if e.ClaimTurn? && s.workers[w].pc.Idle? {
      ClaimNotReady(s.db, s.workers[w].id, e.now, e.lease, e.skip);
    } else if e.Finalize? && s.workers[w].pc.Raised? {
      RetryOrFailNotReady(s.db, s.workers[w].pc.claim, e.now, s.workers[w].pc.error, e.options);
    } else {
      if e.Advance? && s.workers[w].pc.InSaga? {
        SagaKeepsProjects(s, w, s.workers[w].pc.claim, s.workers[w].pc.at, e.now, e.answer);
      }
      SameProjectsNotReady(s.db, t.db);
    }
    SameProjectsNotReady(s.db, s.db);
  }

  /** The worker stands at the publication of project `p`, with everything behind it. */
  ghost predicate ReadyEarned(s: System, w: nat, p: ProjectId, now: Time)
    requires w in s.workers && s.workers[w].pc.InSaga? && s.workers[w].pc.at.Publishing?
  {
    var c := s.workers[w].pc.claim;
    && c.project == p && OwnsClaim(s.db, c, now)
    && Did(s.log, c, Performed(EnsureRole)) && Did(s.log, c, Performed(EnsureDatabase))
    && Did(s.log, c, Performed(RenderArtifact)) && Did(s.log, c, Performed(StartServices))
    && InitRan(s.log, p, GenerationOf(s.db, p))
    && exists reports :: SeenServing(s, c, reports)
  }

  /**
   After readiness the attempt inspected the resources; the reports say that all five services
   serve, and from them it wrote the rows that the registry still shows.
  */
  ghost predicate SeenServing(s: System, c: Claim, reports: seq<ContainerReport>) {
    && AllServe(reports)
    && (exists i, j :: 0 <= i < j && DidAt(s.log, c, Performed(WaitReady), i)
                       && DidAt(s.log, c, Inspected(AfterReadiness, reports), j))
    && (forall name :: name in REQUIRED_SERVICES ==>
          && RegistryRow(s.db, c.project, name, "running")
          && WrittenAfterReady(s.log, c, Inspection(reports), Observed(Container, name, "running")))
  }

  lemma ServingSeen(s: System, c: Claim, observed: seq<Observed>)
    requires ObservedAfterReady(s.log, c, observed) && RequiredRunning(observed)
    requires forall name :: name in REQUIRED_SERVICES ==>
               && RegistryRow(s.db, c.project, name, "running")
               && WrittenAfterReady(s.log, c, observed, Observed(Container, name, "running"))
    ensures exists reports :: SeenServing(s, c, reports)
  {
    hide Inspection, RequiredRunning, AllServe, WrittenAfterReady, RegistryRow;
    var i, j, reports :| 0 <= i < j && DidAt(s.log, c, Performed(WaitReady), i)
                         && DidAt(s.log, c, Inspected(AfterReadiness, reports), j) && Inspection(reports) == observed;
    RequiredRunningExactly(reports);
    assert SeenServing(s, c, reports);
  }

  /**
   In every run, a step that turns a project READY is the publication of a live lease
   owner whose attempt ensured role and database, rendered the artifact and passed
   readiness, after some successful init of this generation; and its inspection after
   readiness reported all five required services as running and not unwell, in rows that
   this attempt wrote from it and the registry shows.
  */
  lemma ReadyIsEarned(es: seq<Event>, e: Event, p: ProjectId)
    requires p in Run(INIT, es).db.projects && !Run(INIT, es).db.projects[p].status.Ready?
    requires p in Next(Run(INIT, es), e).db.projects && Next(Run(INIT, es), e).db.projects[p].status.Ready?
    ensures var s := Run(INIT, es);
            e.Advance? && e.w in s.workers && s.workers[e.w].pc.InSaga? && s.workers[e.w].pc.at.Publishing?
            && ReadyEarned(s, e.w, p, e.now)
  {
    hide StoreOk, LocksOk, DistinctClaims, LogOk, Blocks, InitRecorded, Run, WorkerNext, RequestNext, EvidenceOk,
         RegistryShows, WrittenUpTo, ObservedAfterReady, WrittenAfterReady, SeenServing, RequiredRunning;
    var s := Run(INIT, es);
    RunKeeps(es);
    if IsRequest(e) {
      RequestNotReady(s.db, e);
    } else if e.w in s.workers {
      if !(e.Advance? && s.workers[e.w].pc.InSaga? && s.workers[e.w].pc.at.Publishing?) {
        WorkerNotReady(s, e.w, e);
      } else {
        assert WorkerOk(s, e.w);
        PublishedByOwner(s, e.w, e, p);
        var c := s.workers[e.w].pc.claim;
        EvidenceAtPublishing(s.db, s.log, c, s.workers[e.w].pc.at.observed);
        RunningRows(s.db, c.project, s.workers[e.w].pc.at.observed);
        RunningWritten(s.log, c, s.workers[e.w].pc.at.observed);
        ServingSeen(s, c, s.workers[e.w].pc.at.observed);
      }
    }
  }

  lemma PublishedByOwner(s: System, w: nat, e: Event, p: ProjectId)
    requires e.Advance? && w in s.workers && s.workers[w].pc.InSaga? && s.workers[w].pc.at.Publishing?
    requires p in s.db.projects && !s.db.projects[p].status.Ready?
    requires p in WorkerNext(s, w, e).db.projects && WorkerNext(s, w, e).db.projects[p].status.Ready?
    ensures s.workers[w].pc.claim.project == p && OwnsClaim(s.db, s.workers[w].pc.claim, e.now)
  {
  }

  lemma EvidenceAtPublishing(db: Db, log: seq<Effect>, c: Claim, observed: seq<Observed>)
    requires EvidenceOk(db, log, c, Publishing(observed))
    ensures Did(log, c, Performed(EnsureRole)) && Did(log, c, Performed(EnsureDatabase))
    ensures Did(log, c, Performed(RenderArtifact)) && Did(log, c, Performed(StartServices))
    ensures Did(log, c, Performed(WaitReady)) && InspectedAfterReady(log, c)
    ensures InitRan(log, c.project, GenerationOf(db, c.project))
  {
    var at := Publishing(observed);
    assert Needs(at, EnsureRole) && Needs(at, EnsureDatabase) && Needs(at, RenderArtifact);
    assert Needs(at, StartServices) && Needs(at, WaitReady);
  }

  lemma RunningRows(db: Db, p: ProjectId, observed: seq<Observed>)
    requires RegistryShows(db, p, observed) && RequiredRunning(observed)
    ensures forall name :: name in REQUIRED_SERVICES ==> RegistryRow(db, p, name, "running")
  {
  }

  lemma {:induction false} StatusHasRow(observed: seq<Observed>, name: string) returns (k: nat)
    requires LastStatus(observed, name).Some?
    ensures k < |observed| && observed[k] == Observed(Container, name, LastStatus(observed, name).value)
  {
    k := |observed| - 1;
    if !(observed[k].kind.Container? && observed[k].name == name) {
      k := StatusHasRow(observed[..k], name);
    }
  }

  lemma RunningWritten(log: seq<Effect>, c: Claim, observed: seq<Observed>)
    requires WrittenUpTo(log, c, observed, |observed|) && RequiredRunning(observed)
    ensures ObservedAfterReady(log, c, observed)
    ensures forall name :: name in REQUIRED_SERVICES ==>
              WrittenAfterReady(log, c, observed, Observed(Container, name, "running"))
  {
    hide WrittenAfterReady, ObservedAfterReady;
    forall name | name in REQUIRED_SERVICES
      ensures WrittenAfterReady(log, c, observed, Observed(Container, name, "running"))
    {
      var k := StatusHasRow(observed, name);
      assert WrittenAfterReady(log, c, observed, observed[k]);
    }
  }

  // ---- What the reports of an inspection must say ----

  /** Report number `k` is the last one of the service, and it says that the service runs and is not unwell. */
  predicate ServesAt(reports: seq<ContainerReport>, name: string, k: nat) {
    && k < |reports| && reports[k].service == name
    && (forall i :: k < i < |reports| ==> reports[i].service != name)
    && reports[k].state == "running"
    && (reports[k].health == "" || reports[k].health == "healthy" || reports[k].health == "running")
  }

  ghost predicate Serves(reports: seq<ContainerReport>, name: string) { exists k :: ServesAt(reports, name, k) }

  /** All five services serve, by their last reports. */
  ghost predicate AllServe(reports: seq<ContainerReport>) {
    && Serves(reports, "project-redis") && Serves(reports, "airflow-api-server") && Serves(reports, "airflow-scheduler")
    && Serves(reports, "airflow-dag-processor") && Serves(reports, "airflow-worker")
  }

  lemma ServesByLast(reports: seq<ContainerReport>, name: string)
    requires reports != [] && reports[|reports| - 1].service == name
    ensures Serves(reports, name) <==> ContainerStatus(reports[|reports| - 1]) == "running"
  {
    var n := |reports| - 1;
    if k :| ServesAt(reports, name, k) {
      assert k == n;
    }
    if ContainerStatus(reports[n]) == "running" {
      assert ServesAt(reports, name, n);
    }
  }

  lemma ServesBefore(reports: seq<ContainerReport>, name: string)
    requires reports != [] && reports[|reports| - 1].service != name
    ensures Serves(reports, name) <==> Serves(reports[..|reports| - 1], name)
  {
    hide ContainerStatus;
    var front := reports[..|reports| - 1];
    if k :| ServesAt(reports, name, k) {
      assert ServesAt(front, name, k);
    }
    if k :| ServesAt(front, name, k) {
      assert ServesAt(reports, name, k);
    }
  }

  lemma {:induction false} LastStatusExactly(reports: seq<ContainerReport>, name: string)
    ensures LastStatus(ContainersOf(reports), name) == Some("running") <==> Serves(reports, name)
    decreases |reports|
  {
    hide Serves, ContainerStatus;
    if reports != [] {
      var n := |reports| - 1;
      LastStatusExactly(reports[..n], name);
      assert ContainersOf(reports)[..n] == ContainersOf(reports[..n]);
      if reports[n].service == name {
        ServesByLast(reports, name);
      } else {
        ServesBefore(reports, name);
      }
    } else {
      NobodyServes(name);
    }
  }

  lemma NobodyServes(name: string)
    ensures !Serves([], name)
  {
  }

  /** A resource of another kind does not change the status of a service. */
  lemma OtherKindAside(front: seq<Observed>, other: Observed, name: string)
    requires !other.kind.Container?
    ensures LastStatus(front + [other], name) == LastStatus(front, name)
  {
    assert (front + [other])[..|front|] == front;
  }

  lemma LastStatusOfContainers(reports: seq<ContainerReport>, name: string)
    ensures LastStatus(Inspection(reports), name) == LastStatus(ContainersOf(reports), name)
  {
    hide LastStatus, ContainersOf;
    var containers := ContainersOf(reports);
    var network := Observed(Network, "default", "present");
    var dags, logs := Observed(Volume, "dags", "present"), Observed(Volume, "logs", "present");
    OtherKindAside(containers, network, name);
    OtherKindAside(containers + [network], dags, name);
    OtherKindAside(containers + [network] + [dags], logs, name);
    assert Inspection(reports) == containers + [network] + [dags] + [logs];
  }

  lemma RequiredNames(name: string)
    ensures name in REQUIRED_SERVICES
            <==> || name == "project-redis" || name == "airflow-api-server" || name == "airflow-scheduler"
                 || name == "airflow-dag-processor" || name == "airflow-worker"
  {
  }

  /** The readiness check passes exactly when every one of the five services serves by its last report. */
  lemma RunningServes(reports: seq<ContainerReport>)
    requires RequiredRunning(Inspection(reports))
    ensures AllServe(reports)
  {
    hide LastStatus, Inspection, Serves;
    forall name | name in REQUIRED_SERVICES ensures Serves(reports, name) {
      LastStatusExactly(reports, name);
      LastStatusOfContainers(reports, name);
    }
    EveryName(reports);
  }

  lemma ServingRuns(reports: seq<ContainerReport>)
    requires AllServe(reports)
    ensures RequiredRunning(Inspection(reports))
  {
    hide LastStatus, Inspection, Serves;
    forall name | name in REQUIRED_SERVICES ensures LastStatus(Inspection(reports), name) == Some("running") {
      RequiredNames(name);
      LastStatusExactly(reports, name);
      LastStatusOfContainers(reports, name);
    }
  }

  lemma RequiredRunningExactly(reports: seq<ContainerReport>)
    ensures RequiredRunning(Inspection(reports)) <==> AllServe(reports)
  {
    hide RequiredRunning, AllServe;
    if RequiredRunning(Inspection(reports)) { RunningServes(reports); }
    if AllServe(reports) { ServingRuns(reports); }
  }

  lemma EveryName(reports: seq<ContainerReport>)
    requires forall name :: name in REQUIRED_SERVICES ==> Serves(reports, name)
    ensures AllServe(reports)
  {
    hide Serves;
    assert "project-redis" in REQUIRED_SERVICES && "airflow-api-server" in REQUIRED_SERVICES;
    assert "airflow-scheduler" in REQUIRED_SERVICES && "airflow-dag-processor" in REQUIRED_SERVICES;
    assert "airflow-worker" in REQUIRED_SERVICES;
  }

  // ---- Attempts do not interleave ----

  /** Between two effects of one attempt no other attempt acts on the same project. */
  lemma AttemptsNeverInterleave(es: seq<Event>, i: nat, j: nat, k: nat)
    requires i < j < k < |Run(INIT, es).log|
    requires var log := Run(INIT, es).log;
             log[i].project == log[j].project && log[i].job == log[k].job && log[i].attempt == log[k].attempt
    ensures var log := Run(INIT, es).log; log[j].job == log[i].job && log[j].attempt == log[i].attempt
  {
    hide Run, Next;
    RunKeeps(es);
    assert Blocks(Run(INIT, es).log);
  }

  // ---- An attempt that lost its lease ----

  /** The attempt owns its job at no instant from `floor` on, as far as the row says. */
  predicate LostFrom(db: Db, c: Claim, floor: Time)
    requires c.job in db.jobs
  {
    !Live(db, c) || (db.jobs[c.job].lockExpiresAt.Some? && db.jobs[c.job].lockExpiresAt.value <= floor)
  }

  predicate Holds(pc: Pc, c: Claim) {
    !pc.Idle? && pc.claim.job == c.job && pc.claim.attempt == c.attempt
  }

  /** Whoever holds this attempt stands in step number `k`. */
  ghost predicate InStep(s: System, c: Claim, k: nat) {
    forall w :: w in s.workers && Holds(s.workers[w].pc, c) && s.workers[w].pc.InSaga? ==>
      StepNumber(s.workers[w].pc.at) == k
  }

  predicate NotBefore(e: Event, floor: Time) {
    ClockOf(e).Some? ==> ClockOf(e).value >= floor
  }

  /** No transaction of this attempt is accepted at an instant from `floor` on. */
  lemma LostOwnsNothing(db: Db, c: Claim, d: Claim, floor: Time, now: Time)
    requires c.job in db.jobs && LostFrom(db, c, floor) && now >= floor
    requires d.job == c.job && d.attempt == c.attempt
    ensures !Owns(db, d.job, d.worker, d.attempt, now) && !OwnsClaim(db, d, now)
  {
  }

  /** A saga step can change a job row only while it owns it. */
  lemma SagaRowKept(s: System, w: nat, d: Claim, at: Point, now: Time, answer: Answer, j: JobId)
    requires w in s.workers && j in s.db.jobs && (d.job == j ==> !OwnsClaim(s.db, d, now))
    ensures var next := AdvanceSaga(s, w, d, at, now, answer).db; j in next.jobs && next.jobs[j] == s.db.jobs[j]
  {
    hide AdvanceSaga;
    SagaTouches(s, w, d, at, now, answer);
  }

  lemma ExpiredRowKept(s: System, w: nat, e: Event, c: Claim, floor: Time)
    requires StoreOk(s.db) && w in s.workers && NotBefore(e, floor) && !IsRequest(e)
    requires Live(s.db, c) && LostFrom(s.db, c, floor)
    ensures var next := WorkerNext(s, w, e).db;
            c.job in next.jobs && (next.jobs[c.job] == s.db.jobs[c.job] || !Live(next, c))
  {
    hide StoreOk, ClaimOnce, AdvanceSaga, FailJob;
    var pc := s.workers[w].pc;
    if e.ClaimTurn? {
      ClaimOvertakes(s.db, s.workers[w].id, e.now, e.lease, e.skip);
    } else if e.Advance? && pc.InSaga? {
      if pc.claim.job != c.job || pc.claim.attempt != c.attempt {
        SagaOtherAttempt(s, w, e, c);
      } else {
        LostOwnsNothing(s.db, c, pc.claim, floor, e.now);
        SagaRowKept(s, w, pc.claim, pc.at, e.now, e.answer, c.job);
      }
    } else if e.Finalize? && pc.Raised? && pc.claim.job in s.db.jobs {
      FailJobShape(s.db, pc.claim.job, e.now, ErrorCode(pc.error));
    }
  }

  lemma SagaOtherAttempt(s: System, w: nat, e: Event, c: Claim)
    requires w in s.workers && s.workers[w].pc.InSaga? && e.Advance? && Live(s.db, c)
    requires s.workers[w].pc.claim.job != c.job || s.workers[w].pc.claim.attempt != c.attempt
    ensures var next := WorkerNext(s, w, e).db; c.job in next.jobs && next.jobs[c.job] == s.db.jobs[c.job]
  {
    hide AdvanceSaga;
    var pc := s.workers[w].pc;
    SagaRowKept(s, w, pc.claim, pc.at, e.now, e.answer, c.job);
  }

  lemma LostStaysLost(s: System, e: Event, c: Claim, floor: Time)
    requires SystemOk(s) && c.job in s.db.jobs && c.attempt <= s.db.jobs[c.job].attempt
    requires LostFrom(s.db, c, floor) && NotBefore(e, floor)
    ensures c.job in Next(s, e).db.jobs && LostFrom(Next(s, e).db, c, floor)
  {
    hide StoreOk, WorkersOk, LocksOk, DistinctClaims, LogOk, Blocks, InitRecorded, WorkerNext, RequestNext;
    NextEvolves(s, e);
    if Live(s.db, c) {
      if IsRequest(e) {
        RequestLeavesJobs(s.db, e);
      } else if e.w in s.workers {
        ExpiredRowKept(s, e.w, e, c, floor);
      }
    }
  }

  /** What the acting worker of an event may do about the lost attempt. */
  ghost predicate StaysInStep(s: System, t: System, w: nat, c: Claim)
    requires w in s.workers
  {
    && t.workers.Keys == s.workers.Keys
    && (forall v :: v in s.workers && v != w ==> t.workers[v] == s.workers[v])
    && (Holds(t.workers[w].pc, c) ==> Holds(s.workers[w].pc, c))
    && (Holds(t.workers[w].pc, c) && t.workers[w].pc.InSaga? ==>
          s.workers[w].pc.InSaga? && StepNumber(t.workers[w].pc.at) == StepNumber(s.workers[w].pc.at))
    && s.log <= t.log && |t.log| <= |s.log| + 1
    && (forall i :: |s.log| <= i < |t.log| && By(t.log[i], c) ==>
          Holds(s.workers[w].pc, c) && s.workers[w].pc.InSaga? && t.log[i].step == StepNumber(s.workers[w].pc.at))
  }

  lemma LostSagaStep(s: System, w: nat, e: Event, c: Claim, floor: Time)
    requires SystemOk(s) && w in s.workers && c.job in s.db.jobs && e.Advance? && s.workers[w].pc.InSaga?
    requires LostFrom(s.db, c, floor) && NotBefore(e, floor)
    ensures StaysInStep(s, WorkerNext(s, w, e), w, c)
  {
    hide StoreOk, LocksOk, DistinctClaims, LogOk, Blocks, InitRecorded, EvidenceOk, RegistryOk, Tail, AdvanceSaga;
    var pc := s.workers[w].pc;
    assert WorkerOk(s, w);
    SagaShape(s, w, pc.claim, pc.at, e.now, e.answer);
    if Holds(pc, c) {
      LostOwnsNothing(s.db, c, pc.claim, floor, e.now);
      PointsInStep(s, w, pc.claim, pc.at, e.now, e.answer);
    }
  }

  /** What a saga step does to workers and log. */
  ghost predicate Shaped(s: System, w: nat, c: Claim, at: Point, now: Time, answer: Answer)
    requires w in s.workers
  {
    var t := AdvanceSaga(s, w, c, at, now, answer);
    && t.workers == s.workers[w := t.workers[w]]
    && (!t.workers[w].pc.Idle? ==> t.workers[w].pc.claim == c)
    && s.log <= t.log && |t.log| <= |s.log| + 1
    && (forall i :: |s.log| <= i < |t.log| ==> By(t.log[i], c))
  }

  lemma FailureShaped(s: System, w: nat, c: Claim, at: Point, now: Time, answer: Answer)
    requires w in s.workers && s.workers[w].pc == InSaga(c, at) && answer.Fails?
    ensures Shaped(s, w, c, at, now, answer)
  {
  }

  lemma RowsShaped(s: System, w: nat, c: Claim, at: Point, now: Time, answer: Answer)
    requires w in s.workers && s.workers[w].pc == InSaga(c, at) && !answer.Fails?
    requires at.Record? || at.Saving? || at.Marking? || at.Enter? || at.Publishing?
    ensures Shaped(s, w, c, at, now, answer)
  {
    hide Upsert, MarkMissing, PublishReady, SetStep;
  }

  lemma CallsShaped(s: System, w: nat, c: Claim, at: Point, now: Time, answer: Answer)
    requires w in s.workers && s.workers[w].pc == InSaga(c, at) && !answer.Fails?
    requires !(at.Record? || at.Saving? || at.Marking? || at.Enter? || at.Publishing?)
    ensures Shaped(s, w, c, at, now, answer)
  {
    hide RequiredRunning, InitCompleted, Inspection, LoadClaimedState;
  }

  /** A saga step moves one worker, keeps its claim, and notes at most one effect, its own. */
  lemma SagaShape(s: System, w: nat, c: Claim, at: Point, now: Time, answer: Answer)
    requires w in s.workers && s.workers[w].pc == InSaga(c, at)
    ensures Shaped(s, w, c, at, now, answer)
  {
    hide Shaped;
    if answer.Fails? {
      FailureShaped(s, w, c, at, now, answer);
    } else if at.Record? || at.Saving? || at.Marking? || at.Enter? || at.Publishing? {
      RowsShaped(s, w, c, at, now, answer);
    } else {
      CallsShaped(s, w, c, at, now, answer);
    }
  }

  lemma LostStep(s: System, w: nat, e: Event, c: Claim, floor: Time)
    requires SystemOk(s) && w in s.workers && c.job in s.db.jobs && c.attempt <= s.db.jobs[c.job].attempt
    requires LostFrom(s.db, c, floor) && NotBefore(e, floor)
    ensures StaysInStep(s, WorkerNext(s, w, e), w, c)
  {
    hide SystemOk, SelectDue, FailJob, AdvanceSaga, RetryOrFail, Complete, Heartbeat;
    var pc := s.workers[w].pc;
    if e.ClaimTurn? {
      SelectDueBasics(s.db, e.now, e.skip);
    } else if e.Advance? && pc.InSaga? {
      LostSagaStep(s, w, e, c, floor);
    }
  }

  /** From point `at` the saga moves inside its step or leaves, and notes nothing of another step. */
  ghost predicate StaysAtStep(s: System, w: nat, c: Claim, at: Point, now: Time, answer: Answer)
    requires w in s.workers
  {
    var t := AdvanceSaga(s, w, c, at, now, answer);
    && (t.workers[w].pc.InSaga? ==> t.workers[w].pc.claim == c && StepNumber(t.workers[w].pc.at) == StepNumber(at))
    && (forall i :: |s.log| <= i < |t.log| ==> t.log[i].step == StepNumber(at))
  }

  lemma LockedInStep(s: System, w: nat, c: Claim, at: Point, now: Time, answer: Answer)
    requires w in s.workers && s.workers[w].pc == InSaga(c, at) && !OwnsClaim(s.db, c, now)
    requires at.AwaitLock? || at.LoadState? || at.Enter? || at.Publishing? || at.Unlocking?
    ensures StaysAtStep(s, w, c, at, now, answer)
  {
  }

  lemma RowsInStep(s: System, w: nat, c: Claim, at: Point, now: Time, answer: Answer)
    requires w in s.workers && s.workers[w].pc == InSaga(c, at) && (at.Record? || at.Saving? || at.Marking?)
    requires at.Record? ==> at.action.EnsureRole? || at.action.EnsureDatabase? || at.action.RenderArtifact?
    ensures StaysAtStep(s, w, c, at, now, answer)
  {
    hide Upsert, MarkMissing;
  }

  lemma CallsInStep(s: System, w: nat, c: Claim, at: Point, now: Time, answer: Answer)
    requires w in s.workers && s.workers[w].pc == InSaga(c, at)
    requires at.Act? || at.CheckInit? || at.Inspecting? || at.Checking?
    ensures StaysAtStep(s, w, c, at, now, answer)
  {
    hide RequiredRunning, InitCompleted, Inspection;
  }

  /** Without the lease the saga only moves inside its step. */
  lemma PointsInStep(s: System, w: nat, c: Claim, at: Point, now: Time, answer: Answer)
    requires w in s.workers && s.workers[w].pc == InSaga(c, at) && !OwnsClaim(s.db, c, now)
    requires at.Record? ==> at.action.EnsureRole? || at.action.EnsureDatabase? || at.action.RenderArtifact?
    ensures StaysAtStep(s, w, c, at, now, answer)
  {
    hide StaysAtStep;
    if at.Record? || at.Saving? || at.Marking? {
      RowsInStep(s, w, c, at, now, answer);
    } else if at.Act? || at.CheckInit? || at.Inspecting? || at.Checking? {
      CallsInStep(s, w, c, at, now, answer);
    } else {
      LockedInStep(s, w, c, at, now, answer);
    }
  }

  /** The lost attempt at the end of a further run: still lost, still in step `k`, and so are its effects. */
  ghost predicate StillInStep(s: System, t: System, c: Claim, floor: Time, k: nat) {
    && c.job in t.db.jobs && c.attempt <= t.db.jobs[c.job].attempt && LostFrom(t.db, c, floor)
    && InStep(t, c, k) && s.log <= t.log
    && (forall i :: |s.log| <= i < |t.log| && By(t.log[i], c) ==> t.log[i].step == k)
  }

  lemma StillInStepNext(s: System, t: System, e: Event, c: Claim, floor: Time, k: nat)
    requires SystemOk(t) && StillInStep(s, t, c, floor, k) && NotBefore(e, floor)
    ensures StillInStep(s, Next(t, e), c, floor, k)
  {
    hide SystemOk, WorkerNext, RequestNext, LostFrom;
    var u := Next(t, e);
    LostStaysLost(t, e, c, floor);
    AttemptsRise(t, e, c.job);
    if !IsRequest(e) && e.w in t.workers {
      LostStep(t, e.w, e, c, floor);
      forall i | |s.log| <= i < |u.log| && By(u.log[i], c) ensures u.log[i].step == k {
        if i < |t.log| { assert u.log[i] == t.log[i]; }
      }
    }
  }

  lemma AttemptsRise(s: System, e: Event, j: JobId)
    requires SystemOk(s) && j in s.db.jobs
    ensures j in Next(s, e).db.jobs && s.db.jobs[j].attempt <= Next(s, e).db.jobs[j].attempt
  {
    hide SystemOk, Next;
    NextEvolves(s, e);
  }

  /**
   An attempt that has lost its lease (it was overtaken, its job is no longer running, or
   the lease ends by `floor` and no later clock reading is below it) performs nothing
   beyond the step it is in, in any further run, and it cannot publish READY.
  */
  lemma {:induction false} LostAttemptStaysInStep(es: seq<Event>, more: seq<Event>, w: nat, floor: Time, now: Time)
    requires var s := Run(INIT, es);
             w in s.workers && s.workers[w].pc.InSaga? && s.workers[w].pc.claim.job in s.db.jobs
             && LostFrom(s.db, s.workers[w].pc.claim, floor)
    requires now >= floor && forall i :: 0 <= i < |more| ==> NotBefore(more[i], floor)
    ensures var s, t := Run(INIT, es), Run(INIT, es + more);
            var c := s.workers[w].pc.claim;
            && StillInStep(s, t, c, floor, StepNumber(s.workers[w].pc.at))
            && PublishReady(t.db, c, now) == (t.db, PublishLost)
  {
    hide Next, SystemOk;
    var s := Run(INIT, es);
    var c := s.workers[w].pc.claim;
    if |more| == 0 {
      assert es + more == es;
      RunKeeps(es);
      OnlyHolder(s, w);
    } else {
      var front, last := more[..|more| - 1], more[|more| - 1];
      forall i | 0 <= i < |front| ensures NotBefore(front[i], floor) { assert front[i] == more[i]; }
      LostAttemptStaysInStep(es, front, w, floor, now);
      RunStep(es + front, last);
      assert (es + front) + [last] == es + more;
      StillInStepNext(s, Run(INIT, es + front), last, c, floor, StepNumber(s.workers[w].pc.at));
    }
    LostOwnsNothing(Run(INIT, es + more).db, c, c, floor, now);
  }

  lemma OnlyHolder(s: System, w: nat)
    requires SystemOk(s) && w in s.workers && s.workers[w].pc.InSaga?
    ensures InStep(s, s.workers[w].pc.claim, StepNumber(s.workers[w].pc.at))
    ensures var c := s.workers[w].pc.claim; c.job in s.db.jobs && c.attempt <= s.db.jobs[c.job].attempt
  {
    hide StoreOk, LocksOk, LogOk, Blocks, InitRecorded, SagaOk;
    assert WorkerOk(s, w);
    var c := s.workers[w].pc.claim;
    forall v | v in s.workers && Holds(s.workers[v].pc, c) ensures v == w {
      assert SameAttempt(s.workers[v].pc, s.workers[w].pc);
    }
  }
}
