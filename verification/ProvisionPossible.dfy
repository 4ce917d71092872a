/**
 What can happen: a live attempt can always be driven to READY by a world that answers
 well, and a project that is READY can still fall back to PROVISION_FAILED.
*/
module ProvisionPossible {
  import opened Options
  import opened Rows
  import opened LifecycleQueue
  import opened LifecycleRequests
  import opened ProvisionStore
  import opened LifecycleSystem
  import opened StoreInvariant
  import opened SystemInvariant
  import opened SystemSteps
  import opened WorkerSteps
  import opened LifecycleRuns

  const ALL_RUNNING: seq<ContainerReport> := [
    ContainerReport("project-redis", "running", "healthy"),
    ContainerReport("airflow-api-server", "running", "healthy"),
    ContainerReport("airflow-scheduler", "running", ""),
    ContainerReport("airflow-dag-processor", "running", ""),
    ContainerReport("airflow-worker", "running", "healthy")
  ]

  /** What has been observed after readiness, if anything, shows the required services running. */
  predicate Promising(at: Point) {
    match at
    case Enter(step) => !step.Published?
    case Record(action) => action.EnsureRole? || action.EnsureDatabase? || action.RenderArtifact?
    case Saving(round, observed, next) => next <= |observed| && (round.AfterReadiness? ==> RequiredRunning(observed))
    case Marking(round, observed) => round.AfterReadiness? ==> RequiredRunning(observed)
    case Checking(observed) => RequiredRunning(observed)
    case Publishing(observed) => true
    case Unlocking => false
    case _ => true
  }

  /** The attempt owns its lease at `now`, its project is PROVISIONING, and nothing blocks it. */
  predicate CanProceed(s: System, w: nat, c: Claim, at: Point, now: Time) {
    && w in s.workers && s.workers[w].pc == InSaga(c, at)
    && OwnsClaim(s.db, c, now) && c.project in s.db.projects && s.db.projects[c.project].status.Provisioning?
    && (at.AwaitLock? ==> c.project !in s.locks)
    && (!at.AwaitLock? ==> c.project in s.locks && s.locks[c.project] == w)
    && Promising(at)
  }

  /** Nothing but the attempt itself, its job's step and its lock differ. */
  ghost predicate OnlyAttempt(s: System, t: System, w: nat, c: Claim)
    requires w in s.workers
  {
    && w in t.workers && t.workers == s.workers[w := t.workers[w]] && t.workers[w].id == s.workers[w].id
    && c.job in s.db.jobs && c.job in t.db.jobs
    && t.db.jobs == s.db.jobs[c.job := s.db.jobs[c.job].(step := t.db.jobs[c.job].step)]
    && t.locks == s.locks[c.project := w]
  }

  function GoodAnswer(at: Point): Answer {
    if at.Inspecting? then Reports(ALL_RUNNING) else Succeeds
  }

  function Remaining(at: Point): nat {
    if at.Saving? && at.next <= |at.observed| then |at.observed| - at.next else 0
  }

  lemma AllRunning()
    ensures RequiredRunning(Inspection(ALL_RUNNING))
  {
    var observed := Inspection(ALL_RUNNING);
    var containers := ContainersOf(ALL_RUNNING);
    assert |observed| == 8;
    assert containers[0].name == "project-redis" && containers[1].name == "airflow-api-server"
           && containers[2].name == "airflow-scheduler" && containers[3].name == "airflow-dag-processor"
           && containers[4].name == "airflow-worker";
    forall name | name in REQUIRED_SERVICES ensures LastStatus(observed, name) == Some("running") {
      assert observed[..7][..6][..5] == containers;
      assert observed[..8] == observed && observed[..8][..7] == observed[..7] && observed[..7][..6] == observed[..6];
      assert LastStatus(observed, name) == LastStatus(observed[..7], name);
      assert LastStatus(observed[..7], name) == LastStatus(observed[..6], name);
      assert observed[..6][..5] == containers;
      assert LastStatus(observed[..6], name) == LastStatus(containers, name);
      LastRunning(containers, name);
    }
  }

  lemma {:induction false} LastRunning(observed: seq<Observed>, name: string)
    requires exists i :: 0 <= i < |observed| && observed[i].kind.Container? && observed[i].name == name
    requires forall i :: 0 <= i < |observed| ==> observed[i].status == "running"
    ensures LastStatus(observed, name) == Some("running")
  {
    var n := |observed| - 1;
    if !(observed[n].kind.Container? && observed[n].name == name) {
      var i :| 0 <= i < |observed| && observed[i].kind.Container? && observed[i].name == name;
      assert observed[..n][i] == observed[i];
      LastRunning(observed[..n], name);
    }
  }

  predicate Forward(at: Point, to: Point) {
    Position(to) > Position(at) || (Position(to) == Position(at) && Remaining(to) < Remaining(at))
  }

  /** One step forward. */
  ghost predicate Proceeds(s: System, w: nat, c: Claim, at: Point, now: Time)
    requires w in s.workers
  {
    var t := AdvanceSaga(s, w, c, at, now, GoodAnswer(at));
    && w in t.workers && t.workers[w].pc.InSaga? && OnlyAttempt(s, t, w, c)
    && CanProceed(t, w, c, t.workers[w].pc.at, now) && Forward(at, t.workers[w].pc.at)
  }

  lemma ProceedLocked(s: System, w: nat, c: Claim, at: Point, now: Time)
    requires CanProceed(s, w, c, at, now) && (at.AwaitLock? || at.LoadState?)
    ensures Proceeds(s, w, c, at, now)
  {
  }

  lemma ProceedEntering(s: System, w: nat, c: Claim, at: Point, now: Time)
    requires CanProceed(s, w, c, at, now) && at.Enter?
    ensures Proceeds(s, w, c, at, now)
  {
  }

  lemma ProceedRecord(s: System, w: nat, c: Claim, at: Point, now: Time)
    requires CanProceed(s, w, c, at, now) && at.Record?
    ensures Proceeds(s, w, c, at, now)
  {
  }

  lemma ProceedRows(s: System, w: nat, c: Claim, at: Point, now: Time)
    requires CanProceed(s, w, c, at, now) && (at.Saving? || at.Marking?)
    ensures Proceeds(s, w, c, at, now)
  {
    hide RequiredRunning;
  }

  lemma ProceedActing(s: System, w: nat, c: Claim, at: Point, now: Time)
    requires CanProceed(s, w, c, at, now) && at.Act?
    ensures Proceeds(s, w, c, at, now)
  {
  }

  lemma ProceedCalls(s: System, w: nat, c: Claim, at: Point, now: Time)
    requires CanProceed(s, w, c, at, now) && (at.CheckInit? || at.Inspecting? || at.Checking?)
    ensures Proceeds(s, w, c, at, now)
  {
    hide RequiredRunning, InitCompleted, Inspection;
    AllRunning();
  }

  lemma Proceed(s: System, w: nat, c: Claim, at: Point, now: Time)
    requires CanProceed(s, w, c, at, now) && !at.Publishing?
    ensures Proceeds(s, w, c, at, now)
  {
    hide Proceeds, OwnsClaim;
    match at {
      case AwaitLock => ProceedLocked(s, w, c, at, now);
      case LoadState => ProceedLocked(s, w, c, at, now);
      case Enter(_) => ProceedEntering(s, w, c, at, now);
      case Act(_) => ProceedActing(s, w, c, at, now);
      case Record(_) => ProceedRecord(s, w, c, at, now);
      case Saving(_, _, _) => ProceedRows(s, w, c, at, now);
      case Marking(_, _) => ProceedRows(s, w, c, at, now);
      case _ => ProceedCalls(s, w, c, at, now);
    }
  }

  /** Prepending an event to a run. */
  lemma {:induction false} RunFirst(s: System, e: Event, es: seq<Event>)
    ensures Run(s, [e] + es) == Run(Next(s, e), es)
  {
    RunSplit(s, [e], es);
    assert [e][..0] == [];
    assert Run(s, [e]) == Next(Run(s, [e][..0]), e);
  }

  lemma OnlyAttemptTransitive(s: System, t: System, u: System, w: nat, c: Claim)
    requires w in s.workers && OnlyAttempt(s, t, w, c) && OnlyAttempt(t, u, w, c)
    ensures OnlyAttempt(s, u, w, c)
  {
  }

  /**
   From any state in which a live attempt stands in the saga, some continuation publishes
   READY: it needs one clock reading and a world that answers well.
  */
  lemma {:induction false} CanPublish(s: System, w: nat, c: Claim, at: Point, now: Time) returns (es: seq<Event>)
    requires CanProceed(s, w, c, at, now)
    ensures var t := Run(s, es);
            && OnlyAttempt(s, t, w, c) && t.workers[w].pc == InSaga(c, Unlocking)
            && c.project in t.db.projects && t.db.projects[c.project].status.Ready?
            && t.db.jobs[c.job].step == Some(Published)
    decreases 40 - Position(at), Remaining(at)
  {
    hide Proceeds, Run, Inspection, RequiredRunning, InitCompleted, MarkMissing, Upsert, LoadClaimedState;
    var e := Advance(w, now, GoodAnswer(at));
    var t := AdvanceSaga(s, w, c, at, now, GoodAnswer(at));
    assert Next(s, e) == t;
    if at.Publishing? {
      es := [e];
      RunFirst(s, e, []);
      assert [e] + [] == [e];
      EmptyRun(t);
    } else {
      Proceed(s, w, c, at, now);
      ProceedsParts(s, w, c, at, now);
      var rest := CanPublish(t, w, c, t.workers[w].pc.at, now);
      es := [e] + rest;
      RunFirst(s, e, rest);
      OnlyAttemptTransitive(s, t, Run(t, rest), w, c);
    }
  }

  /** The attempt has not finished, and what it observed after readiness, if anything, shows every service running. */
  predicate Unspoiled(at: Point) {
    match at
    case Saving(round, observed, _) => round.AfterReadiness? ==> RequiredRunning(observed)
    case Marking(round, observed) => round.AfterReadiness? ==> RequiredRunning(observed)
    case Checking(observed) => RequiredRunning(observed)
    case Unlocking => false
    case _ => true
  }

  lemma LiveIsProvisioning(s: System, w: nat, c: Claim, at: Point, now: Time)
    requires SystemOk(s) && w in s.workers && s.workers[w].pc == InSaga(c, at) && OwnsClaim(s.db, c, now)
    requires Unspoiled(at) && (at.AwaitLock? ==> c.project !in s.locks)
    requires Position(at) <= 1 ==> s.db.jobs[c.job].step != Some(Published)
    ensures CanProceed(s, w, c, at, now)
  {
    hide LogOk, Blocks, InitRecorded, LocksOk, DistinctClaims, Tail, EvidenceOk, RegistryShows, Unambiguous, WrittenUpTo,
         Indexed, Fingerprinted, OneActive, Coupled, Audited, GrantsOk, RequiredRunning;
    assert WorkerOk(s, w);
    ActiveFits(s.db, c.job);
  }

  /**
   In every reachable state, a worker in the saga whose lease is live can still publish READY:
   its project need not be asked to be PROVISIONING. Only an attempt that starts after a
   publication, one that waits for a lock, and one that has seen a service down are left out.
  */
  lemma LiveAttemptCanPublish(es: seq<Event>, w: nat, c: Claim, at: Point, now: Time) returns (more: seq<Event>)
    requires var s := Run(INIT, es);
             && w in s.workers && s.workers[w].pc == InSaga(c, at) && OwnsClaim(s.db, c, now) && Unspoiled(at)
             && (at.AwaitLock? ==> c.project !in s.locks)
             && (Position(at) <= 1 ==> s.db.jobs[c.job].step != Some(Published))
    ensures var t := Run(INIT, es + more);
            c.project in t.db.projects && t.db.projects[c.project].status.Ready? && OwnsClaim(t.db, c, now)
  {
    hide Run, CanProceed, SystemOk;
    RunKeeps(es);
    var s := Run(INIT, es);
    LiveIsProvisioning(s, w, c, at, now);
    more := CanPublish(s, w, c, at, now);
    RunSplit(INIT, es, more);
  }

  lemma EmptyRun(s: System)
    ensures Run(s, []) == s
  {
  }

  lemma ProceedsParts(s: System, w: nat, c: Claim, at: Point, now: Time)
    requires w in s.workers && Proceeds(s, w, c, at, now)
    ensures var t := AdvanceSaga(s, w, c, at, now, GoodAnswer(at));
            && w in t.workers && t.workers[w].pc.InSaga? && OnlyAttempt(s, t, w, c)
            && CanProceed(t, w, c, t.workers[w].pc.at, now) && Forward(at, t.workers[w].pc.at)
  {
  }

  // ---- READY is not safe while the provision job is unfinished ----

  /** The step from `es` to `es + [e]` takes project `p` from READY to PROVISION_FAILED. */
  ghost predicate FallsBack(es: seq<Event>, e: Event, p: ProjectId) {
    var db, next := Run(INIT, es).db, Run(INIT, es + [e]).db;
    p in db.projects && db.projects[p].status.Ready? && p in next.projects && next.projects[p].status.ProvisionFailed?
  }

  const CREATE := Create("demo", "demo", None, 1, "key", 0, 0, 0.0)
  const FIRST := Claim(0, 0, Provision, 1, "a")
  const SECOND := Claim(0, 0, Provision, 2, "b")
  const OPTIONS := RetryOptions(5.0, 300.0, 0.0, false)

  const FIRST_JOB := NewJob(0, Provision, 5, "key", CreateRequest("demo", "demo", None, 1), 1, 0.0)
  const FIRST_PROJECT := Project("demo", "demo", Provisioning, 1, 0.0)

  lemma FirstCreated()
    ensures var s := Next(INIT, CREATE);
            && s.db.jobs == map[0 := FIRST_JOB] && s.db.projects == map[0 := FIRST_PROJECT]
            && s.workers == map[] && s.locks == map[]
  {
    assert !HasActive(EMPTY_DB, 0);
  }

  lemma FirstClaims(s: System)
    requires s.db.jobs == map[0 := FIRST_JOB] && s.db.projects == map[0 := FIRST_PROJECT] && s.locks == map[]
    requires s.workers == map[0 := Worker("a", Idle)]
    ensures var t := Next(s, ClaimTurn(0, 0.0, 30.0, {}));
            && CanProceed(t, 0, FIRST, AwaitLock, 1.0)
            && t.workers.Keys == {0} && t.locks == map[]
            && t.db.jobs == map[0 := Leased(FIRST_JOB, "a", 0.0, 30.0)]
  {
    assert Due(FIRST_JOB, 0.0);
    assert Eligible(s.db, 0.0, {}, 0);
    assert SelectDue(s.db, 0.0, {}) == Some(0);
  }

  lemma FirstClaimed(s: System)
    requires s == Run(INIT, [CREATE, Spawn(0, "a"), ClaimTurn(0, 0.0, 30.0, {})])
    ensures CanProceed(s, 0, FIRST, AwaitLock, 1.0)
    ensures s.workers.Keys == {0} && s.locks == map[]
    ensures s.db.jobs == map[0 := Leased(FIRST_JOB, "a", 0.0, 30.0)]
  {
    hide Run, CanProceed;
    EmptyRun(INIT);
    RunLast([], CREATE);
    RunLast([CREATE], Spawn(0, "a"));
    RunLast([CREATE, Spawn(0, "a")], ClaimTurn(0, 0.0, 30.0, {}));
    assert [] + [CREATE] == [CREATE] && [CREATE] + [Spawn(0, "a")] == [CREATE, Spawn(0, "a")];
    assert [CREATE, Spawn(0, "a")] + [ClaimTurn(0, 0.0, 30.0, {})]
        == [CREATE, Spawn(0, "a"), ClaimTurn(0, 0.0, 30.0, {})];
    FirstCreated();
    FirstClaims(Next(Next(INIT, CREATE), Spawn(0, "a")));
  }

  /** The state after the publishing worker crashed and another one has been started. */
  lemma SecondClaims(s: System, job: Job)
    requires s.db.jobs == map[0 := job] && job.status.Running? && job.attempt == 1 && job.maxAttempts == 5
    requires job.project == 0 && job.operation.Provision? && job.lockExpiresAt == Some(30.0)
    requires 1 in s.workers && s.workers[1] == Worker("b", Idle)
    ensures var t := Next(s, ClaimTurn(1, 40.0, 30.0, {}));
            && t.workers == s.workers[1 := Worker("b", InSaga(SECOND, AwaitLock))]
            && t.locks == s.locks && t.db.projects == s.db.projects
            && 0 in t.db.jobs && OwnsClaim(t.db, SECOND, 41.0) && OwnsClaim(t.db, SECOND, 42.0)
            && t.db.jobs[0].operation.Provision?
  {
    assert Eligible(s.db, 40.0, {}, 0);
    assert SelectDue(s.db, 40.0, {}) == Some(0);
  }

  lemma SecondFails(s: System)
    requires 1 in s.workers && s.workers[1].pc == InSaga(SECOND, AwaitLock) && s.locks == map[]
    requires OwnsClaim(s.db, SECOND, 41.0) && OwnsClaim(s.db, SECOND, 42.0)
    requires 0 in s.db.projects && s.db.projects[0].status.Ready? && s.db.jobs[0].operation.Provision?
    ensures var t := Next(Next(s, Advance(1, 41.0, Succeeds)), Advance(1, 41.0, Succeeds));
            && t.db == s.db
            && 0 in Next(t, Finalize(1, 42.0, OPTIONS)).db.projects
            && Next(t, Finalize(1, 42.0, OPTIONS)).db.projects[0].status.ProvisionFailed?
  {
    var s1 := Next(s, Advance(1, 41.0, Succeeds));
    assert s1.workers[1].pc == InSaga(SECOND, LoadState) && s1.db == s.db;
    var s2 := Next(s1, Advance(1, 41.0, Succeeds));
    assert s2.workers[1].pc == Raised(SECOND, NOT_RESUMABLE) && s2.db == s.db;
  }

  /** Appending an event to a run. */
  lemma RunLast(es: seq<Event>, e: Event)
    ensures Run(INIT, es + [e]) == Next(Run(INIT, es), e)
  {
    assert (es + [e])[..|es|] == es;
  }

  /**
   The transition outside the table does happen: a worker publishes READY and crashes
   before it completes the job; its lease expires; the next attempt finds the project not
   resumable, and its permanent error fails the job and with it the READY project.
  */
  lemma ReadyCanFallBack()
    ensures exists es, e, p :: FallsBack(es, e, p)
  {
    hide Run, Next, CanProceed;
    var es := [CREATE, Spawn(0, "a"), ClaimTurn(0, 0.0, 30.0, {})];
    var s := Run(INIT, es);
    FirstClaimed(s);
    var more := CanPublish(s, 0, FIRST, AwaitLock, 1.0);
    var t := Run(s, more);
    RunSplit(INIT, es, more);
    es := es + more;
    RunLast(es, Crash(0));
    var t1 := Next(t, Crash(0));
    es := es + [Crash(0)];
    RunLast(es, Spawn(1, "b"));
    var t2 := Next(t1, Spawn(1, "b"));
    Restarted(t);
    es := es + [Spawn(1, "b")];
    RunLast(es, ClaimTurn(1, 40.0, 30.0, {}));
    SecondClaims(t2, t2.db.jobs[0]);
    var t3 := Next(t2, ClaimTurn(1, 40.0, 30.0, {}));
    es := es + [ClaimTurn(1, 40.0, 30.0, {})];
    SecondFails(t3);
    RunLast(es, Advance(1, 41.0, Succeeds));
    es := es + [Advance(1, 41.0, Succeeds)];
    RunLast(es, Advance(1, 41.0, Succeeds));
    es := es + [Advance(1, 41.0, Succeeds)];
    RunLast(es, Finalize(1, 42.0, OPTIONS));
    assert FallsBack(es, Finalize(1, 42.0, OPTIONS), 0);
  }

  lemma Restarted(t: System)
    requires 0 in t.workers && t.workers[0].pc == InSaga(FIRST, Unlocking) && 1 !in t.workers
    requires t.locks == map[0 := 0]
    ensures var t2 := Next(Next(t, Crash(0)), Spawn(1, "b"));
            t2.db == t.db && t2.locks == map[] && 1 in t2.workers && t2.workers[1] == Worker("b", Idle)
  {
  }
}
