/**
 The invariant of the whole system: what each worker's program counter implies about the
 job it claimed, the advisory lock, the registry and the effects performed so far.
*/
module SystemInvariant {
  import opened Options
  import opened Rows
  import opened LifecycleQueue
  import opened LifecycleRequests
  import opened ProvisionStore
  import opened StoreInvariant
  import opened LifecycleSystem

  predicate By(e: Effect, c: Claim) {
    e.job == c.job && e.attempt == c.attempt
  }

  /** The claim still is the running attempt of its job (whatever the clock says). */
  predicate Live(db: Db, c: Claim) {
    c.job in db.jobs && db.jobs[c.job].status.Running? && db.jobs[c.job].attempt == c.attempt
  }

  /** The attempt holds the advisory lock of its project. */
  predicate HoldsLock(pc: Pc) {
    pc.InSaga? && !pc.at.AwaitLock?
  }

  // ---- The effect log ----

  ghost predicate LogOk(db: Db, log: seq<Effect>) {
    forall i :: 0 <= i < |log| ==>
      && log[i].job in db.jobs
      && db.jobs[log[i].job].project == log[i].project
      && log[i].attempt <= db.jobs[log[i].job].attempt
  }

  /** Effects of one attempt are never separated by effects of another attempt on the same project. */
  ghost predicate Blocks(log: seq<Effect>) {
    forall i, j, k :: 0 <= i < j < k < |log| && log[i].project == log[j].project
      && log[i].job == log[k].job && log[i].attempt == log[k].attempt
      ==> log[j].job == log[i].job && log[j].attempt == log[i].attempt
  }

  /** Since the attempt's first effect nobody else has acted on its project. */
  ghost predicate Tail(log: seq<Effect>, c: Claim) {
    forall i, j :: 0 <= i < j < |log| && By(log[i], c) && log[j].project == c.project ==> By(log[j], c)
  }

  ghost predicate Untouched(log: seq<Effect>, c: Claim) {
    forall i :: 0 <= i < |log| ==> !By(log[i], c)
  }

  /** The attempt has performed this external call successfully. */
  ghost predicate Did(log: seq<Effect>, c: Claim, kind: EffectKind) {
    exists i :: DidAt(log, c, kind, i)
  }

  ghost predicate DidAt(log: seq<Effect>, c: Claim, kind: EffectKind, i: int) {
    0 <= i < |log| && By(log[i], c) && log[i].project == c.project && log[i].kind == kind && log[i].ok
  }

  /** Some attempt has run the init service of this generation successfully. */
  ghost predicate InitRan(log: seq<Effect>, p: ProjectId, generation: nat) {
    exists i :: InitRanAt(log, p, generation, i)
  }

  ghost predicate InitRanAt(log: seq<Effect>, p: ProjectId, generation: nat, i: int) {
    0 <= i < |log| && log[i].project == p && log[i].generation == generation
    && log[i].kind == Performed(RunInit) && log[i].ok
  }

  /** The attempt inspected the resources after it had passed readiness. */
  ghost predicate InspectedAfterReady(log: seq<Effect>, c: Claim) {
    exists i, j, reports ::
      0 <= i < j && DidAt(log, c, Performed(WaitReady), i) && DidAt(log, c, Inspected(AfterReadiness, reports), j)
  }

  /** These resources are what the attempt saw in an inspection after readiness. */
  ghost predicate ObservedAfterReady(log: seq<Effect>, c: Claim, observed: seq<Observed>) {
    exists i, j, reports ::
      0 <= i < j && DidAt(log, c, Performed(WaitReady), i) && DidAt(log, c, Inspected(AfterReadiness, reports), j)
      && Inspection(reports) == observed
  }

  /** The attempt wrote this row after such an inspection showed these resources. */
  ghost predicate WrittenAfterReady(log: seq<Effect>, c: Claim, observed: seq<Observed>, row: Observed) {
    exists i, j, reports ::
      0 <= i < j && DidAt(log, c, Inspected(AfterReadiness, reports), i) && DidAt(log, c, RowWritten(row), j)
      && Inspection(reports) == observed
  }

  /** The first `n` observed rows have been written so. */
  ghost predicate WrittenUpTo(log: seq<Effect>, c: Claim, observed: seq<Observed>, n: nat) {
    ObservedAfterReady(log, c, observed)
    && forall k :: 0 <= k < n && k < |observed| ==> WrittenAfterReady(log, c, observed, observed[k])
  }

  /** A row of the init service exists only once init has run. */
  ghost predicate InitRecorded(db: Db, log: seq<Effect>) {
    forall key :: key in db.registry && key.name == INIT_SERVICE && db.registry[key].kind.Container?
      ==> InitRan(log, key.project, key.generation)
  }

  // ---- The registry ----

  ghost predicate RegistryShows(db: Db, p: ProjectId, observed: seq<Observed>) {
    forall name :: name in REQUIRED_SERVICES && LastStatus(observed, name).Some? ==>
      RegistryRow(db, p, name, LastStatus(observed, name).value)
  }

  predicate RegistryRow(db: Db, p: ProjectId, name: string, status: string) {
    var key := ResourceKey(p, GenerationOf(db, p), name);
    key in db.registry && db.registry[key] == Resource(Container, status)
  }

  /** No other kind of resource carries the name of a required service. */
  ghost predicate Unambiguous(observed: seq<Observed>) {
    forall i :: 0 <= i < |observed| && observed[i].name in REQUIRED_SERVICES ==> observed[i].kind.Container?
  }

  // ---- Workers ----

  /** The external calls an attempt must have made to stand at this point. */
  predicate Needs(at: Point, action: Action) {
    !action.RunInit? && ActPosition(action) < Position(at)
  }

  predicate WellPlaced(at: Point) {
    && (at.Enter? ==> !at.step.Published?)
    && (at.Record? ==> at.action.EnsureRole? || at.action.EnsureDatabase? || at.action.RenderArtifact?)
    && (at.Saving? ==> at.next <= |at.observed|)
  }

  ghost predicate ClaimOk(db: Db, c: Claim) {
    && c.job in db.jobs && db.jobs[c.job].project == c.project && db.jobs[c.job].operation == c.operation
    && 1 <= c.attempt <= db.jobs[c.job].attempt
  }

  ghost predicate EvidenceOk(db: Db, log: seq<Effect>, c: Claim, at: Point) {
    && (forall action :: Needs(at, action) ==> Did(log, c, Performed(action)))
    && (Position(at) > ActPosition(RunInit) ==> InitRan(log, c.project, GenerationOf(db, c.project)))
    && (Position(at) > RoundPosition(AfterReadiness) ==> InspectedAfterReady(log, c))
  }

  ghost predicate RegistryOk(db: Db, c: Claim, at: Point) {
    match at
    case Act(action) => action.RunInit? ==> !InitCompleted(db, c.project, GenerationOf(db, c.project))
    case Saving(_, observed, next) =>
      Unambiguous(observed) && next <= |observed| && RegistryShows(db, c.project, observed[..next])
    case Marking(_, observed) => RegistryShows(db, c.project, observed)
    case Checking(observed) => RegistryShows(db, c.project, observed)
    case Publishing(observed) => RegistryShows(db, c.project, observed) && RequiredRunning(observed)
    case _ => true
  }

  /** Behind the last inspection the rows it found have been written, as far as the attempt has come. */
  ghost predicate WritesOk(log: seq<Effect>, c: Claim, at: Point) {
    match at
    case Saving(round, observed, next) =>
      round.AfterReadiness? ==> WrittenUpTo(log, c, observed, next)
    case Marking(round, observed) => round.AfterReadiness? ==> WrittenUpTo(log, c, observed, |observed|)
    case Checking(observed) => WrittenUpTo(log, c, observed, |observed|)
    case Publishing(observed) => WrittenUpTo(log, c, observed, |observed|)
    case _ => true
  }

  /** The durable step an attempt that stands here has entered last. */
  function EnteredStep(at: Point): Step {
    if at.Unlocking? then Published
    else
      match StepNumber(at)
      case 1 => DatabaseRole
      case 2 => Database
      case 3 => Configuration
      case 4 => RuntimeImage
      case 5 => Init
      case 6 => Services
      case _ => AirflowReadiness
  }

  ghost predicate SagaOk(db: Db, log: seq<Effect>, c: Claim, at: Point) {
    && WellPlaced(at)
    && (if at.AwaitLock? then Untouched(log, c) else Tail(log, c))
    && EvidenceOk(db, log, c, at)
    && RegistryOk(db, c, at)
    && WritesOk(log, c, at)
    && (Live(db, c) && Position(at) > 1 ==> (db.jobs[c.job].step == Some(Published) <==> at.Unlocking?))
    && (Live(db, c) && Position(at) > 2 ==> db.jobs[c.job].step == Some(EnteredStep(at)))
  }

  ghost predicate WorkerOk(s: System, w: nat)
    requires w in s.workers
  {
    var pc := s.workers[w].pc;
    && (!pc.Idle? ==> ClaimOk(s.db, pc.claim))
    && (pc.InSaga? || pc.Returned? ==> pc.claim.operation.Provision?)
    && (HoldsLock(pc) ==> pc.claim.project in s.locks && s.locks[pc.claim.project] == w)
    && (pc.InSaga? ==> SagaOk(s.db, s.log, pc.claim, pc.at))
    && (pc.Returned? && Live(s.db, pc.claim) ==> s.db.jobs[pc.claim.job].step == Some(Published))
  }

  ghost predicate WorkersOk(s: System) {
    forall w :: w in s.workers ==> WorkerOk(s, w)
  }

  ghost predicate LocksOk(s: System) {
    forall p :: p in s.locks ==>
      && s.locks[p] in s.workers
      && HoldsLock(s.workers[s.locks[p]].pc)
      && s.workers[s.locks[p]].pc.claim.project == p
  }

  ghost predicate SameAttempt(a: Pc, b: Pc) {
    !a.Idle? && !b.Idle? && a.claim.job == b.claim.job && a.claim.attempt == b.claim.attempt
  }

  /** No two workers hold the same attempt of the same job. */
  ghost predicate DistinctClaims(s: System) {
    forall v, w :: v in s.workers && w in s.workers && SameAttempt(s.workers[v].pc, s.workers[w].pc) ==> v == w
  }

  ghost predicate SystemOk(s: System) {
    && StoreOk(s.db)
    && WorkersOk(s) && LocksOk(s) && DistinctClaims(s)
    && LogOk(s.db, s.log) && Blocks(s.log) && InitRecorded(s.db, s.log)
  }
}
