/**
 The lifecycle service as a state machine: one database, any number of worker processes
 that may crash anywhere, the advisory lock of the provisioning saga, and API requests.

 Each event is one committed transaction or one external call, with its own clock
 reading. A worker carries a program counter: it completes a job only after its runner
 returned, and retries or fails it only after its runner (or its heartbeat) raised.
 An event that is not enabled leaves the system unchanged.
*/
module LifecycleSystem {
  import opened Options
  import opened Rows
  import opened LifecycleQueue
  import opened LifecycleRequests
  import opened ProvisionStore

  /** External calls of the saga other than resource inspection. */
  datatype Action =
    | EnsureRole | EnsureDatabase | RenderArtifact | EnsureImage | ValidateCompose
    | RunInit | StartServices | WaitReady

  /** The three places where the saga inspects and records the compose resources. */
  datatype Round = AfterInit | AfterServices | AfterReadiness

  /** Where a provisioning attempt stands: the next thing it will do. */
  datatype Point =
    | AwaitLock
    | LoadState
    | Enter(step: Step)
    | Act(action: Action)
    | Record(action: Action)
    | CheckInit
    | Inspecting(round: Round)
    | Saving(round: Round, observed: seq<Observed>, next: nat)
    | Marking(round: Round, observed: seq<Observed>)
    | Checking(observed: seq<Observed>)
    | Publishing(observed: seq<Observed>)
    | Unlocking

  datatype Pc =
    | Idle
    | InSaga(claim: Claim, at: Point)
    | Returned(claim: Claim)
    | Raised(claim: Claim, error: LifecycleError)

  datatype Worker = Worker(id: WorkerId, pc: Pc)

  datatype EffectKind =
    | Performed(action: Action) | Inspected(round: Round, reports: seq<ContainerReport>)
    | RowWritten(row: Observed) | RowsMarked

  /** One side effect of an attempt; `step` numbers the durable step it belongs to. */
  datatype Effect = Effect(project: ProjectId, generation: nat, job: JobId, attempt: nat, step: nat,
                           kind: EffectKind, ok: bool)

  /** `locks` are the advisory locks held; `log` is a history variable. */
  datatype System = System(db: Db, workers: map<nat, Worker>, locks: map<ProjectId, nat>, log: seq<Effect>)

  /** What the outside world answers to an external call. */
  datatype Answer = Succeeds | Reports(containers: seq<ContainerReport>) | Fails(error: LifecycleError)

  datatype Event =
    | Spawn(w: nat, worker: WorkerId)
    | ClaimTurn(w: nat, now: Time, lease: Time, skip: set<JobId>)
    | Beat(w: nat, now: Time, lease: Time)
    | BeatBroken(w: nat, error: LifecycleError)
    | Advance(w: nat, now: Time, answer: Answer)
    | Finalize(w: nat, now: Time, options: RetryOptions)
    | Crash(w: nat)
    | Create(name: string, slug: string, description: Option<string>, user: UserId, key: Key,
             project: ProjectId, job: JobId, now: Time)
    | Retry(slug: string, failedJob: JobId, user: UserId, key: Key, job: JobId, now: Time, keyVisible: bool)
    | IssueReauth(user: UserId, project: ProjectId, token: Token, now: Time, ttl: Time, check: ReauthCheck)
    | RequestDelete(slug: string, confirmation: string, key: Key, reauth: Option<Token>, user: UserId,
                    job: JobId, now: Time, keyVisible: bool)

  const INIT := System(EMPTY_DB, map[], map[], [])

  const RUNNER_NOT_CONFIGURED := LifecycleError(true, "RUNNER_NOT_CONFIGURED")
  const NOT_RESUMABLE := LifecycleError(true, "FOREIGN_RESOURCE_CONFLICT")
  const BAD_TRANSITION := LifecycleError(true, "INVALID_LIFECYCLE_TRANSITION")
  const TRANSIENT := LifecycleError(false, "TRANSIENT_LIFECYCLE_ERROR")

  function AfterEnter(step: Step): Point {
    match step
    case DatabaseRole => Act(EnsureRole)
    case Database => Act(EnsureDatabase)
    case Configuration => Act(RenderArtifact)
    case RuntimeImage => Act(EnsureImage)
    case Init => CheckInit
    case Services => Act(StartServices)
    case AirflowReadiness => Act(WaitReady)
    case Published => Unlocking
  }

  function AfterAct(action: Action): Point {
    match action
    case EnsureRole => Record(EnsureRole)
    case EnsureDatabase => Record(EnsureDatabase)
    case RenderArtifact => Record(RenderArtifact)
    case EnsureImage => Act(ValidateCompose)
    case ValidateCompose => Enter(Init)
    case RunInit => Inspecting(AfterInit)
    case StartServices => Inspecting(AfterServices)
    case WaitReady => Inspecting(AfterReadiness)
  }

  function AfterRecord(action: Action): Point {
    match action
    case EnsureRole => Enter(Database)
    case EnsureDatabase => Enter(Configuration)
    case _ => Enter(RuntimeImage)
  }

  function RecordedRow(action: Action): Observed {
    match action
    case EnsureRole => Observed(DatabaseRoleResource, "role", "present")
    case EnsureDatabase => Observed(DatabaseResource, "database", "present")
    case _ => Observed(ProxyRoute, "runtime_artifact", "rendered")
  }

  function AfterMarking(round: Round, observed: seq<Observed>): Point {
    match round
    case AfterInit => Enter(Services)
    case AfterServices => Enter(AirflowReadiness)
    case AfterReadiness => Checking(observed)
  }

  /** The position of a point in the saga. */
  function Position(at: Point): nat {
    match at
    case AwaitLock => 0
    case LoadState => 1
    case Enter(step) => (match step
      case DatabaseRole => 2 case Database => 5 case Configuration => 8 case RuntimeImage => 11
      case Init => 14 case Services => 20 case AirflowReadiness => 25 case Published => 33)
    case Act(action) => ActPosition(action)
    case Record(action) => ActPosition(action) + 1
    case CheckInit => 15
    case Inspecting(round) => RoundPosition(round)
    case Saving(round, _, _) => RoundPosition(round) + 1
    case Marking(round, _) => RoundPosition(round) + 2
    case Checking(_) => 30
    case Publishing(_) => 31
    case Unlocking => 32
  }

  function ActPosition(action: Action): nat {
    match action
    case EnsureRole => 3 case EnsureDatabase => 6 case RenderArtifact => 9 case EnsureImage => 12
    case ValidateCompose => 13 case RunInit => 16 case StartServices => 21 case WaitReady => 26
  }

  function RoundPosition(round: Round): nat {
    match round case AfterInit => 17 case AfterServices => 22 case AfterReadiness => 27
  }

  /** How many durable steps have been entered when the attempt stands here. */
  function StepNumber(at: Point): nat {
    var n := Position(at);
    if n <= 2 then 0 else if n <= 5 then 1 else if n <= 8 then 2 else if n <= 11 then 3
    else if n <= 14 then 4 else if n <= 20 then 5 else if n <= 25 then 6 else 7
  }

  function GenerationOf(db: Db, p: ProjectId): nat {
    if p in db.projects then db.projects[p].generation else 0
  }

  function Move(s: System, w: nat, pc: Pc): System
    requires w in s.workers
  {
    s.(workers := s.workers[w := s.workers[w].(pc := pc)])
  }

  function EffectOf(s: System, claim: Claim, at: Point, kind: EffectKind, ok: bool): Effect {
    Effect(claim.project, GenerationOf(s.db, claim.project), claim.job, claim.attempt, StepNumber(at), kind, ok)
  }

  function Note(s: System, claim: Claim, at: Point, kind: EffectKind, ok: bool): System {
    s.(log := s.log + [EffectOf(s, claim, at, kind, ok)])
  }

  /** The attempt ends, for whatever reason; its advisory lock goes with it. */
  function Leave(s: System, w: nat, claim: Claim, pc: Pc): System
    requires w in s.workers
  {
    var unlocked :=
      if claim.project in s.locks && s.locks[claim.project] == w then s.locks - {claim.project} else s.locks;
    Move(s, w, pc).(locks := unlocked)
  }

  function NoteFailure(s: System, claim: Claim, at: Point): System {
    match at
    case Act(action) => Note(s, claim, at, Performed(action), false)
    case Inspecting(round) => Note(s, claim, at, Inspected(round, []), false)
    case _ => s
  }

  /** One step of the provisioning saga. */
  function AdvanceSaga(s: System, w: nat, claim: Claim, at: Point, now: Time, answer: Answer): System
    requires w in s.workers
  {
    if answer.Fails? then
      Leave(NoteFailure(s, claim, at), w, claim, Raised(claim, answer.error))
    else
      var p := claim.project;
      var generation := GenerationOf(s.db, p);
      match at
      case AwaitLock =>
        if p in s.locks then s else Move(s.(locks := s.locks[p := w]), w, InSaga(claim, LoadState))
      case LoadState =>
        (match LoadClaimedState(s.db, claim, now)
         case Loaded => Move(s, w, InSaga(claim, Enter(DatabaseRole)))
         case LoadLost => Leave(s, w, claim, Idle)
         case NotResumable => Leave(s, w, claim, Raised(claim, NOT_RESUMABLE)))
      case Enter(step) =>
        var (db, ok) := SetStep(s.db, claim, step, now);
        if ok then Move(s.(db := db), w, InSaga(claim, AfterEnter(step))) else Leave(s, w, claim, Idle)
      case Act(action) =>
        Move(Note(s, claim, at, Performed(action), true), w, InSaga(claim, AfterAct(action)))
      case Record(action) =>
        var row := RecordedRow(action);
        Move(Note(s.(db := Upsert(s.db, p, generation, row)), claim, at, RowWritten(row), true),
             w, InSaga(claim, AfterRecord(action)))
      case CheckInit =>
        Move(s, w, InSaga(claim, if InitCompleted(s.db, p, generation) then Enter(Services) else Act(RunInit)))
      case Inspecting(round) =>
        if !answer.Reports? then s
        else Move(Note(s, claim, at, Inspected(round, answer.containers), true), w,
                  InSaga(claim, Saving(round, Inspection(answer.containers), 0)))
      case Saving(round, observed, next) =>
        if next < |observed| then
          Move(Note(s.(db := Upsert(s.db, p, generation, observed[next])), claim, at,
                    RowWritten(observed[next]), true),
               w, InSaga(claim, Saving(round, observed, next + 1)))
        else Move(s, w, InSaga(claim, Marking(round, observed)))
      case Marking(round, observed) =>
        Move(Note(s.(db := MarkMissing(s.db, p, generation, observed)), claim, at, RowsMarked, true),
             w, InSaga(claim, AfterMarking(round, observed)))
      case Checking(observed) =>
        if RequiredRunning(observed) then Move(s, w, InSaga(claim, Publishing(observed)))
        else Leave(s, w, claim, Raised(claim, TRANSIENT))
      case Publishing(observed) =>
        var (db, outcome) := PublishReady(s.db, claim, now);
        (match outcome
         case PublishedReady => Move(s.(db := db), w, InSaga(claim, Unlocking))
         case PublishLost => Leave(s, w, claim, Idle)
         case TransitionRefused => Leave(s, w, claim, Raised(claim, BAD_TRANSITION)))
      case Unlocking => Leave(s, w, claim, Returned(claim))
  }

  function TakeClaim(s: System, w: nat, now: Time, lease: Time, skip: set<JobId>): System
    requires w in s.workers
  {
    var (db, outcome) := ClaimOnce(s.db, s.workers[w].id, now, lease, skip);
    var claimed := s.(db := db);
    if !outcome.Claimed? then claimed
    else if outcome.claim.operation.Provision? then Move(claimed, w, InSaga(outcome.claim, AwaitLock))
    else Move(claimed, w, Raised(outcome.claim, RUNNER_NOT_CONFIGURED))
  }

  function BeatOnce(s: System, w: nat, claim: Claim, now: Time, lease: Time): System
    requires w in s.workers
  {
    if lease <= 0.0 then Leave(s, w, claim, Raised(claim, TRANSIENT))
    else
      var (db, ok) := Heartbeat(s.db, claim.job, claim.worker, claim.attempt, now, lease);
      if ok then s.(db := db) else Leave(s, w, claim, Idle)
  }

  function Conclude(s: System, w: nat, pc: Pc, now: Time, options: RetryOptions): System
    requires w in s.workers && (pc.Returned? || pc.Raised?)
  {
    var c := pc.claim;
    if pc.Returned? then
      Move(s.(db := Complete(s.db, c.job, c.worker, c.attempt, now).0), w, Idle)
    else
      Move(s.(db := RetryOrFail(s.db, c.job, c.worker, c.attempt, now, pc.error, options).0), w, Idle)
  }

  /** The events of worker `w`; `Spawn` is the only one that does not need it to exist. */
  function WorkerNext(s: System, w: nat, e: Event): System
    requires w in s.workers
  {
    var pc := s.workers[w].pc;
    match e
    case ClaimTurn(_, now, lease, skip) => if pc.Idle? then TakeClaim(s, w, now, lease, skip) else s
    case Beat(_, now, lease) => if pc.Idle? then s else BeatOnce(s, w, pc.claim, now, lease)
    case BeatBroken(_, error) => if pc.Idle? then s else Leave(s, w, pc.claim, Raised(pc.claim, error))
    case Advance(_, now, answer) => if pc.InSaga? then AdvanceSaga(s, w, pc.claim, pc.at, now, answer) else s
    case Finalize(_, now, options) => if pc.Returned? || pc.Raised? then Conclude(s, w, pc, now, options) else s
    case Crash(_) => if pc.Idle? then s else Leave(s, w, pc.claim, Idle)
    case _ => s
  }

  predicate IsRequest(e: Event) {
    e.Create? || e.Retry? || e.IssueReauth? || e.RequestDelete?
  }

  /** The database after an API request. */
  function RequestNext(db: Db, e: Event): Db
    requires IsRequest(e)
  {
    match e
    case Create(name, slug, description, user, key, project, job, now) =>
      CreateProject(db, name, slug, description, user, key, project, job, now).0
    case Retry(slug, failedJob, user, key, job, now, keyVisible) =>
      RetryProvision(db, slug, failedJob, user, key, job, now, keyVisible).0
    case IssueReauth(user, project, token, now, ttl, check) => IssueGrant(db, user, project, token, now, ttl, check).0
    case RequestDelete(slug, confirmation, key, reauth, user, job, now, keyVisible) =>
      RequestDeletion(db, slug, confirmation, key, reauth, user, job, now, keyVisible).0
  }

  function Next(s: System, e: Event): System {
    if IsRequest(e) then s.(db := RequestNext(s.db, e))
    else if e.w !in s.workers then
      if e.Spawn? then s.(workers := s.workers[e.w := Worker(e.worker, Idle)]) else s
    else WorkerNext(s, e.w, e)
  }

  /** The system after a run of events. */
  function Run(s: System, es: seq<Event>): System {
    if |es| == 0 then s else Next(Run(s, es[..|es| - 1]), es[|es| - 1])
  }

  /** The clock reading an event carries; crashes, spawns and broken heartbeats carry none. */
  function ClockOf(e: Event): Option<Time> {
    match e
    case ClaimTurn(_, now, _, _) => Some(now)
    case Beat(_, now, _) => Some(now)
    case Advance(_, now, _) => Some(now)
    case Finalize(_, now, _) => Some(now)
    case Create(_, _, _, _, _, _, _, now) => Some(now)
    case Retry(_, _, _, _, _, now, _) => Some(now)
    case IssueReauth(_, _, _, now, _, _) => Some(now)
    case RequestDelete(_, _, _, _, _, _, now, _) => Some(now)
    case _ => None
  }
}
