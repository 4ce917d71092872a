/** The steps of the provisioning saga keep the system invariant. */
module SagaSteps {
  import opened Options
  import opened Rows
  import opened LifecycleQueue
  import opened ProvisionStore
  import opened StoreInvariant
  import opened LifecycleSystem
  import opened SystemInvariant
  import opened SystemSteps

  // ---- What a saga step may do to the database ----

  /** A saga step rewrites the registry, records a durable step, or publishes. */
  ghost predicate Touches(s: System, next: Db, c: Claim, at: Point, now: Time) {
    || next == s.db.(registry := next.registry)
    || (at.Enter? && next == SetStep(s.db, c, at.step, now).0)
    || (at.Publishing? && next == PublishReady(s.db, c, now).0)
  }

  lemma FailureTouches(s: System, w: nat, c: Claim, at: Point, now: Time, answer: Answer)
    requires w in s.workers && answer.Fails?
    ensures Touches(s, AdvanceSaga(s, w, c, at, now, answer).db, c, at, now)
  {
    hide SetStep, PublishReady;
  }

  lemma RowsTouch(s: System, w: nat, c: Claim, at: Point, now: Time, answer: Answer)
    requires w in s.workers && !answer.Fails?
    requires at.Record? || at.Saving? || at.Marking? || at.Enter? || at.Publishing?
    ensures Touches(s, AdvanceSaga(s, w, c, at, now, answer).db, c, at, now)
  {
    hide SetStep, PublishReady;
  }

  lemma CallsTouchNothing(s: System, w: nat, c: Claim, at: Point, now: Time, answer: Answer)
    requires w in s.workers && !answer.Fails?
    requires !(at.Record? || at.Saving? || at.Marking? || at.Enter? || at.Publishing?)
    ensures Touches(s, AdvanceSaga(s, w, c, at, now, answer).db, c, at, now)
  {
    hide RequiredRunning, InitCompleted, Inspection, LoadClaimedState;
  }

  lemma SagaTouches(s: System, w: nat, c: Claim, at: Point, now: Time, answer: Answer)
    requires w in s.workers
    ensures Touches(s, AdvanceSaga(s, w, c, at, now, answer).db, c, at, now)
  {
    hide Touches, AdvanceSaga;
    if answer.Fails? {
      FailureTouches(s, w, c, at, now, answer);
    } else if at.Record? || at.Saving? || at.Marking? || at.Enter? || at.Publishing? {
      RowsTouch(s, w, c, at, now, answer);
    } else {
      CallsTouchNothing(s, w, c, at, now, answer);
    }
  }

  /** An attempt may end at any moment; it counts as returned only from the last point of the saga. */
  lemma LeaveKeeps(s: System, w: nat, c: Claim, pc: Pc)
    requires SystemOk(s) && w in s.workers && !s.workers[w].pc.Idle? && s.workers[w].pc.claim == c
    requires pc.Idle? || (pc.Raised? && pc.claim == c) || (pc == Returned(c) && s.workers[w].pc == InSaga(c, Unlocking))
    ensures SystemOk(Leave(s, w, c, pc))
  {
    hide StoreOk, Evolves, LogOk, Blocks, InitRecorded, DistinctClaims, EvidenceOk, RegistryOk, Tail;
    EvolvesReflexive(s.db);
    assert WorkerOk(s, w);
    OwnStepKeeps(s, Leave(s, w, c, pc), w, c);
  }

  lemma InitRecordedMonotone(db: Db, log: seq<Effect>, more: seq<Effect>)
    requires InitRecorded(db, log) && log <= more
    ensures InitRecorded(db, more)
  {
    forall key | key in db.registry && key.name == INIT_SERVICE && db.registry[key].kind.Container?
      ensures InitRan(more, key.project, key.generation)
    {
      InitRanMonotone(log, more, key.project, key.generation);
    }
  }

  lemma TailMonotone(log: seq<Effect>, c: Claim, x: Effect)
    requires Tail(log, c) && By(x, c)
    ensures Tail(log + [x], c)
  {
    var more := log + [x];
    forall i, j | 0 <= i < j < |more| && By(more[i], c) && more[j].project == c.project ensures By(more[j], c) {
      if j < |log| { assert more[i] == log[i] && more[j] == log[j]; }
    }
  }

  /** Writing an effect of the attempt to the log changes nothing else. */
  lemma NoteKeeps(s: System, w: nat, c: Claim, at: Point, kind: EffectKind, ok: bool)
    requires SystemOk(s) && w in s.workers && s.workers[w].pc == InSaga(c, at) && !at.AwaitLock?
    ensures SystemOk(Note(s, c, at, kind, ok))
  {
    hide StoreOk, Evolves, LogOk, Blocks, InitRecorded, DistinctClaims, EvidenceOk, RegistryOk, WritesOk, Tail;
    EvolvesReflexive(s.db);
    assert WorkerOk(s, w);
    var t := Note(s, c, at, kind, ok);
    var x := EffectOf(s, c, at, kind, ok);
    EvidenceMonotone(s.db, t.db, s.log, t.log, c, at);
    WritesMonotone(s.log, t.log, c, at);
    TailMonotone(s.log, c, x);
    InitRecordedMonotone(s.db, s.log, t.log);
    OwnStepKeeps(s, t, w, c);
  }

  /** Moving on without touching rows, when what the next point demands holds already. */
  lemma MoveKeeps(s: System, w: nat, c: Claim, at: Point, to: Point)
    requires SystemOk(s) && w in s.workers && s.workers[w].pc == InSaga(c, at) && !at.AwaitLock? && !to.AwaitLock?
    requires SagaOk(s.db, s.log, c, to)
    ensures SystemOk(Move(s, w, InSaga(c, to)))
  {
    hide StoreOk, Evolves, LogOk, Blocks, InitRecorded, DistinctClaims, SagaOk;
    EvolvesReflexive(s.db);
    assert WorkerOk(s, w);
    OwnStepKeeps(s, Move(s, w, InSaga(c, to)), w, c);
  }

  lemma FailureKeeps(s: System, w: nat, c: Claim, at: Point, error: LifecycleError)
    requires SystemOk(s) && w in s.workers && s.workers[w].pc == InSaga(c, at)
    ensures SystemOk(Leave(NoteFailure(s, c, at), w, c, Raised(c, error)))
  {
    hide SystemOk;
    match at {
      case Act(action) => NoteKeeps(s, w, c, at, Performed(action), false);
      case Inspecting(round) => NoteKeeps(s, w, c, at, Inspected(round, []), false);
      case _ =>
    }
    LeaveKeeps(NoteFailure(s, c, at), w, c, Raised(c, error));
  }

  lemma SameRowsReflexive(db: Db)
    ensures forall p :: SameRows(db, db, p)
  {
  }

  /** An attempt that has not acted yet may stand right behind the lock. */
  lemma FirstPoint(db: Db, log: seq<Effect>, c: Claim)
    requires SagaOk(db, log, c, AwaitLock)
    ensures SagaOk(db, log, c, LoadState)
  {
  }

  lemma LockKeeps(s: System, w: nat, c: Claim)
    requires SystemOk(s) && w in s.workers && s.workers[w].pc == InSaga(c, AwaitLock) && c.project !in s.locks
    ensures SystemOk(Move(s.(locks := s.locks[c.project := w]), w, InSaga(c, LoadState)))
  {
    hide StoreOk, Evolves, LogOk, Blocks, InitRecorded, DistinctClaims, SagaOk, SameRows;
    EvolvesReflexive(s.db);
    SameRowsReflexive(s.db);
    assert WorkerOk(s, w);
    FirstPoint(s.db, s.log, c);
    OwnStepKeeps(s, Move(s.(locks := s.locks[c.project := w]), w, InSaga(c, LoadState)), w, c);
  }

  lemma LoadKeeps(s: System, w: nat, c: Claim, now: Time)
    requires SystemOk(s) && w in s.workers && s.workers[w].pc == InSaga(c, LoadState)
    requires LoadClaimedState(s.db, c, now).Loaded?
    ensures SystemOk(Move(s, w, InSaga(c, Enter(DatabaseRole))))
  {
    hide LogOk, Blocks, InitRecorded, DistinctClaims, LocksOk, JobsOk, Indexed, Fingerprinted, OneActive, Coupled,
         Audited, GrantsOk, Tail;
    assert WorkerOk(s, w);
    ActiveFits(s.db, c.job);
    MoveKeeps(s, w, c, LoadState, Enter(DatabaseRole));
  }

  /** Moving on with rows of the attempt's own changed, when the next point's demands hold in them. */
  lemma RowsMoveKeeps(s: System, w: nat, c: Claim, at: Point, to: Point, db: Db)
    requires SystemOk(s) && w in s.workers && s.workers[w].pc == InSaga(c, at) && !at.AwaitLock? && !to.AwaitLock?
    requires StoreOk(db) && Evolves(s.db, db) && OnlyOwn(s.db, db, c) && db.registry == s.db.registry
    requires ClaimOk(db, c) && SagaOk(db, s.log, c, to)
    ensures SystemOk(Move(s.(db := db), w, InSaga(c, to)))
  {
    hide StoreOk, Evolves, OnlyOwn, LogOk, Blocks, InitRecorded, DistinctClaims, SagaOk, ClaimOk;
    assert WorkerOk(s, w);
    SameRegistryInit(s.db, db, s.log);
    OwnStepKeeps(s, Move(s.(db := db), w, InSaga(c, to)), w, c);
  }

  lemma SetStepShape(db: Db, c: Claim, step: Step, now: Time)
    requires ClaimOk(db, c)
    ensures var (next, ok) := SetStep(db, c, step, now);
            ok ==> && OnlyOwn(db, next, c) && ClaimOk(next, c) && next.registry == db.registry
                   && next.projects == db.projects && next.jobs[c.job].step == Some(step)
  {
  }

  lemma EnterKeeps(s: System, w: nat, c: Claim, step: Step, now: Time)
    requires SystemOk(s) && w in s.workers && s.workers[w].pc == InSaga(c, Enter(step))
    ensures var (db, ok) := SetStep(s.db, c, step, now);
            ok ==> SystemOk(Move(s.(db := db), w, InSaga(c, AfterEnter(step))))
  {
    hide StoreOk, Evolves, LogOk, Blocks, InitRecorded, DistinctClaims, LocksOk, Tail, SetStep, ClaimOk, OnlyOwn,
         EvidenceOk, SystemOk;
    SagaHolds(s, w, c, Enter(step));
    SetStepKeeps(s.db, c, step, now);
    SetStepShape(s.db, c, step, now);
    var (db, ok) := SetStep(s.db, c, step, now);
    if ok {
      EvidenceMonotone(s.db, db, s.log, s.log, c, Enter(step));
      EnteredEvidence(db, s.log, c, step);
      RowsMoveKeeps(s, w, c, Enter(step), AfterEnter(step), db);
    }
  }

  lemma EnteredEvidence(db: Db, log: seq<Effect>, c: Claim, step: Step)
    requires EvidenceOk(db, log, c, Enter(step)) && !step.Published?
    ensures EvidenceOk(db, log, c, AfterEnter(step))
  {
  }

  lemma SagaHolds(s: System, w: nat, c: Claim, at: Point)
    requires SystemOk(s) && w in s.workers && s.workers[w].pc == InSaga(c, at)
    ensures StoreOk(s.db) && ClaimOk(s.db, c) && SagaOk(s.db, s.log, c, at) && InitRecorded(s.db, s.log)
  {
    hide StoreOk, ClaimOk, SagaOk, InitRecorded;
    assert WorkerOk(s, w);
  }

  lemma SameRegistryInit(db: Db, next: Db, log: seq<Effect>)
    requires InitRecorded(db, log) && next.registry == db.registry
    ensures InitRecorded(next, log)
  {
  }

  lemma DidNow(log: seq<Effect>, c: Claim, x: Effect)
    requires By(x, c) && x.project == c.project && x.ok
    ensures Did(log + [x], c, x.kind)
  {
    assert DidAt(log + [x], c, x.kind, |log|);
  }

  lemma ActKeeps(s: System, w: nat, c: Claim, action: Action)
    requires SystemOk(s) && w in s.workers && s.workers[w].pc == InSaga(c, Act(action))
    ensures SystemOk(Move(Note(s, c, Act(action), Performed(action), true), w, InSaga(c, AfterAct(action))))
  {
    hide StoreOk, LogOk, Blocks, InitRecorded, DistinctClaims, LocksOk, Tail, Did, InitRan;
    var at := Act(action);
    var t := Note(s, c, at, Performed(action), true);
    var x := EffectOf(s, c, at, Performed(action), true);
    NoteKeeps(s, w, c, at, Performed(action), true);
    assert WorkerOk(t, w);
    DidNow(s.log, c, x);
    if action.RunInit? {
      RanNow(s.log, x);
    }
    assert EvidenceOk(t.db, t.log, c, AfterAct(action));
    MoveKeeps(t, w, c, at, AfterAct(action));
  }

  lemma RanNow(log: seq<Effect>, x: Effect)
    requires x.kind == Performed(RunInit) && x.ok
    ensures InitRan(log + [x], x.project, x.generation)
  {
    assert InitRanAt(log + [x], x.project, x.generation, |log|);
  }

  // ---- Registry writes ----

  lemma RegistryOnly(db: Db, next: Db)
    requires StoreOk(db) && next == db.(registry := next.registry)
    ensures StoreOk(next) && Evolves(db, next)
  {
    hide Indexed, JobsOk, Fingerprinted, OneActive, Coupled, JobsEvolve, ProjectsEvolve;
    SameJobsAndProjects(db, next);
    forall j | j in next.jobs && next.jobs[j].operation.Delete? ensures exists t :: SpentOn(next, t, j) {
      var t :| SpentOn(db, t, j);
      assert SpentOn(next, t, j);
    }
  }

  /** The attempt writes rows of its own project and notes it, which entitles it to no new evidence. */
  lemma RegistryStepKeeps(s: System, w: nat, c: Claim, at: Point, to: Point, db: Db, kind: EffectKind)
    requires SystemOk(s) && w in s.workers && s.workers[w].pc == InSaga(c, at) && !at.AwaitLock?
    requires db == s.db.(registry := db.registry)
    requires forall p :: p != c.project ==> SameRows(s.db, db, p)
    requires InitRecorded(db, s.log)
    requires Position(at) > 2 && StepNumber(to) == StepNumber(at) && !to.Unlocking? && !at.Unlocking?
    requires EvidenceOk(s.db, s.log, c, to) && RegistryOk(db, c, to) && WellPlaced(to)
    requires WritesOk(s.log + [EffectOf(s.(db := db), c, at, kind, true)], c, to)
    ensures SystemOk(Move(Note(s.(db := db), c, at, kind, true), w, InSaga(c, to)))
  {
    hide StoreOk, Evolves, LogOk, Blocks, InitRecorded, DistinctClaims, EvidenceOk, RegistryOk, WritesOk, Tail, SameRows,
         LocksOk;
    assert WorkerOk(s, w);
    RegistryOnly(s.db, db);
    var x := EffectOf(s.(db := db), c, at, kind, true);
    var t := Move(Note(s.(db := db), c, at, kind, true), w, InSaga(c, to));
    EvidenceMonotone(s.db, db, s.log, t.log, c, to);
    TailMonotone(s.log, c, x);
    InitRecordedMonotone(db, s.log, t.log);
    OwnStepKeeps(s, t, w, c);
  }

  /** Evidence carries over between points that ask for the same. */
  lemma EvidenceCarries(db: Db, log: seq<Effect>, c: Claim, at: Point, to: Point)
    requires EvidenceOk(db, log, c, at)
    requires forall action :: Needs(to, action) ==> Needs(at, action)
    requires Position(to) > ActPosition(RunInit) ==> Position(at) > ActPosition(RunInit)
    requires Position(to) > RoundPosition(AfterReadiness) ==> Position(at) > RoundPosition(AfterReadiness)
    ensures EvidenceOk(db, log, c, to)
  {
  }

  lemma RecordKeeps(s: System, w: nat, c: Claim, action: Action)
    requires SystemOk(s) && w in s.workers && s.workers[w].pc == InSaga(c, Record(action))
    ensures var row := RecordedRow(action);
            var db := Upsert(s.db, c.project, GenerationOf(s.db, c.project), row);
            SystemOk(Move(Note(s.(db := db), c, Record(action), RowWritten(row), true), w,
                          InSaga(c, AfterRecord(action))))
  {
    hide StoreOk, LogOk, Blocks, DistinctClaims, EvidenceOk, Tail, LocksOk, InitRan;
    assert WorkerOk(s, w);
    var row := RecordedRow(action);
    var db := Upsert(s.db, c.project, GenerationOf(s.db, c.project), row);
    assert row.name != INIT_SERVICE;
    EvidenceCarries(s.db, s.log, c, Record(action), AfterRecord(action));
    RegistryStepKeeps(s, w, c, Record(action), AfterRecord(action), db, RowWritten(row));
  }

  lemma LastStatusOfNext(observed: seq<Observed>, k: nat, name: string)
    requires k < |observed|
    ensures LastStatus(observed[..k + 1], name)
         == if observed[k].kind.Container? && observed[k].name == name then Some(observed[k].status)
            else LastStatus(observed[..k], name)
  {
    assert observed[..k + 1][..k] == observed[..k];
  }

  /** After the row of one more observed resource is saved the registry shows one more of them. */
  lemma SavingShows(db: Db, p: ProjectId, observed: seq<Observed>, k: nat)
    requires Unambiguous(observed) && k < |observed| && RegistryShows(db, p, observed[..k])
    ensures RegistryShows(Upsert(db, p, GenerationOf(db, p), observed[k]), p, observed[..k + 1])
  {
    var next := Upsert(db, p, GenerationOf(db, p), observed[k]);
    forall name | name in REQUIRED_SERVICES && LastStatus(observed[..k + 1], name).Some?
      ensures RegistryRow(next, p, name, LastStatus(observed[..k + 1], name).value)
    {
      LastStatusOfNext(observed, k, name);
      if observed[k].name != name {
        assert RegistryRow(db, p, name, LastStatus(observed[..k], name).value);
      }
    }
  }

  lemma SavingKeeps(s: System, w: nat, c: Claim, round: Round, observed: seq<Observed>, k: nat)
    requires SystemOk(s) && w in s.workers && s.workers[w].pc == InSaga(c, Saving(round, observed, k))
    requires k < |observed|
    ensures var db := Upsert(s.db, c.project, GenerationOf(s.db, c.project), observed[k]);
            SystemOk(Move(Note(s.(db := db), c, Saving(round, observed, k), RowWritten(observed[k]), true), w,
                          InSaga(c, Saving(round, observed, k + 1))))
  {
    hide StoreOk, LogOk, Blocks, DistinctClaims, EvidenceOk, Tail, LocksOk, InitRan, RegistryShows, Unambiguous,
         WrittenUpTo, Did;
    assert WorkerOk(s, w);
    var at, to := Saving(round, observed, k), Saving(round, observed, k + 1);
    var db := Upsert(s.db, c.project, GenerationOf(s.db, c.project), observed[k]);
    EvidenceCarries(s.db, s.log, c, at, to);
    SavingShows(s.db, c.project, observed, k);
    InitRanAtSaving(s.db, s.log, c, at);
    var x := EffectOf(s.(db := db), c, at, RowWritten(observed[k]), true);
    if round.AfterReadiness? { SavedSoFar(s.log, c, observed, k, x); }
    RegistryStepKeeps(s, w, c, at, to, db, RowWritten(observed[k]));
  }

  /** One more row is written behind the inspection. */
  lemma SavedSoFar(log: seq<Effect>, c: Claim, observed: seq<Observed>, k: nat, x: Effect)
    requires WrittenUpTo(log, c, observed, k) && k < |observed|
    requires By(x, c) && x.project == c.project && x.ok && x.kind == RowWritten(observed[k])
    ensures WrittenUpTo(log + [x], c, observed, k + 1)
  {
    hide Inspection;
    var more := log + [x];
    WrittenUpToMonotone(log, more, c, observed, k);
    var i, j, reports :| 0 <= i < j && DidAt(log, c, Performed(WaitReady), i)
                         && DidAt(log, c, Inspected(AfterReadiness, reports), j) && Inspection(reports) == observed;
    assert DidAt(more, c, Inspected(AfterReadiness, reports), j) && DidAt(more, c, RowWritten(observed[k]), |log|);
    assert WrittenAfterReady(more, c, observed, observed[k]);
    hide WrittenAfterReady, ObservedAfterReady;
  }

  lemma InitRanAtSaving(db: Db, log: seq<Effect>, c: Claim, at: Point)
    requires EvidenceOk(db, log, c, at) && Position(at) > ActPosition(RunInit)
    ensures InitRan(log, c.project, GenerationOf(db, c.project))
  {
  }

  lemma SavedKeeps(s: System, w: nat, c: Claim, round: Round, observed: seq<Observed>, k: nat)
    requires SystemOk(s) && w in s.workers && s.workers[w].pc == InSaga(c, Saving(round, observed, k))
    requires k >= |observed|
    ensures SystemOk(Move(s, w, InSaga(c, Marking(round, observed))))
  {
    hide StoreOk, LogOk, Blocks, DistinctClaims, EvidenceOk, Tail, LocksOk, InitRan, RegistryShows, InitRecorded,
         WrittenUpTo, Did;
    assert WorkerOk(s, w);
    assert observed[..k] == observed;
    EvidenceCarries(s.db, s.log, c, Saving(round, observed, k), Marking(round, observed));
    MoveKeeps(s, w, c, Saving(round, observed, k), Marking(round, observed));
  }

  lemma {:induction false} SeenHasStatus(observed: seq<Observed>, name: string)
    requires LastStatus(observed, name).Some?
    ensures ContainerSeen(observed, name)
  {
    var n := |observed| - 1;
    if observed[n].kind.Container? && observed[n].name == name {
      assert ContainerSeen(observed, name);
    } else {
      SeenHasStatus(observed[..n], name);
      var i :| 0 <= i < n && observed[..n][i].kind.Container? && observed[..n][i].name == name;
      assert observed[i] == observed[..n][i];
    }
  }

  /** Marking rows absent does not touch the row of a service that was observed. */
  lemma MarkingShows(db: Db, p: ProjectId, observed: seq<Observed>)
    requires RegistryShows(db, p, observed)
    ensures RegistryShows(MarkMissing(db, p, GenerationOf(db, p), observed), p, observed)
  {
    var next := MarkMissing(db, p, GenerationOf(db, p), observed);
    forall name | name in REQUIRED_SERVICES && LastStatus(observed, name).Some?
      ensures RegistryRow(next, p, name, LastStatus(observed, name).value)
    {
      assert RegistryRow(db, p, name, LastStatus(observed, name).value);
      SeenHasStatus(observed, name);
    }
  }

  lemma MarkingKeeps(s: System, w: nat, c: Claim, round: Round, observed: seq<Observed>)
    requires SystemOk(s) && w in s.workers && s.workers[w].pc == InSaga(c, Marking(round, observed))
    ensures var db := MarkMissing(s.db, c.project, GenerationOf(s.db, c.project), observed);
            SystemOk(Move(Note(s.(db := db), c, Marking(round, observed), RowsMarked, true), w,
                          InSaga(c, AfterMarking(round, observed))))
  {
    hide StoreOk, LogOk, Blocks, DistinctClaims, EvidenceOk, Tail, LocksOk, InitRan, RegistryShows, WrittenUpTo;
    assert WorkerOk(s, w);
    var at, to := Marking(round, observed), AfterMarking(round, observed);
    var db := MarkMissing(s.db, c.project, GenerationOf(s.db, c.project), observed);
    EvidenceCarries(s.db, s.log, c, at, to);
    MarkingShows(s.db, c.project, observed);
    if round.AfterReadiness? {
      WrittenUpToMonotone(s.log, s.log + [EffectOf(s.(db := db), c, at, RowsMarked, true)], c, observed, |observed|);
    }
    RegistryStepKeeps(s, w, c, at, to, db, RowsMarked);
  }

  // ---- The remaining points ----

  lemma CheckInitKeeps(s: System, w: nat, c: Claim)
    requires SystemOk(s) && w in s.workers && s.workers[w].pc == InSaga(c, CheckInit)
    ensures SystemOk(Move(s, w, InSaga(c, if InitCompleted(s.db, c.project, GenerationOf(s.db, c.project))
                                          then Enter(Services) else Act(RunInit))))
  {
    hide StoreOk, LogOk, Blocks, DistinctClaims, Tail, LocksOk, InitRan, Did;
    assert WorkerOk(s, w);
    var to := if InitCompleted(s.db, c.project, GenerationOf(s.db, c.project)) then Enter(Services) else Act(RunInit);
    assert EvidenceOk(s.db, s.log, c, to);
    MoveKeeps(s, w, c, CheckInit, to);
  }

  lemma InspectionUnambiguous(reports: seq<ContainerReport>)
    ensures Unambiguous(Inspection(reports))
  {
    var observed := Inspection(reports);
    forall i | 0 <= i < |observed| && observed[i].name in REQUIRED_SERVICES ensures observed[i].kind.Container? {
      if i < |reports| { assert observed[i] == ContainersOf(reports)[i]; }
    }
  }

  lemma InspectingKeeps(s: System, w: nat, c: Claim, round: Round, reports: seq<ContainerReport>)
    requires SystemOk(s) && w in s.workers && s.workers[w].pc == InSaga(c, Inspecting(round))
    ensures SystemOk(Move(Note(s, c, Inspecting(round), Inspected(round, reports), true), w,
                          InSaga(c, Saving(round, Inspection(reports), 0))))
  {
    hide StoreOk, LogOk, Blocks, DistinctClaims, Tail, LocksOk, InitRan, InitRecorded, Unambiguous, InspectedAfterReady,
         ObservedAfterReady, Did, Inspection;
    var at, to := Inspecting(round), Saving(round, Inspection(reports), 0);
    var x := EffectOf(s, c, at, Inspected(round, reports), true);
    assert WorkerOk(s, w);
    NoteKeeps(s, w, c, at, Inspected(round, reports), true);
    var t := Note(s, c, at, Inspected(round, reports), true);
    assert WorkerOk(t, w);
    InspectionUnambiguous(reports);
    if round.AfterReadiness? {
      InspectedNow(s.log, c, x, reports);
    }
    assert EvidenceOk(t.db, t.log, c, to);
    MoveKeeps(t, w, c, at, to);
  }

  lemma InspectedNow(log: seq<Effect>, c: Claim, x: Effect, reports: seq<ContainerReport>)
    requires Did(log, c, Performed(WaitReady))
    requires By(x, c) && x.project == c.project && x.ok && x.kind == Inspected(AfterReadiness, reports)
    ensures InspectedAfterReady(log + [x], c) && ObservedAfterReady(log + [x], c, Inspection(reports))
  {
    hide Inspection;
    var i :| DidAt(log, c, Performed(WaitReady), i);
    assert DidAt(log + [x], c, Performed(WaitReady), i) && DidAt(log + [x], c, Inspected(AfterReadiness, reports), |log|);
  }

  lemma CheckingKeeps(s: System, w: nat, c: Claim, observed: seq<Observed>)
    requires SystemOk(s) && w in s.workers && s.workers[w].pc == InSaga(c, Checking(observed))
    requires RequiredRunning(observed)
    ensures SystemOk(Move(s, w, InSaga(c, Publishing(observed))))
  {
    hide StoreOk, LogOk, Blocks, DistinctClaims, EvidenceOk, Tail, LocksOk, InitRan, RegistryShows, InitRecorded,
         WrittenUpTo, Did;
    assert WorkerOk(s, w);
    EvidenceCarries(s.db, s.log, c, Checking(observed), Publishing(observed));
    MoveKeeps(s, w, c, Checking(observed), Publishing(observed));
  }

  lemma PublishShape(db: Db, c: Claim, now: Time)
    requires ClaimOk(db, c)
    ensures var (next, outcome) := PublishReady(db, c, now);
            outcome.PublishedReady? ==>
              && OnlyOwn(db, next, c) && ClaimOk(next, c) && next.registry == db.registry
              && GenerationOf(next, c.project) == GenerationOf(db, c.project)
              && next.jobs[c.job].step == Some(Published)
  {
  }

  lemma PublishingKeeps(s: System, w: nat, c: Claim, observed: seq<Observed>, now: Time)
    requires SystemOk(s) && w in s.workers && s.workers[w].pc == InSaga(c, Publishing(observed))
    ensures var (db, outcome) := PublishReady(s.db, c, now);
            outcome.PublishedReady? ==> SystemOk(Move(s.(db := db), w, InSaga(c, Unlocking)))
  {
    hide StoreOk, Evolves, LogOk, Blocks, InitRecorded, DistinctClaims, LocksOk, Tail, PublishReady, ClaimOk, OnlyOwn,
         EvidenceOk, SystemOk;
    SagaHolds(s, w, c, Publishing(observed));
    PublishKeeps(s.db, c, now);
    PublishShape(s.db, c, now);
    var (db, outcome) := PublishReady(s.db, c, now);
    if outcome.PublishedReady? {
      EvidenceCarries(s.db, s.log, c, Publishing(observed), Unlocking);
      EvidenceMonotone(s.db, db, s.log, s.log, c, Unlocking);
      RowsMoveKeeps(s, w, c, Publishing(observed), Unlocking, db);
    }
  }

  /** Every step of the saga keeps the system invariant. */
  lemma SagaKeeps(s: System, w: nat, c: Claim, at: Point, now: Time, answer: Answer)
    requires SystemOk(s) && w in s.workers && s.workers[w].pc == InSaga(c, at)
    ensures SystemOk(AdvanceSaga(s, w, c, at, now, answer))
  {
    hide SystemOk;
    if answer.Fails? {
      FailureKeeps(s, w, c, at, answer.error);
    } else {
      match at {
        case AwaitLock => if c.project !in s.locks { LockKeeps(s, w, c); }
        case LoadState =>
          match LoadClaimedState(s.db, c, now) {
            case Loaded => LoadKeeps(s, w, c, now);
            case LoadLost => LeaveKeeps(s, w, c, Idle);
            case NotResumable => LeaveKeeps(s, w, c, Raised(c, NOT_RESUMABLE));
          }
        case Enter(step) =>
          EnterKeeps(s, w, c, step, now);
          LeaveKeeps(s, w, c, Idle);
        case Act(action) => ActKeeps(s, w, c, action);
        case Record(action) => RecordKeeps(s, w, c, action);
        case CheckInit => CheckInitKeeps(s, w, c);
        case Inspecting(round) => if answer.Reports? { InspectingKeeps(s, w, c, round, answer.containers); }
        case Saving(round, observed, k) =>
          if k < |observed| { SavingKeeps(s, w, c, round, observed, k); }
          else { SavedKeeps(s, w, c, round, observed, k); }
        case Marking(round, observed) => MarkingKeeps(s, w, c, round, observed);
        case Checking(observed) =>
          if RequiredRunning(observed) { CheckingKeeps(s, w, c, observed); }
          else { LeaveKeeps(s, w, c, Raised(c, TRANSIENT)); }
        case Publishing(observed) =>
          PublishingKeeps(s, w, c, observed, now);
          match PublishReady(s.db, c, now).1 {
            case PublishedReady =>
            case PublishLost => LeaveKeeps(s, w, c, Idle);
            case TransitionRefused => LeaveKeeps(s, w, c, Raised(c, BAD_TRANSITION));
          }
        case Unlocking => LeaveKeeps(s, w, c, Returned(c));
      }
    }
  }
}
