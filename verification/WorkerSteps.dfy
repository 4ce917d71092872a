/** The remaining events keep the system invariant: claims, heartbeats, finalizers, crashes, API requests. */
module WorkerSteps {
  import opened Options
  import opened Rows
  import opened LifecycleQueue
  import opened LifecycleRequests
  import opened ProvisionStore
  import opened StoreInvariant
  import opened LifecycleSystem
  import opened SystemInvariant
  import opened SystemSteps
  import opened SagaSteps
  import RetryDelay

  lemma BeatKeeps(s: System, w: nat, now: Time, lease: Time)
    requires SystemOk(s) && w in s.workers && !s.workers[w].pc.Idle?
    ensures SystemOk(BeatOnce(s, w, s.workers[w].pc.claim, now, lease))
  {
    hide StoreOk, Evolves, LogOk, Blocks, InitRecorded, DistinctClaims, LocksOk, Tail, EvidenceOk, RegistryOk, SameRows;
    var c := s.workers[w].pc.claim;
    assert WorkerOk(s, w);
    var (db, ok) := Heartbeat(s.db, c.job, c.worker, c.attempt, now, lease);
    if lease <= 0.0 {
      LeaveKeeps(s, w, c, Raised(c, TRANSIENT));
    } else if !ok {
      LeaveKeeps(s, w, c, Idle);
    } else {
      HeartbeatKeeps(s.db, c.job, c.worker, c.attempt, now, lease);
      var t := s.(db := db);
      SameRegistry(s.db, db);
      SameRegistryInit(s.db, db, s.log);
      if s.workers[w].pc.InSaga? {
        EvidenceMonotone(s.db, db, s.log, s.log, c, s.workers[w].pc.at);
        RegistryFrame(s.db, db, c, s.workers[w].pc.at);
      }
      assert OwnStep(s, t, w, c) by { HeldLock(s, w); }
      OwnStepKeeps(s, t, w, c);
    }
  }

  lemma SameRegistry(db: Db, next: Db)
    requires next.registry == db.registry
    ensures forall p :: SameRows(db, next, p)
  {
  }

  /** A lock recorded for a worker is the lock of the project it works on, and it does hold it. */
  lemma HeldLock(s: System, w: nat)
    requires SystemOk(s) && w in s.workers && !s.workers[w].pc.Idle?
    ensures forall p :: p in s.locks && s.locks[p] == w ==> HoldsLock(s.workers[w].pc) && p == s.workers[w].pc.claim.project
    ensures HoldsLock(s.workers[w].pc) ==>
              s.workers[w].pc.claim.project in s.locks && s.locks[s.workers[w].pc.claim.project] == w
  {
    hide StoreOk, LogOk, Blocks, InitRecorded, DistinctClaims, SagaOk;
    assert WorkerOk(s, w);
  }

  lemma ConcludeKeeps(s: System, w: nat, now: Time, options: RetryOptions)
    requires SystemOk(s) && w in s.workers && (s.workers[w].pc.Returned? || s.workers[w].pc.Raised?)
    ensures SystemOk(Conclude(s, w, s.workers[w].pc, now, options))
  {
    hide StoreOk, Evolves, LogOk, Blocks, InitRecorded, DistinctClaims, LocksOk, Tail, EvidenceOk, RegistryOk,
         SameRows, FailJob;
    var pc := s.workers[w].pc;
    var c := pc.claim;
    assert WorkerOk(s, w);
    var t := Conclude(s, w, pc, now, options);
    if pc.Returned? {
      CompleteKeeps(s.db, c.job, c.worker, c.attempt, now);
    } else {
      RetryOrFailKeeps(s.db, c.job, c.worker, c.attempt, now, pc.error, options);
      RetryOrFailOnlyOwn(s.db, c, now, pc.error, options);
    }
    SameRegistry(s.db, t.db);
    SameRegistryInit(s.db, t.db, s.log);
    assert OwnStep(s, t, w, c) by { HeldLock(s, w); }
    OwnStepKeeps(s, t, w, c);
  }

  /** A failed job keeps its attempt and step, and no other job or registry row changes. */
  lemma FailJobShape(db: Db, j: JobId, now: Time, code: string)
    requires j in db.jobs
    ensures var next := FailJob(db, j, now, code);
            next.Some? ==>
              && next.value.registry == db.registry && j in next.value.jobs
              && next.value.jobs == db.jobs[j := next.value.jobs[j]]
              && next.value.jobs[j].status.Failed?
              && next.value.jobs[j].attempt == db.jobs[j].attempt && next.value.jobs[j].step == db.jobs[j].step
  {
  }

  /** Only the row of the owned job may change, and neither its attempt nor the registry. */
  lemma RetryOrFailShape(db: Db, c: Claim, now: Time, error: LifecycleError, options: RetryOptions)
    ensures var next := RetryOrFail(db, c.job, c.worker, c.attempt, now, error, options).0;
            && next.registry == db.registry
            && (next == db
                || (Owns(db, c.job, c.worker, c.attempt, now) && c.job in next.jobs
                    && next.jobs == db.jobs[c.job := next.jobs[c.job]]
                    && next.jobs[c.job].attempt == db.jobs[c.job].attempt))
  {
    hide FailJob, ErrorCode, RetryDelay.Delay;
    if c.job in db.jobs {
      FailJobShape(db, c.job, now, ErrorCode(error));
    }
  }

  lemma RetryOrFailOnlyOwn(db: Db, c: Claim, now: Time, error: LifecycleError, options: RetryOptions)
    requires ClaimOk(db, c)
    ensures var next := RetryOrFail(db, c.job, c.worker, c.attempt, now, error, options).0;
            OnlyOwn(db, next, c) && next.registry == db.registry
  {
    hide RetryOrFail, Owns;
    RetryOrFailShape(db, c, now, error, options);
    OwnerIsLive(db, c, now);
  }

  lemma OwnerIsLive(db: Db, c: Claim, now: Time)
    ensures Owns(db, c.job, c.worker, c.attempt, now) ==> c.job in db.jobs && Live(db, c)
  {
  }

  lemma SpawnKeeps(s: System, w: nat, worker: WorkerId)
    requires SystemOk(s) && w !in s.workers
    ensures SystemOk(s.(workers := s.workers[w := Worker(worker, Idle)]))
  {
    hide StoreOk, LogOk, Blocks, InitRecorded, SagaOk;
    var t := s.(workers := s.workers[w := Worker(worker, Idle)]);
    forall v | v in t.workers ensures WorkerOk(t, v) {
      if v != w { assert WorkerOk(s, v); }
    }
    forall v, u | v in t.workers && u in t.workers && SameAttempt(t.workers[v].pc, t.workers[u].pc) ensures v == u {
      assert SameAttempt(s.workers[v].pc, s.workers[u].pc);
    }
  }

  // ---- Claims ----

  /** A turn of the claim loop changes at most one job, which from then on no older attempt owns. */
  ghost predicate Overtakes(db: Db, next: Db) {
    && (forall j :: j in db.jobs ==> j in next.jobs && next.jobs[j].step == db.jobs[j].step)
    && (forall j :: j in db.jobs && next.jobs[j] != db.jobs[j] ==>
          !next.jobs[j].status.Running? || next.jobs[j].attempt == db.jobs[j].attempt + 1)
  }

  lemma OneOvertakes(db: Db, next: Db, j: JobId, b: Job)
    requires j in db.jobs && next.jobs == db.jobs[j := b] && b.step == db.jobs[j].step
    requires !b.status.Running? || b.attempt == db.jobs[j].attempt + 1
    ensures Overtakes(db, next)
  {
  }

  lemma ClaimOvertakes(db: Db, worker: WorkerId, now: Time, lease: Time, skip: set<JobId>)
    ensures var next := ClaimOnce(db, worker, now, lease, skip).0;
            Overtakes(db, next) && next.registry == db.registry
  {
    hide FailJob, FirstDue, Overtakes, SelectDue;
    var (next, outcome) := ClaimOnce(db, worker, now, lease, skip);
    SelectDueBasics(db, now, skip);
    match outcome {
      case Claimed(c) => OneOvertakes(db, next, c.job, next.jobs[c.job]);
      case ExpiredFinally(j) =>
        FailJobShape(db, j, now, LEASE_EXPIRED_CODE);
        OneOvertakes(db, next, j, next.jobs[j]);
      case _ => NothingOvertakes(db);
    }
  }

  lemma NothingOvertakes(db: Db)
    ensures Overtakes(db, db)
  {
  }

  lemma SelectDueBasics(db: Db, now: Time, skip: set<JobId>)
    ensures SelectDue(db, now, skip).Some? ==> SelectDue(db, now, skip).value in db.jobs
  {
  }

  lemma ClaimBystander(s: System, t: System, v: nat)
    requires SystemOk(s) && v in s.workers && v in t.workers && t.workers[v] == s.workers[v]
    requires Evolves(s.db, t.db) && Overtakes(s.db, t.db) && t.db.registry == s.db.registry
    requires t.locks == s.locks && t.log == s.log
    ensures WorkerOk(t, v)
  {
    hide StoreOk, Evolves, SagaOk, SameRows, LogOk, Blocks, InitRecorded, LocksOk, DistinctClaims;
    assert WorkerOk(s, v);
    SameRegistry(s.db, t.db);
    IndexedOf(s.db);
    BystanderKeeps(s, t, v);
  }

  lemma ClaimTurnKeeps(s: System, w: nat, now: Time, lease: Time, skip: set<JobId>)
    requires SystemOk(s) && w in s.workers && s.workers[w].pc.Idle?
    ensures SystemOk(TakeClaim(s, w, now, lease, skip))
  {
    hide StoreOk, Evolves, SagaOk, LogOk, Blocks, InitRecorded, SelectDue, FailJob, WorkerOk, Overtakes,
         DistinctClaims, LocksOk;
    var t := TakeClaim(s, w, now, lease, skip);
    var (db, outcome) := ClaimOnce(s.db, s.workers[w].id, now, lease, skip);
    ClaimKeeps(s.db, s.workers[w].id, now, lease, skip);
    ClaimOvertakes(s.db, s.workers[w].id, now, lease, skip);
    LogFrame(s.db, db, s.log);
    SameRegistryInit(s.db, db, s.log);
    forall v | v in t.workers && (v != w || t.workers[w] == s.workers[w]) ensures WorkerOk(t, v) {
      ClaimBystander(s, t, v);
    }
    if outcome.Claimed? {
      NewClaimOk(s, t, w, outcome.claim);
    } else {
      IdleTurn(s, t);
    }
  }

  lemma IdleTurn(s: System, t: System)
    requires LocksOk(s) && DistinctClaims(s) && t.workers == s.workers && t.locks == s.locks
    ensures LocksOk(t) && DistinctClaims(t)
  {
    forall v, u | v in t.workers && u in t.workers && SameAttempt(t.workers[v].pc, t.workers[u].pc) ensures v == u {
      assert SameAttempt(s.workers[v].pc, s.workers[u].pc);
    }
  }

  /** The worker that made the claim is the only one with that attempt, and has not acted in it. */
  lemma NewClaimOk(s: System, t: System, w: nat, c: Claim)
    requires SystemOk(s) && w in s.workers && s.workers[w].pc.Idle?
    requires c.job in s.db.jobs && c.job in t.db.jobs && c.attempt == s.db.jobs[c.job].attempt + 1
    requires t.db.jobs[c.job].attempt == c.attempt && t.db.jobs[c.job].project == c.project
    requires t.db.jobs[c.job].operation == c.operation
    requires t.locks == s.locks && t.log == s.log
    requires t.workers == s.workers[w := Worker(s.workers[w].id,
               if c.operation.Provision? then InSaga(c, AwaitLock) else Raised(c, RUNNER_NOT_CONFIGURED))]
    ensures WorkerOk(t, w) && LocksOk(t) && DistinctClaims(t)
  {
    hide StoreOk, Blocks, InitRecorded, SagaOk;
    forall v, u | v in t.workers && u in t.workers && SameAttempt(t.workers[v].pc, t.workers[u].pc) ensures v == u {
      if v != w && u != w {
        assert SameAttempt(s.workers[v].pc, s.workers[u].pc);
      } else if v != w {
        assert WorkerOk(s, v);
      } else if u != w {
        assert WorkerOk(s, u);
      }
    }
    assert Untouched(t.log, c);
    StartOk(t.db, t.log, c);
  }

  lemma StartOk(db: Db, log: seq<Effect>, c: Claim)
    requires Untouched(log, c)
    ensures SagaOk(db, log, c, AwaitLock)
  {
  }

  // ---- API requests ----

  ghost predicate LeavesJobs(db: Db, next: Db) {
    next.registry == db.registry && forall j :: j in db.jobs ==> j in next.jobs && next.jobs[j] == db.jobs[j]
  }

  lemma CreateLeavesJobs(db: Db, e: Event)
    requires e.Create?
    ensures LeavesJobs(db, RequestNext(db, e))
  {
    hide HasActive;
  }

  lemma RetryLeavesJobs(db: Db, e: Event)
    requires e.Retry?
    ensures LeavesJobs(db, RequestNext(db, e))
  {
    hide HasActive, SameRequest, VisibleJob;
  }

  lemma DeleteLeavesJobs(db: Db, e: Event)
    requires e.RequestDelete?
    ensures LeavesJobs(db, RequestNext(db, e))
  {
    hide HasActive, SameRequest, VisibleJob, GrantValid;
  }

  lemma RequestLeavesJobs(db: Db, e: Event)
    requires IsRequest(e)
    ensures var next := RequestNext(db, e);
            next.registry == db.registry && forall j :: j in db.jobs ==> j in next.jobs && next.jobs[j] == db.jobs[j]
  {
    hide RequestNext;
    match e {
      case Create(_, _, _, _, _, _, _, _) => CreateLeavesJobs(db, e);
      case Retry(_, _, _, _, _, _, _) => RetryLeavesJobs(db, e);
      case IssueReauth(_, _, _, _, _, _) => IssueLeavesJobs(db, e);
      case RequestDelete(_, _, _, _, _, _, _, _) => DeleteLeavesJobs(db, e);
    }
  }

  lemma IssueLeavesJobs(db: Db, e: Event)
    requires e.IssueReauth?
    ensures LeavesJobs(db, RequestNext(db, e))
  {
    hide IssueGrant;
    IssueShape(db, e.user, e.project, e.token, e.now, e.ttl, e.check);
  }

  lemma RequestStoreKeeps(db: Db, e: Event)
    requires IsRequest(e) && StoreOk(db)
    ensures StoreOk(RequestNext(db, e)) && Evolves(db, RequestNext(db, e))
  {
    hide StoreOk, Evolves, CreateProject, RetryProvision, IssueGrant, RequestDeletion;
    match e {
      case Create(name, slug, description, user, key, project, job, now) =>
        CreateKeeps(db, name, slug, description, user, key, project, job, now);
      case Retry(slug, failedJob, user, key, job, now, keyVisible) =>
        RetryProvisionKeeps(db, slug, failedJob, user, key, job, now, keyVisible);
      case IssueReauth(user, project, token, now, ttl, check) =>
        GrantKeeps(db, user, project, token, now, ttl, check);
      case RequestDelete(slug, confirmation, key, reauth, user, job, now, keyVisible) =>
        DeletionKeeps(db, slug, confirmation, key, reauth, user, job, now, keyVisible);
    }
  }

  lemma RequestKeeps(s: System, e: Event)
    requires SystemOk(s) && IsRequest(e)
    ensures SystemOk(Next(s, e))
  {
    hide StoreOk, Evolves, RequestNext, WorkerOk, LogOk, Blocks, InitRecorded, LocksOk, DistinctClaims;
    var t := Next(s, e);
    RequestStoreKeeps(s.db, e);
    RequestLeavesJobs(s.db, e);
    LogFrame(s.db, t.db, s.log);
    SameRegistryInit(s.db, t.db, s.log);
    IdleTurn(s, t);
    forall v | v in t.workers ensures WorkerOk(t, v) {
      ClaimBystander(s, t, v);
    }
  }

  // ---- All events ----

  lemma WorkerNextKeeps(s: System, w: nat, e: Event)
    requires SystemOk(s) && w in s.workers
    ensures SystemOk(WorkerNext(s, w, e))
  {
    hide SystemOk;
    var pc := s.workers[w].pc;
    match e {
      case ClaimTurn(_, now, lease, skip) => if pc.Idle? { ClaimTurnKeeps(s, w, now, lease, skip); }
      case Beat(_, now, lease) => if !pc.Idle? { BeatKeeps(s, w, now, lease); }
      case BeatBroken(_, error) => if !pc.Idle? { LeaveKeeps(s, w, pc.claim, Raised(pc.claim, error)); }
      case Advance(_, now, answer) => if pc.InSaga? { SagaKeeps(s, w, pc.claim, pc.at, now, answer); }
      case Finalize(_, now, options) => if pc.Returned? || pc.Raised? { ConcludeKeeps(s, w, now, options); }
      case Crash(_) => if !pc.Idle? { LeaveKeeps(s, w, pc.claim, Idle); }
      case _ =>
    }
  }

  lemma NextKeeps(s: System, e: Event)
    requires SystemOk(s)
    ensures SystemOk(Next(s, e))
  {
    hide SystemOk, RequestNext, WorkerNext;
    if IsRequest(e) {
      RequestKeeps(s, e);
    } else if e.w in s.workers {
      WorkerNextKeeps(s, e.w, e);
    } else if e.Spawn? {
      SpawnKeeps(s, e.w, e.worker);
    }
  }

  lemma InitOk()
    ensures SystemOk(INIT)
  {
  }

  /** Whatever the interleaving, the invariant holds in every state the system reaches. */
  lemma {:induction false} RunKeeps(es: seq<Event>)
    ensures SystemOk(Run(INIT, es))
  {
    if |es| == 0 {
      InitOk();
    } else {
      RunKeeps(es[..|es| - 1]);
      NextKeeps(Run(INIT, es[..|es| - 1]), es[|es| - 1]);
    }
  }
}
