/** Every event keeps the system invariant: first the generic shapes, then event by event. */
module SystemSteps {
  import opened Options
  import opened Rows
  import opened LifecycleQueue
  import opened LifecycleRequests
  import opened ProvisionStore
  import opened StoreInvariant
  import opened LifecycleSystem
  import opened SystemInvariant

  // ---- Monotone facts ----

  lemma DidMonotone(log: seq<Effect>, more: seq<Effect>, c: Claim, kind: EffectKind)
    requires log <= more && Did(log, c, kind)
    ensures Did(more, c, kind)
  {
    var i :| DidAt(log, c, kind, i);
    assert DidAt(more, c, kind, i);
  }

  lemma InitRanMonotone(log: seq<Effect>, more: seq<Effect>, p: ProjectId, generation: nat)
    requires log <= more && InitRan(log, p, generation)
    ensures InitRan(more, p, generation)
  {
    var i :| InitRanAt(log, p, generation, i);
    assert InitRanAt(more, p, generation, i);
  }

  lemma InspectedMonotone(log: seq<Effect>, more: seq<Effect>, c: Claim)
    requires log <= more && InspectedAfterReady(log, c)
    ensures InspectedAfterReady(more, c)
  {
    var i, j, reports :| 0 <= i < j && DidAt(log, c, Performed(WaitReady), i)
                         && DidAt(log, c, Inspected(AfterReadiness, reports), j);
    assert DidAt(more, c, Performed(WaitReady), i) && DidAt(more, c, Inspected(AfterReadiness, reports), j);
  }

  lemma ObservedMonotone(log: seq<Effect>, more: seq<Effect>, c: Claim, observed: seq<Observed>)
    requires log <= more && ObservedAfterReady(log, c, observed)
    ensures ObservedAfterReady(more, c, observed)
  {
    hide Inspection;
    var i, j, reports :| 0 <= i < j && DidAt(log, c, Performed(WaitReady), i)
                         && DidAt(log, c, Inspected(AfterReadiness, reports), j) && Inspection(reports) == observed;
    assert DidAt(more, c, Performed(WaitReady), i) && DidAt(more, c, Inspected(AfterReadiness, reports), j);
  }

  lemma WrittenMonotone(log: seq<Effect>, more: seq<Effect>, c: Claim, observed: seq<Observed>, row: Observed)
    requires log <= more && WrittenAfterReady(log, c, observed, row)
    ensures WrittenAfterReady(more, c, observed, row)
  {
    hide Inspection;
    var i, j, reports :| 0 <= i < j && DidAt(log, c, Inspected(AfterReadiness, reports), i)
                         && DidAt(log, c, RowWritten(row), j) && Inspection(reports) == observed;
    assert DidAt(more, c, Inspected(AfterReadiness, reports), i) && DidAt(more, c, RowWritten(row), j);
  }

  lemma WrittenUpToMonotone(log: seq<Effect>, more: seq<Effect>, c: Claim, observed: seq<Observed>, n: nat)
    requires log <= more && WrittenUpTo(log, c, observed, n)
    ensures WrittenUpTo(more, c, observed, n)
  {
    hide WrittenAfterReady, ObservedAfterReady;
    ObservedMonotone(log, more, c, observed);
    forall k | 0 <= k < n && k < |observed| ensures WrittenAfterReady(more, c, observed, observed[k]) {
      WrittenMonotone(log, more, c, observed, observed[k]);
    }
  }

  lemma WritesMonotone(log: seq<Effect>, more: seq<Effect>, c: Claim, at: Point)
    requires log <= more && WritesOk(log, c, at)
    ensures WritesOk(more, c, at)
  {
    hide WrittenUpTo;
    match at {
      case Saving(round, observed, next) =>
        if round.AfterReadiness? { WrittenUpToMonotone(log, more, c, observed, next); }
      case Marking(round, observed) =>
        if round.AfterReadiness? { WrittenUpToMonotone(log, more, c, observed, |observed|); }
      case Checking(observed) => WrittenUpToMonotone(log, more, c, observed, |observed|);
      case Publishing(observed) => WrittenUpToMonotone(log, more, c, observed, |observed|);
      case _ =>
    }
  }

  lemma EvidenceMonotone(db: Db, next: Db, log: seq<Effect>, more: seq<Effect>, c: Claim, at: Point)
    requires log <= more && EvidenceOk(db, log, c, at)
    requires GenerationOf(next, c.project) == GenerationOf(db, c.project)
    ensures EvidenceOk(next, more, c, at)
  {
    forall action | Needs(at, action) ensures Did(more, c, Performed(action)) {
      DidMonotone(log, more, c, Performed(action));
    }
    if Position(at) > ActPosition(RunInit) {
      InitRanMonotone(log, more, c.project, GenerationOf(db, c.project));
    }
    if Position(at) > RoundPosition(AfterReadiness) {
      InspectedMonotone(log, more, c);
    }
  }

  /** The registry rows of a project are the same before and after. */
  ghost predicate SameRows(db: Db, next: Db, p: ProjectId) {
    forall key: ResourceKey :: key.project == p ==>
      (key in db.registry <==> key in next.registry)
      && (key in db.registry ==> next.registry[key] == db.registry[key])
  }

  lemma RegistryFrame(db: Db, next: Db, c: Claim, at: Point)
    requires RegistryOk(db, c, at) && SameRows(db, next, c.project)
    requires GenerationOf(next, c.project) == GenerationOf(db, c.project)
    ensures RegistryOk(next, c, at)
  {
    forall observed | RegistryShows(db, c.project, observed) ensures RegistryShows(next, c.project, observed) {
      forall name | name in REQUIRED_SERVICES && LastStatus(observed, name).Some?
        ensures RegistryRow(next, c.project, name, LastStatus(observed, name).value)
      {
        assert RegistryRow(db, c.project, name, LastStatus(observed, name).value);
      }
    }
  }

  // ---- Workers that do not act ----

  /** What an event owes to a worker that does not act in it. */
  ghost predicate LeavesAlone(s: System, t: System, v: nat)
    requires v in s.workers
  {
    var pc := s.workers[v].pc;
    && v in t.workers && t.workers[v] == s.workers[v]
    && s.log <= t.log && |t.log| <= |s.log| + 1
    && (!pc.Idle? ==>
          && (forall i :: |s.log| <= i < |t.log| ==> !By(t.log[i], pc.claim))
          && (Live(t.db, pc.claim) ==>
                Live(s.db, pc.claim) && t.db.jobs[pc.claim.job].step == s.db.jobs[pc.claim.job].step))
    && (HoldsLock(pc) ==>
          && pc.claim.project in t.locks && t.locks[pc.claim.project] == v
          && (forall i :: |s.log| <= i < |t.log| ==> t.log[i].project != pc.claim.project)
          && SameRows(s.db, t.db, pc.claim.project))
  }

  lemma SagaFrame(s: System, t: System, c: Claim, at: Point)
    requires SagaOk(s.db, s.log, c, at) && s.log <= t.log && |t.log| <= |s.log| + 1
    requires GenerationOf(t.db, c.project) == GenerationOf(s.db, c.project)
    requires forall i :: |s.log| <= i < |t.log| ==> !By(t.log[i], c)
    requires !at.AwaitLock? ==> forall i :: |s.log| <= i < |t.log| ==> t.log[i].project != c.project
    requires !at.AwaitLock? ==> SameRows(s.db, t.db, c.project)
    requires Live(t.db, c) ==> Live(s.db, c) && t.db.jobs[c.job].step == s.db.jobs[c.job].step
    ensures SagaOk(t.db, t.log, c, at)
  {
    hide EvidenceOk, RegistryOk, WritesOk;
    EvidenceMonotone(s.db, t.db, s.log, t.log, c, at);
    WritesMonotone(s.log, t.log, c, at);
    if at.AwaitLock? {
      assert RegistryOk(t.db, c, at) by { AwaitNeedsNoRows(t.db, c); }
      forall i | 0 <= i < |t.log| ensures !By(t.log[i], c) {
        if i < |s.log| { assert t.log[i] == s.log[i]; }
      }
    } else {
      RegistryFrame(s.db, t.db, c, at);
      forall i, j | 0 <= i < j < |t.log| && By(t.log[i], c) && t.log[j].project == c.project
        ensures By(t.log[j], c)
      {
        assert j < |s.log| && t.log[i] == s.log[i] && t.log[j] == s.log[j];
      }
    }
  }

  lemma AwaitNeedsNoRows(db: Db, c: Claim)
    ensures RegistryOk(db, c, AwaitLock)
  {
  }

  lemma GenerationKept(db: Db, next: Db, p: ProjectId)
    requires Evolves(db, next) && p in db.projects
    ensures GenerationOf(next, p) == GenerationOf(db, p)
  {
  }

  lemma BystanderKeeps(s: System, t: System, v: nat)
    requires v in s.workers && WorkerOk(s, v) && Indexed(s.db) && Evolves(s.db, t.db) && LeavesAlone(s, t, v)
    ensures WorkerOk(t, v)
  {
    hide SagaOk, SameRows;
    var pc := s.workers[v].pc;
    if pc.InSaga? {
      GenerationKept(s.db, t.db, pc.claim.project);
      SagaFrame(s, t, pc.claim, pc.at);
    }
  }

  // ---- The effect log ----

  lemma LogFrame(db: Db, next: Db, log: seq<Effect>)
    requires LogOk(db, log) && Evolves(db, next)
    ensures LogOk(next, log)
  {
  }

  lemma AppendKeepsLog(db: Db, log: seq<Effect>, c: Claim, x: Effect)
    requires LogOk(db, log) && Blocks(log) && Tail(log, c) && ClaimOk(db, c)
    requires By(x, c) && x.project == c.project
    ensures LogOk(db, log + [x]) && Blocks(log + [x]) && Tail(log + [x], c)
  {
    var more := log + [x];
    forall i, j, k | 0 <= i < j < k < |more| && more[i].project == more[j].project
                     && more[i].job == more[k].job && more[i].attempt == more[k].attempt
      ensures more[j].job == more[i].job && more[j].attempt == more[i].attempt
    {
      assert more[i] == log[i] && more[j] == log[j];
      if k < |log| {
        assert more[k] == log[k];
      } else {
        assert By(log[i], c) && db.jobs[log[i].job].project == log[i].project;
      }
    }
  }

  // ---- Generic shapes of a worker's own step ----

  /** A transaction of attempt `c` touches no other job, and its own only while it is live. */
  ghost predicate OnlyOwn(db: Db, next: Db, c: Claim) {
    && next.jobs.Keys == db.jobs.Keys
    && (forall j :: j in db.jobs && j != c.job ==> next.jobs[j] == db.jobs[j])
    && (c.job in db.jobs ==>
          && next.jobs[c.job].attempt == db.jobs[c.job].attempt
          && (!Live(db, c) ==> next.jobs[c.job] == db.jobs[c.job]))
  }

  lemma OthersStayDead(s: System, t: System, w: nat, v: nat, c: Claim)
    requires v in s.workers && w in s.workers && v != w && DistinctClaims(s)
    requires !s.workers[w].pc.Idle? && s.workers[w].pc.claim == c && !s.workers[v].pc.Idle?
    requires OnlyOwn(s.db, t.db, c)
    ensures var d := s.workers[v].pc.claim;
            Live(t.db, d) ==> Live(s.db, d) && t.db.jobs[d.job].step == s.db.jobs[d.job].step
  {
    assert !SameAttempt(s.workers[v].pc, s.workers[w].pc);
  }

  /** The worker's own step: it moves from one pc to another, touching only what is its own. */
  ghost predicate OwnStep(s: System, t: System, w: nat, c: Claim) {
    && w in s.workers && !s.workers[w].pc.Idle? && s.workers[w].pc.claim == c
    && t.workers.Keys == s.workers.Keys
    && (forall v :: v in s.workers && v != w ==> t.workers[v] == s.workers[v])
    && (!t.workers[w].pc.Idle? ==> t.workers[w].pc.claim == c)
    && StoreOk(t.db) && Evolves(s.db, t.db) && OnlyOwn(s.db, t.db, c)
    && (forall p :: p != c.project ==> SameRows(s.db, t.db, p))
    && (!HoldsLock(t.workers[w].pc) && !HoldsLock(s.workers[w].pc) ==> SameRows(s.db, t.db, c.project))
    && (forall p :: p != c.project ==> (p in t.locks <==> p in s.locks) && (p in s.locks ==> t.locks[p] == s.locks[p]))
    && (if HoldsLock(t.workers[w].pc) then c.project in t.locks && t.locks[c.project] == w
        else if HoldsLock(s.workers[w].pc) then c.project !in t.locks
        else t.locks == s.locks)
    && (c.project in s.locks ==> s.locks[c.project] == w || t.locks == s.locks)
    && (t.log == s.log
        || (HoldsLock(s.workers[w].pc) && |t.log| == |s.log| + 1 && s.log == t.log[..|s.log|]
            && By(t.log[|s.log|], c) && t.log[|s.log|].project == c.project))
  }

  /** The worker's own step leaves every other worker alone. */
  lemma OwnStepLeavesAlone(s: System, t: System, w: nat, c: Claim, v: nat)
    requires SystemOk(s) && OwnStep(s, t, w, c) && v in s.workers && v != w
    ensures LeavesAlone(s, t, v) && WorkerOk(s, v)
  {
    hide StoreOk, Evolves, SagaOk, SameRows, OnlyOwn, LogOk, Blocks, InitRecorded, LocksOk;
    var pc := s.workers[v].pc;
    assert WorkerOk(s, v) && WorkerOk(s, w);
    if !pc.Idle? {
      OthersStayDead(s, t, w, v, c);
      assert !SameAttempt(pc, s.workers[w].pc);
    }
    hide DistinctClaims, SameAttempt, Live, ClaimOk;
  }

  lemma OwnStepBystander(s: System, t: System, w: nat, c: Claim, v: nat)
    requires SystemOk(s) && OwnStep(s, t, w, c) && v in s.workers && v != w
    ensures WorkerOk(t, v)
  {
    OwnStepLeavesAlone(s, t, w, c, v);
    hide StoreOk, WorkersOk, LocksOk, DistinctClaims, LogOk, Blocks, InitRecorded, WorkerOk, LeavesAlone, Evolves,
         OnlyOwn, SameRows;
    IndexedOf(s.db);
    BystanderKeeps(s, t, v);
  }

  lemma IndexedOf(db: Db)
    requires StoreOk(db)
    ensures Indexed(db)
  {
  }

  lemma OwnStepLocks(s: System, t: System, w: nat, c: Claim)
    requires SystemOk(s) && OwnStep(s, t, w, c)
    ensures LocksOk(t) && DistinctClaims(t)
  {
    hide StoreOk, Evolves, SagaOk, SameRows, OnlyOwn, LogOk, Blocks, InitRecorded;
    forall v, u | v in t.workers && u in t.workers && SameAttempt(t.workers[v].pc, t.workers[u].pc) ensures v == u {
      assert SameAttempt(s.workers[v].pc, s.workers[u].pc);
    }
    assert WorkerOk(s, w);
  }

  lemma OwnStepLog(s: System, t: System, w: nat, c: Claim)
    requires SystemOk(s) && OwnStep(s, t, w, c)
    ensures LogOk(t.db, t.log) && Blocks(t.log)
    ensures HoldsLock(s.workers[w].pc) ==> Tail(t.log, c)
  {
    hide StoreOk, Evolves, SameRows, OnlyOwn, InitRecorded, EvidenceOk, RegistryOk;
    assert WorkerOk(s, w);
    if t.log == s.log {
      LogFrame(s.db, t.db, t.log);
    } else {
      var x := t.log[|s.log|];
      assert t.log == s.log + [x];
      AppendKeepsLog(s.db, s.log, c, x);
      LogFrame(s.db, t.db, t.log);
    }
  }

  lemma OwnStepKeeps(s: System, t: System, w: nat, c: Claim)
    requires SystemOk(s) && OwnStep(s, t, w, c) && WorkerOk(t, w) && InitRecorded(t.db, t.log)
    ensures SystemOk(t)
  {
    hide StoreOk, Evolves, SameRows, OnlyOwn, InitRecorded, LogOk, Blocks, LocksOk, DistinctClaims, WorkerOk;
    OwnStepLocks(s, t, w, c);
    OwnStepLog(s, t, w, c);
    forall v | v in t.workers ensures WorkerOk(t, v) {
      if v != w { OwnStepBystander(s, t, w, c, v); }
    }
  }
}
