/**
 What the API requests do, said of the fields of the rows alone: when exactly a request is
 accepted as a new one, the rows it then leaves, and when a grant is spent.
*/
module RequestOutcomes {
  import opened Options
  import opened Rows
  import opened LifecycleRequests
  import opened StoreInvariant
  import opened LifecycleSystem
  import opened SystemInvariant
  import opened SagaSteps
  import opened WorkerSteps
  import opened LifecycleRuns
  import opened LifecycleQueue
  import opened QueueOutcomes

  /** No job of the project is pending, running or waiting for a retry. */
  predicate Idle(db: Db, p: ProjectId) {
    forall j :: j in db.jobs && db.jobs[j].project == p ==> db.jobs[j].status == Succeeded || db.jobs[j].status == Failed
  }

  lemma IdleExactly(db: Db, p: ProjectId)
    ensures Idle(db, p) <==> !HasActive(db, p)
  {
    if !Idle(db, p) {
      var j :| j in db.jobs && db.jobs[j].project == p && db.jobs[j].status != Succeeded && db.jobs[j].status != Failed;
      assert ActiveFor(db, p, j);
    }
  }

  /** A job as it is queued: nobody's, never tried, due at once. */
  function Queued(p: ProjectId, operation: Operation, attempts: nat, key: Key, fingerprint: Fingerprint, user: UserId,
                  now: Time): Job
  {
    Job(project := p, operation := operation, status := Pending, step := None, attempt := 0, maxAttempts := attempts,
        availableAt := now, lockedBy := None, lockExpiresAt := None, heartbeatAt := None, key := key,
        fingerprint := fingerprint, requestedBy := user, errorCode := None, createdAt := now, startedAt := None,
        finishedAt := None)
  }

  // ---- Creating a project ----

  /** A creation is accepted as new exactly when slug, key and both identifiers are free. */
  lemma CreateExactly(db: Db, name: string, slug: string, description: Option<string>, user: UserId, key: Key,
                      p: ProjectId, j: JobId, now: Time)
    requires StoreOk(db)
    ensures var (next, reply) := CreateProject(db, name, slug, description, user, key, p, j, now);
            var free := p !in db.projects && slug !in db.slugIndex && j !in db.jobs && key !in db.keyIndex;
            && (!free ==> next == db)
            && (free ==> && reply == Created(p, j)
                         && next == db.(projects := db.projects[p := Project(name, slug, Provisioning, 1, now)],
                                        slugIndex := db.slugIndex[slug := p], keyIndex := db.keyIndex[key := j],
                                        jobs := db.jobs[j := Queued(p, Provision, 5, key,
                                                                    CreateRequest(name, slug, description, user), user, now)],
                                        audit := db.audit + [Requested("project.provision.requested", user, p, j)]))
  {
    hide JobsOk, Fingerprinted, OneActive, Coupled, Audited, GrantsOk;
    assert forall k :: ActiveFor(db, p, k) ==> db.jobs[k].project in db.projects;
  }

  /** Otherwise the key decides, then the slug: the same request gets its job again, another one a conflict. */
  lemma CreateOtherwise(db: Db, name: string, slug: string, description: Option<string>, user: UserId, key: Key,
                        p: ProjectId, j: JobId, now: Time)
    requires StoreOk(db) && (p in db.projects || slug in db.slugIndex || j in db.jobs || key in db.keyIndex)
    ensures var reply := CreateProject(db, name, slug, description, user, key, p, j, now).1;
            if key in db.keyIndex then
              var earlier := db.keyIndex[key];
              && earlier in db.jobs
              && reply == if db.jobs[earlier].fingerprint == CreateRequest(name, slug, description, user)
                          then Created(db.jobs[earlier].project, earlier) else KeyConflict
            else reply == if slug in db.slugIndex then DuplicateSlug else CreateFailed
  {
    hide JobsOk, Fingerprinted, OneActive, Coupled, Audited, GrantsOk;
  }

  // ---- Retrying a provision ----

  /** A retry is accepted as new exactly for a FAILED provision of a PROVISION_FAILED project, under a free key. */
  lemma RetryProvisionExactly(db: Db, slug: string, failedJob: JobId, user: UserId, key: Key, j: JobId, now: Time,
                              keyVisible: bool)
    requires StoreOk(db) && j !in db.jobs
    ensures var (next, reply) := RetryProvision(db, slug, failedJob, user, key, j, now, keyVisible);
            var allowed := && slug in db.slugIndex && failedJob in db.jobs
                           && db.jobs[failedJob].project == db.slugIndex[slug] && key !in db.keyIndex
                           && db.jobs[failedJob].operation == Provision && db.jobs[failedJob].status == Failed
                           && db.projects[db.slugIndex[slug]].status == ProvisionFailed;
            && (reply == Accepted(j) <==> allowed) && (!allowed ==> next == db)
            && (allowed ==>
                  var p := db.slugIndex[slug];
                  next == db.(projects := db.projects[p := db.projects[p].(status := Provisioning, updatedAt := now)],
                              keyIndex := db.keyIndex[key := j],
                              jobs := db.jobs[j := Queued(p, Provision, db.jobs[failedJob].maxAttempts, key,
                                                          RetryRequest(user, failedJob, p), user, now)],
                              audit := db.audit + [Requested("project.provision.retry_requested", user, p, j)]))
  {
    hide Fingerprinted, OneActive, Audited, GrantsOk, Coupled, HasActive;
    if slug in db.slugIndex {
      SlugFindsProject(db, slug);
      FailedIsIdle(db, db.slugIndex[slug]);
    }
    if failedJob in db.jobs { assert JobOk(db.jobs[failedJob]); }
  }

  // ---- Deleting a project ----

  /** The newest failed deletion of the project. */
  ghost predicate NewestFailedDeletion(db: Db, p: ProjectId, l: JobId) {
    && l in db.jobs && db.jobs[l].project == p && db.jobs[l].operation == Delete && db.jobs[l].status == Failed
    && forall k :: k in db.jobs && db.jobs[k].project == p && db.jobs[k].operation == Delete
                   && db.jobs[k].status == Failed && k != l ==>
         || db.jobs[k].createdAt < db.jobs[l].createdAt
         || (db.jobs[k].createdAt == db.jobs[l].createdAt && k < l)
  }

  /** The grant is newer than the end of the newest failed deletion, if the project is in that state. */
  ghost predicate NewerThanFailure(db: Db, grant: Grant, p: ProjectId)
    requires p in db.projects
  {
    db.projects[p].status == DeletionFailed ==>
      forall l :: NewestFailedDeletion(db, p, l) ==>
        db.jobs[l].finishedAt.Some? && db.jobs[l].finishedAt.value < grant.createdAt
  }

  /** An unspent, unexpired grant of this user for deleting this project. */
  ghost predicate Grants(db: Db, token: Option<Token>, actor: UserId, p: ProjectId, now: Time)
    requires p in db.projects
  {
    token.Some? && token.value != "" && token.value in db.grants
    && var grant := db.grants[token.value];
       && grant.user == actor && grant.action == "project.delete" && grant.project == p
       && grant.consumedAt == None && now < grant.expiresAt && NewerThanFailure(db, grant, p)
  }

  lemma NewestIsBoundary(db: Db, p: ProjectId, l: JobId)
    requires StoreOk(db) && p in db.projects && NewestFailedDeletion(db, p, l)
    ensures db.jobs[l].finishedAt.Some? && FailureBoundary(db, p) == db.jobs[l].finishedAt.value
  {
    hide Indexed, Fingerprinted, OneActive, Coupled, Audited, GrantsOk;
    assert JobOk(db.jobs[l]);
    assert FailedDelete(db, p, l);
    LatestFailureExists(db, p);
    forall k | k in db.jobs && LatestFailure(db, p, k) ensures k == l {
      assert Newer(db.jobs[k], k, db.jobs[l], l);
    }
  }

  lemma GrantValidExactly(db: Db, token: Option<Token>, actor: UserId, p: ProjectId, now: Time)
    requires StoreOk(db) && p in db.projects
    ensures GrantValid(db, token, actor, p, now) <==> Grants(db, token, actor, p, now)
  {
    hide FailureBoundary, JobsOk, OneActive, Fingerprinted, Audited, GrantsOk, Indexed;
    if db.projects[p].status == DeletionFailed {
      assert HasFailedDelete(db, p);
      var some :| FailedDelete(db, p, some);
      LatestFailureExists(db, p);
      var l :| l in db.jobs && LatestFailure(db, p, l);
      assert NewestFailedDeletion(db, p, l) by {
        forall k | k in db.jobs && FailedDelete(db, p, k) && k != l
          ensures db.jobs[k].createdAt < db.jobs[l].createdAt || (db.jobs[k].createdAt == db.jobs[l].createdAt && k < l)
        {
          assert Newer(db.jobs[l], l, db.jobs[k], k);
        }
      }
      NewestIsBoundary(db, p, l);
      forall k | NewestFailedDeletion(db, p, k) ensures k == l {}
    }
  }

  /**
   A deletion is accepted as new exactly for an idle project in a state that can be deleted,
   with its slug confirmed, under a free key, for a grant of this user for this project that is
   unspent, unexpired and newer than the last failed deletion. It spends that grant.
  */
  lemma DeletionExactly(db: Db, slug: string, confirmation: string, key: Key, token: Option<Token>, actor: UserId,
                        j: JobId, now: Time, keyVisible: bool)
    requires StoreOk(db) && j !in db.jobs
    ensures var (next, reply) := RequestDeletion(db, slug, confirmation, key, token, actor, j, now, keyVisible);
            && (reply == Accepted(j) <==> DeletionAllowed(db, slug, confirmation, key, token, actor, now))
            && (reply != Accepted(j) ==> next == db)
            && (reply == Accepted(j) ==>
                  Deleted(db, next, db.slugIndex[slug], slug, confirmation, key, token.value, actor, j, now))
  {
    hide JobsOk, Fingerprinted, OneActive, Coupled, Audited, GrantsOk, GrantValid, HasActive, Grants, Idle;
    if slug in db.slugIndex {
      var p := db.slugIndex[slug];
      SlugFindsProject(db, slug);
      GrantValidExactly(db, token, actor, p, now);
      IdleExactly(db, p);
      if GrantValid(db, token, actor, p, now) { TokenIsGrant(db, token, actor, p, now); }
    }
  }

  lemma TokenIsGrant(db: Db, token: Option<Token>, actor: UserId, p: ProjectId, now: Time)
    requires p in db.projects && GrantValid(db, token, actor, p, now)
    ensures token.Some? && token.value in db.grants
  {
  }

  ghost predicate DeletionAllowed(db: Db, slug: string, confirmation: string, key: Key, token: Option<Token>,
                                  actor: UserId, now: Time)
  {
    && slug in db.slugIndex && db.slugIndex[slug] in db.projects && confirmation == slug && key !in db.keyIndex
    && var p := db.slugIndex[slug];
       && (db.projects[p].status == Ready || db.projects[p].status == ProvisionFailed
           || db.projects[p].status == DeletionFailed)
       && Idle(db, p) && Grants(db, token, actor, p, now)
  }

  ghost predicate Deleted(db: Db, next: Db, p: ProjectId, slug: string, confirmation: string, key: Key, token: Token,
                          actor: UserId, j: JobId, now: Time)
  {
    && p in db.projects && token in db.grants
    && next == db.(projects := db.projects[p := db.projects[p].(status := Deleting, updatedAt := now)],
                   grants := db.grants[token := db.grants[token].(consumedAt := Some(now))],
                   spent := db.spent[token := j], keyIndex := db.keyIndex[key := j],
                   jobs := db.jobs[j := Queued(p, Delete, 5, key, DeleteRequest(actor, confirmation, p, slug), actor, now)],
                   audit := db.audit + [Requested("project.delete.requested", actor, p, j)])
  }

  /** A request that is answered with an older job is the one that job was made for. */
  lemma DeletionAnsweredFromKey(db: Db, slug: string, confirmation: string, key: Key, token: Option<Token>,
                                actor: UserId, newJob: JobId, now: Time, keyVisible: bool, j: JobId)
    requires StoreOk(db) && j in db.jobs
    requires RequestDeletion(db, slug, confirmation, key, token, actor, newJob, now, keyVisible).1 == Accepted(j)
    ensures db.jobs[j].key == key && db.jobs[j].operation == Delete && db.jobs[j].requestedBy == actor
    ensures db.jobs[j].fingerprint == DeleteRequest(actor, confirmation, db.jobs[j].project, slug)
  {
    hide JobsOk, Fingerprinted, OneActive, Coupled, Audited, GrantsOk, GrantValid, HasActive;
  }

  // ---- Grants are spent in time ----

  /** A grant that has been consumed was consumed before it expired. */
  predicate InTime(grants: map<Token, Grant>) {
    forall t :: t in grants && grants[t].consumedAt.Some? ==> grants[t].consumedAt.value < grants[t].expiresAt
  }

  lemma FailJobLeavesGrants(db: Db, j: JobId, now: Time, code: string)
    requires j in db.jobs
    ensures FailJob(db, j, now, code).Some? ==> FailJob(db, j, now, code).value.grants == db.grants
  {
  }

  lemma ClaimLeavesGrants(db: Db, worker: WorkerId, now: Time, lease: Time, skip: set<JobId>)
    ensures ClaimOnce(db, worker, now, lease, skip).0.grants == db.grants
  {
    hide FailJob, SelectDue;
    SelectDueBasics(db, now, skip);
    var selected := SelectDue(db, now, skip);
    if selected.Some? { FailJobLeavesGrants(db, selected.value, now, LEASE_EXPIRED_CODE); }
  }

  lemma FinalizerLeavesGrants(s: System, w: nat, pc: Pc, now: Time, options: RetryOptions)
    requires w in s.workers && (pc.Returned? || pc.Raised?)
    ensures Conclude(s, w, pc, now, options).db.grants == s.db.grants
  {
    hide FailJob;
    if pc.claim.job in s.db.jobs && pc.Raised? {
      FailJobLeavesGrants(s.db, pc.claim.job, now, ErrorCode(pc.error));
    }
  }

  lemma WorkerLeavesGrants(s: System, w: nat, e: Event)
    requires w in s.workers
    ensures WorkerNext(s, w, e).db.grants == s.db.grants
  {
    hide ClaimOnce, AdvanceSaga, Conclude, Heartbeat;
    var pc := s.workers[w].pc;
    if e.ClaimTurn? && pc.Idle? {
      ClaimLeavesGrants(s.db, s.workers[w].id, e.now, e.lease, e.skip);
    } else if e.Finalize? && (pc.Returned? || pc.Raised?) {
      FinalizerLeavesGrants(s, w, pc, e.now, e.options);
    } else if e.Advance? && pc.InSaga? {
      SagaTouches(s, w, pc.claim, pc.at, e.now, e.answer);
    } else if e.Beat? && !pc.Idle? {
      HeartbeatExactly(s.db, pc.claim.job, pc.claim.worker, pc.claim.attempt, e.now, e.lease);
    }
  }

  lemma DeletionSpendsInTime(db: Db, e: Event)
    requires StoreOk(db) && e.RequestDelete? && InTime(db.grants)
    ensures InTime(RequestNext(db, e).grants)
  {
    hide StoreOk, RequestDeletion, NewerThanFailure, Idle;
    if e.job in db.jobs {
      TakenJobChangesNothing(db, e);
    } else {
      DeletionExactly(db, e.slug, e.confirmation, e.key, e.reauth, e.user, e.job, e.now, e.keyVisible);
    }
  }

  lemma TakenJobChangesNothing(db: Db, e: Event)
    requires e.RequestDelete? && e.job in db.jobs
    ensures RequestNext(db, e) == db
  {
    hide GrantValid, HasActive;
  }

  lemma OtherRequestsInTime(db: Db, e: Event)
    requires IsRequest(e) && !e.RequestDelete? && InTime(db.grants)
    ensures InTime(RequestNext(db, e).grants)
  {
    hide HasActive, SameRequest, IssueGrant;
    if e.IssueReauth? { IssueShape(db, e.user, e.project, e.token, e.now, e.ttl, e.check); }
  }

  /** In every reachable state a consumed grant was consumed before it expired. */
  lemma {:induction false} GrantsAreSpentInTime(es: seq<Event>)
    ensures InTime(Run(INIT, es).db.grants)
  {
    hide StoreOk, Next, InTime;
    if |es| == 0 {
      NoGrants();
    } else {
      var front, last := es[..|es| - 1], es[|es| - 1];
      GrantsAreSpentInTime(front);
      RunKeeps(front);
      StepInTime(Run(INIT, front), last);
    }
  }

  lemma NoGrants()
    ensures InTime(INIT.db.grants)
  {
  }

  lemma StepInTime(s: System, e: Event)
    requires SystemOk(s) && InTime(s.db.grants)
    ensures InTime(Next(s, e).db.grants)
  {
    hide StoreOk, WorkersOk, LocksOk, DistinctClaims, LogOk, Blocks, InitRecorded, RequestNext, WorkerNext, InTime;
    if e.RequestDelete? {
      DeletionSpendsInTime(s.db, e);
    } else if IsRequest(e) {
      OtherRequestsInTime(s.db, e);
    } else if e.w in s.workers {
      WorkerLeavesGrants(s, e.w, e);
    }
  }

  // ---- Refused re-authentications ----

  const REASONS: seq<string> := [
    "rate_limit_unavailable", "rate_limited", "actor_not_found", "inactive_actor", "not_super_admin", "invalid_action",
    "project_not_found", "invalid_password"
  ]

  /** What stands against a grant, in the order in which it is looked at. */
  predicate StandsAgainst(db: Db, p: ProjectId, check: ReauthCheck, k: nat)
    requires k < 8
  {
    match k
    case 0 => check.withinLimit == None
    case 1 => check.withinLimit == Some(false)
    case 2 => !check.known
    case 3 => !check.active
    case 4 => !check.admin
    case 5 => check.action != "project.delete"
    case 6 => p !in db.projects
    case _ => !check.passwordMatches
  }

  predicate FirstAgainst(db: Db, p: ProjectId, check: ReauthCheck, k: nat)
    requires k < 8
  {
    StandsAgainst(db, p, check, k) && forall i :: 0 <= i < k ==> !StandsAgainst(db, p, check, i)
  }

  /** With a valid token, the first thing that stands against a grant is the reason audited; nothing else changes. */
  lemma RefusalExactly(db: Db, user: UserId, p: ProjectId, token: Token, now: Time, ttl: Time, check: ReauthCheck, k: nat)
    requires check.tokenValid && k < 8 && FirstAgainst(db, p, check, k)
    ensures IssueGrant(db, user, p, token, now, ttl, check)
            == (db.(audit := db.audit + [ReauthRefused(if check.known then Some(user) else None, p, REASONS[k])]), false)
  {
    assert k > 0 ==> !StandsAgainst(db, p, check, 0);
    assert k > 1 ==> !StandsAgainst(db, p, check, 1);
    assert k > 2 ==> !StandsAgainst(db, p, check, 2);
    assert k > 3 ==> !StandsAgainst(db, p, check, 3);
    assert k > 4 ==> !StandsAgainst(db, p, check, 4);
    assert k > 5 ==> !StandsAgainst(db, p, check, 5);
    assert k > 6 ==> !StandsAgainst(db, p, check, 6);
    assert REASONS[k] == match k case 0 => "rate_limit_unavailable" case 1 => "rate_limited" case 2 => "actor_not_found"
                         case 3 => "inactive_actor" case 4 => "not_super_admin" case 5 => "invalid_action"
                         case 6 => "project_not_found" case _ => "invalid_password";
  }
}
