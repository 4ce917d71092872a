/**
 Main results about requests: idempotency keys, audit conservation and deletion grants.
*/
module RequestTheorems {
  import opened Options
  import opened Rows
  import opened LifecycleQueue
  import opened LifecycleRequests
  import opened StoreInvariant
  import opened LifecycleSystem
  import opened SystemInvariant
  import opened WorkerSteps
  import opened LifecycleRuns

  // ---- Projects and jobs over runs ----

  lemma EvolvesProject(db: Db, next: Db, p: ProjectId)
    requires Evolves(db, next) && p in db.projects
    ensures p in next.projects && next.projects[p].slug == db.projects[p].slug
  {
  }

  lemma {:induction false} RunEvolvesProject(es: seq<Event>, more: seq<Event>, p: ProjectId)
    requires p in Run(INIT, es).db.projects
    ensures p in Run(INIT, es + more).db.projects
    ensures Run(INIT, es + more).db.projects[p].slug == Run(INIT, es).db.projects[p].slug
  {
    hide Next, Evolves;
    if |more| == 0 {
      assert es + more == es;
    } else {
      var front, last := more[..|more| - 1], more[|more| - 1];
      RunEvolvesProject(es, front, p);
      RunStep(es + front, last);
      EvolvesProject(Run(INIT, es + front).db, Run(INIT, es + front + [last]).db, p);
      assert (es + front) + [last] == es + more;
    }
  }

  lemma StoreOfRun(es: seq<Event>)
    ensures StoreOk(Run(INIT, es).db)
  {
    RunKeeps(es);
  }

  // ---- Idempotency keys ----

  /** At most one job was ever made with a key. */
  lemma OneJobPerKey(es: seq<Event>, i: JobId, j: JobId)
    requires i in Run(INIT, es).db.jobs && j in Run(INIT, es).db.jobs
    requires Run(INIT, es).db.jobs[i].key == Run(INIT, es).db.jobs[j].key
    ensures i == j
  {
    hide Run, Next;
    StoreOfRun(es);
    assert Indexed(Run(INIT, es).db);
  }

  /** A request whose key is taken changes nothing, whatever else it asks for. */
  lemma TakenKeyChangesNothing(db: Db, e: Event)
    requires IsRequest(e) && !e.IssueReauth? && e.key in db.keyIndex
    ensures RequestNext(db, e) == db
  {
    hide FailureBoundary;
  }

  /** The same request sent again: identifiers drawn, clock, lookup race and grant may differ. */
  predicate SameRequestAgain(e: Event, e': Event) {
    match (e, e')
    case (Create(n, s, d, u, k, _, _, _), Create(n', s', d', u', k', _, _, _)) =>
      n == n' && s == s' && d == d' && u == u' && k == k'
    case (Retry(s, f, u, k, _, _, _), Retry(s', f', u', k', _, _, _)) =>
      s == s' && f == f' && u == u' && k == k'
    case (RequestDelete(s, c, k, _, u, _, _, _), RequestDelete(s', c', k', _, u', _, _, _)) =>
      s == s' && c == c' && k == k' && u == u'
    case _ => false
  }

  /** Job `j` carries the key and fingerprint of a request about project `p`. */
  ghost predicate Answered(db: Db, p: ProjectId, key: Key, fingerprint: Fingerprint, slug: string, j: JobId) {
    j in db.jobs && db.jobs[j].key == key && db.jobs[j].fingerprint == fingerprint && db.jobs[j].project == p
    && p in db.projects && db.projects[p].slug == slug
  }

  lemma AnsweredForEver(es: seq<Event>, more: seq<Event>, p: ProjectId, key: Key, fingerprint: Fingerprint,
                        slug: string, j: JobId)
    requires Answered(Run(INIT, es).db, p, key, fingerprint, slug, j)
    ensures Answered(Run(INIT, es + more).db, p, key, fingerprint, slug, j)
  {
    hide Run, Next;
    RunEvolvesJob(es, more, j);
    RunEvolvesProject(es, more, p);
  }

  lemma CreateAnswered(db: Db, e: Event, p: ProjectId, j: JobId)
    requires StoreOk(db) && e.Create?
    requires CreateProject(db, e.name, e.slug, e.description, e.user, e.key, e.project, e.job, e.now).1 == Created(p, j)
    ensures Answered(RequestNext(db, e), p, e.key, CreateRequest(e.name, e.slug, e.description, e.user), e.slug, j)
  {
    hide JobsOk, OneActive, Coupled, Audited, GrantsOk;
  }

  lemma CreateReplayed(db: Db, e: Event, p: ProjectId, j: JobId)
    requires StoreOk(db) && e.Create?
    requires Answered(db, p, e.key, CreateRequest(e.name, e.slug, e.description, e.user), e.slug, j)
    ensures CreateProject(db, e.name, e.slug, e.description, e.user, e.key, e.project, e.job, e.now)
            == (db, Created(p, j))
  {
    hide JobsOk, OneActive, Coupled, Audited, GrantsOk;
  }

  /** The project and job a creation answered with are what the same request gets in any later state. */
  lemma CreateReplays(es: seq<Event>, more: seq<Event>, e: Event, p: ProjectId, j: JobId, e': Event)
    requires SameRequestAgain(e, e') && e.Create?
    requires CreateProject(Run(INIT, es).db, e.name, e.slug, e.description, e.user, e.key, e.project, e.job, e.now).1
             == Created(p, j)
    ensures var db := Run(INIT, (es + [e]) + more).db;
            CreateProject(db, e'.name, e'.slug, e'.description, e'.user, e'.key, e'.project, e'.job, e'.now)
            == (db, Created(p, j))
  {
    hide Run, StoreOk, CreateProject;
    StoreOfRun(es);
    RunStep(es, e);
    CreateAnswered(Run(INIT, es).db, e, p, j);
    AnsweredForEver(es + [e], more, p, e.key, CreateRequest(e.name, e.slug, e.description, e.user), e.slug, j);
    StoreOfRun((es + [e]) + more);
    CreateReplayed(Run(INIT, (es + [e]) + more).db, e', p, j);
  }

  /** An accepted retry leaves its job behind under its key and fingerprint. */
  lemma RetryAnswered(db: Db, e: Event, j: JobId)
    requires StoreOk(db) && e.Retry?
    requires RetryProvision(db, e.slug, e.failedJob, e.user, e.key, e.job, e.now, e.keyVisible).1 == Accepted(j)
    ensures var p := db.slugIndex[e.slug];
            && e.slug in db.slugIndex && e.failedJob in db.jobs && db.jobs[e.failedJob].project == p
            && Answered(RequestNext(db, e), p, e.key, RetryRequest(e.user, e.failedJob, p), e.slug, j)
  {
    hide JobsOk, Fingerprinted, OneActive, Coupled, Audited, GrantsOk;
  }

  lemma RetryReplayed(db: Db, p: ProjectId, e: Event, j: JobId)
    requires StoreOk(db) && e.Retry? && e.failedJob in db.jobs && db.jobs[e.failedJob].project == p
    requires Answered(db, p, e.key, RetryRequest(e.user, e.failedJob, p), e.slug, j)
    ensures RetryProvision(db, e.slug, e.failedJob, e.user, e.key, e.job, e.now, e.keyVisible) == (db, Accepted(j))
  {
    hide JobsOk, OneActive, Coupled, Audited, GrantsOk;
  }

  lemma RetryReplays(es: seq<Event>, more: seq<Event>, e: Event, j: JobId, e': Event)
    requires SameRequestAgain(e, e') && e.Retry?
    requires RetryProvision(Run(INIT, es).db, e.slug, e.failedJob, e.user, e.key, e.job, e.now, e.keyVisible).1
             == Accepted(j)
    ensures var db := Run(INIT, (es + [e]) + more).db;
            RetryProvision(db, e'.slug, e'.failedJob, e'.user, e'.key, e'.job, e'.now, e'.keyVisible)
            == (db, Accepted(j))
  {
    hide Run, StoreOk, RetryProvision;
    StoreOfRun(es);
    RunStep(es, e);
    RetryAnswered(Run(INIT, es).db, e, j);
    var p := Run(INIT, es).db.slugIndex[e.slug];
    AnsweredForEver(es + [e], more, p, e.key, RetryRequest(e.user, e.failedJob, p), e.slug, j);
    RunEvolvesJob(es + [e], more, e.failedJob);
    StoreOfRun((es + [e]) + more);
    RetryReplayed(Run(INIT, (es + [e]) + more).db, p, e', j);
  }

  lemma DeletionAnswered(db: Db, e: Event, j: JobId)
    requires StoreOk(db) && e.RequestDelete?
    requires RequestDeletion(db, e.slug, e.confirmation, e.key, e.reauth, e.user, e.job, e.now, e.keyVisible).1
             == Accepted(j)
    ensures e.slug in db.slugIndex
    ensures var p := db.slugIndex[e.slug];
            Answered(RequestNext(db, e), p, e.key, DeleteRequest(e.user, e.confirmation, p, e.slug), e.slug, j)
  {
    hide JobsOk, OneActive, Coupled, Audited, GrantsOk, GrantValid, HasActive;
  }

  lemma DeletionReplayed(db: Db, p: ProjectId, e: Event, j: JobId)
    requires StoreOk(db) && e.RequestDelete?
    requires Answered(db, p, e.key, DeleteRequest(e.user, e.confirmation, p, e.slug), e.slug, j)
    ensures RequestDeletion(db, e.slug, e.confirmation, e.key, e.reauth, e.user, e.job, e.now, e.keyVisible)
            == (db, Accepted(j))
  {
    hide JobsOk, OneActive, Coupled, Audited, GrantsOk, GrantValid;
  }

  /** The same deletion request gets the same job in any later state, with or without a grant. */
  lemma DeletionReplays(es: seq<Event>, more: seq<Event>, e: Event, j: JobId, e': Event)
    requires SameRequestAgain(e, e') && e.RequestDelete?
    requires RequestDeletion(Run(INIT, es).db, e.slug, e.confirmation, e.key, e.reauth, e.user, e.job, e.now, e.keyVisible).1
             == Accepted(j)
    ensures var db := Run(INIT, (es + [e]) + more).db;
            RequestDeletion(db, e'.slug, e'.confirmation, e'.key, e'.reauth, e'.user, e'.job, e'.now, e'.keyVisible)
            == (db, Accepted(j))
  {
    hide Run, StoreOk, RequestDeletion;
    StoreOfRun(es);
    RunStep(es, e);
    DeletionAnswered(Run(INIT, es).db, e, j);
    var p := Run(INIT, es).db.slugIndex[e.slug];
    AnsweredForEver(es + [e], more, p, e.key, DeleteRequest(e.user, e.confirmation, p, e.slug), e.slug, j);
    StoreOfRun((es + [e]) + more);
    DeletionReplayed(Run(INIT, (es + [e]) + more).db, p, e', j);
  }

  // ---- Audit conservation ----

  /**
   Every job has exactly one "requested" event, every FAILED job exactly one "failed" event,
   and there is no other; each event names its job's project, requester and kind, and a
   failure its attempt and error.
  */
  lemma AuditConservation(es: seq<Event>, j: JobId)
    ensures var db := Run(INIT, es).db;
            && Requests(db.audit, j) == (if j in db.jobs then 1 else 0)
            && Failures(db.audit, j) == (if j in db.jobs && db.jobs[j].status.Failed? then 1 else 0)
            && forall i :: 0 <= i < |db.audit| ==> EventFits(db, db.audit[i])
  {
    hide Run, Next;
    StoreOfRun(es);
    assert Audited(Run(INIT, es).db);
  }

  // ---- Deletion grants ----

  /** Consumed grants and DELETE jobs are in bijection, and each grant went to its own user and project. */
  lemma GrantBijection(es: seq<Event>)
    ensures var db := Run(INIT, es).db;
            && (forall t :: t in db.grants ==> (db.grants[t].consumedAt.Some? <==> t in db.spent))
            && (forall t :: t in db.spent ==>
                  && t in db.grants && db.spent[t] in db.jobs
                  && db.jobs[db.spent[t]].operation.Delete?
                  && db.jobs[db.spent[t]].requestedBy == db.grants[t].user
                  && db.jobs[db.spent[t]].project == db.grants[t].project)
            && (forall t, u :: t in db.spent && u in db.spent && db.spent[t] == db.spent[u] ==> t == u)
            && (forall j :: j in db.jobs && db.jobs[j].operation.Delete? ==> exists t :: SpentOn(db, t, j))
  {
    hide Run, Next;
    StoreOfRun(es);
    assert GrantsOk(Run(INIT, es).db);
  }

  lemma EvolvesGrant(db: Db, next: Db, t: Token)
    requires Evolves(db, next) && t in db.spent && t in db.grants && db.grants[t].consumedAt.Some?
    ensures t in next.spent && next.spent[t] == db.spent[t] && t in next.grants && next.grants[t] == db.grants[t]
  {
  }

  /** A consumed grant stays consumed by the same job: it is never consumed again. */
  lemma {:induction false} GrantConsumedOnce(es: seq<Event>, more: seq<Event>, t: Token)
    requires t in Run(INIT, es).db.spent && t in Run(INIT, es).db.grants
    requires Run(INIT, es).db.grants[t].consumedAt.Some?
    ensures var db := Run(INIT, es + more).db;
            && t in db.spent && db.spent[t] == Run(INIT, es).db.spent[t]
            && t in db.grants && db.grants[t] == Run(INIT, es).db.grants[t]
  {
    hide *;
    if |more| == 0 {
      assert es + more == es;
    } else {
      var front, last := more[..|more| - 1], more[|more| - 1];
      GrantConsumedOnce(es, front, t);
      RunStep(es + front, last);
      EvolvesGrant(Run(INIT, es + front).db, Run(INIT, es + front + [last]).db, t);
      assert (es + front) + [last] == es + more;
    }
  }
}
