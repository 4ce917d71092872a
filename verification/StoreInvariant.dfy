/**
 What every transaction keeps about the stored rows, and how rows may evolve. The
 lemmas go transaction by transaction; runs over all of them are in LifecycleRuns.
*/
module StoreInvariant {
  import opened Options
  import opened Rows
  import opened LifecycleQueue
  import RetryDelay
  import opened LifecycleRequests
  import opened ProvisionStore

  // ---- Rows and indexes ----

  ghost predicate JobsIndexed(db: Db) {
    && (forall j :: j in db.jobs ==>
          && db.jobs[j].project in db.projects
          && db.jobs[j].key in db.keyIndex && db.keyIndex[db.jobs[j].key] == j)
    && (forall k :: k in db.keyIndex ==> db.keyIndex[k] in db.jobs && db.jobs[db.keyIndex[k]].key == k)
  }

  ghost predicate SlugsIndexed(db: Db) {
    && (forall p :: p in db.projects ==>
          db.projects[p].slug in db.slugIndex && db.slugIndex[db.projects[p].slug] == p)
    && (forall s :: s in db.slugIndex ==>
          db.slugIndex[s] in db.projects && db.projects[db.slugIndex[s]].slug == s)
  }

  ghost predicate Indexed(db: Db) { JobsIndexed(db) && SlugsIndexed(db) }

  predicate Terminated(job: Job) {
    job.status.Succeeded? || job.status.Failed?
  }

  ghost predicate JobOk(job: Job) {
    && !job.operation.Reconcile?
    && 1 <= job.maxAttempts && job.attempt <= job.maxAttempts
    && (job.status.Pending? ==> job.attempt == 0)
    && (job.status.RetryWait? ==> 1 <= job.attempt < job.maxAttempts)
    && (job.status.Running? ==> 1 <= job.attempt)
    && (job.status.Running? <==> job.lockedBy.Some?)
    && (job.status.Running? <==> job.lockExpiresAt.Some?)
    && (Terminated(job) ==> job.finishedAt.Some?)
  }

  ghost predicate JobsOk(db: Db) {
    forall j :: j in db.jobs ==> JobOk(db.jobs[j])
  }

  /** The fingerprint of a job says which request made it. */
  predicate FingerprintFits(job: Job, slug: string) {
    match job.fingerprint
    case CreateRequest(_, s, _, user) => job.operation.Provision? && job.requestedBy == user && s == slug
    case RetryRequest(user, _, p) => job.operation.Provision? && job.requestedBy == user && job.project == p
    case DeleteRequest(user, _, p, s) =>
      job.operation.Delete? && job.requestedBy == user && job.project == p && s == slug
  }

  ghost predicate Fingerprinted(db: Db) {
    forall j :: j in db.jobs ==>
      db.jobs[j].project in db.projects && FingerprintFits(db.jobs[j], db.projects[db.jobs[j].project].slug)
  }

  // ---- Coupling of jobs and project status ----

  ghost predicate OneActive(db: Db) {
    forall p, i, j :: ActiveFor(db, p, i) && ActiveFor(db, p, j) ==> i == j
  }

  /** What an active job says about the status of its project. */
  ghost predicate Fits(job: Job, status: ProjectStatus) {
    match job.operation
    case Provision => if job.step == Some(Published) then status.Ready? else status.Provisioning?
    case Delete => status.Deleting?
    case Reconcile => false
  }

  ghost predicate Coupled(db: Db) {
    && (forall p, j :: p in db.projects && ActiveFor(db, p, j) ==> Fits(db.jobs[j], db.projects[p].status))
    && (forall p :: p in db.projects && (db.projects[p].status.Provisioning? || db.projects[p].status.Deleting?)
          ==> HasActive(db, p))
    && (forall p :: p in db.projects && db.projects[p].status.DeletionFailed? ==> HasFailedDelete(db, p))
  }

  ghost predicate HasFailedDelete(db: Db, p: ProjectId) {
    exists j :: FailedDelete(db, p, j)
  }

  // ---- Audit events ----

  function Requests(audit: seq<AuditEvent>, j: JobId): nat {
    if |audit| == 0 then 0
    else
      var last := audit[|audit| - 1];
      Requests(audit[..|audit| - 1], j) + if last.Requested? && last.job == j then 1 else 0
  }

  function Failures(audit: seq<AuditEvent>, j: JobId): nat {
    if |audit| == 0 then 0
    else
      var last := audit[|audit| - 1];
      Failures(audit[..|audit| - 1], j) + if last.FailedOperation? && last.job == j then 1 else 0
  }

  lemma AuditAppend(audit: seq<AuditEvent>, e: AuditEvent)
    ensures forall j :: Requests(audit + [e], j) == Requests(audit, j) + if e.Requested? && e.job == j then 1 else 0
    ensures forall j :: Failures(audit + [e], j) == Failures(audit, j) + if e.FailedOperation? && e.job == j then 1 else 0
  {
    assert (audit + [e])[..|audit|] == audit;
  }

  function RequestedType(fingerprint: Fingerprint): string {
    match fingerprint
    case CreateRequest(_, _, _, _) => "project.provision.requested"
    case RetryRequest(_, _, _) => "project.provision.retry_requested"
    case DeleteRequest(_, _, _, _) => "project.delete.requested"
  }

  /** The event says of its job what the row says: who asked for what, and how it failed. */
  predicate EventFits(db: Db, e: AuditEvent) {
    match e
    case Requested(eventType, actor, p, j) =>
      j in db.jobs && db.jobs[j].project == p && db.jobs[j].requestedBy == actor
      && eventType == RequestedType(db.jobs[j].fingerprint)
    case FailedOperation(eventType, actor, p, j, attempt, code) =>
      j in db.jobs && db.jobs[j].project == p && db.jobs[j].requestedBy == actor
      && db.jobs[j].status.Failed? && db.jobs[j].attempt == attempt && db.jobs[j].errorCode == Some(code)
      && eventType == if db.jobs[j].operation.Provision? then "project.provision.failed" else "project.delete.failed"
    case Reauthenticated(_, _) => true
    case ReauthRefused(_, _, _) => true
  }

  ghost predicate EventsFit(db: Db) {
    forall i :: 0 <= i < |db.audit| ==> EventFits(db, db.audit[i])
  }

  ghost predicate Audited(db: Db) {
    && EventsFit(db)
    && (forall j :: Requests(db.audit, j) == if j in db.jobs then 1 else 0)
    && (forall j :: Failures(db.audit, j) == if j in db.jobs && db.jobs[j].status.Failed? then 1 else 0)
  }

  // ---- Grants ----

  ghost predicate SpentOn(db: Db, t: Token, j: JobId) {
    t in db.spent && db.spent[t] == j
  }

  /** A grant is for deletion, and consumed exactly when a job is on record for it. */
  ghost predicate GrantRows(db: Db) {
    forall t :: t in db.grants ==>
      db.grants[t].action == DELETE_ACTION && (db.grants[t].consumedAt.Some? <==> t in db.spent)
  }

  /** That job is a DELETE job of the grant's user and project. */
  ghost predicate SpentRows(db: Db) {
    forall t :: t in db.spent ==>
      && t in db.grants
      && db.spent[t] in db.jobs
      && db.jobs[db.spent[t]].operation.Delete?
      && db.jobs[db.spent[t]].requestedBy == db.grants[t].user
      && db.jobs[db.spent[t]].project == db.grants[t].project
  }

  ghost predicate SpentOnce(db: Db) {
    forall t, u :: t in db.spent && u in db.spent && db.spent[t] == db.spent[u] ==> t == u
  }

  ghost predicate GrantsOk(db: Db) {
    GrantRows(db) && SpentRows(db) && SpentOnce(db) && EveryDeletionPaid(db)
  }

  ghost predicate EveryDeletionPaid(db: Db) {
    forall j :: j in db.jobs && db.jobs[j].operation.Delete? ==> exists t :: SpentOn(db, t, j)
  }

  ghost predicate StoreOk(db: Db) {
    && Indexed(db) && JobsOk(db) && Fingerprinted(db)
    && OneActive(db) && Coupled(db) && Audited(db) && GrantsOk(db)
  }

  // ---- How rows evolve ----

  /** How far a job has come; every claim, retry and termination raises it. */
  function Progress(job: Job): int {
    match job.status
    case Pending => 0
    case Running => 2 * job.attempt - 1
    case RetryWait => 2 * job.attempt
    case Succeeded => 2 * job.maxAttempts
    case Failed => 2 * job.maxAttempts
  }

  predicate SameStage(a: Job, b: Job) {
    a.status == b.status && a.attempt == b.attempt
  }

  ghost predicate JobEvolves(a: Job, b: Job) {
    && b.project == a.project && b.operation == a.operation && b.maxAttempts == a.maxAttempts
    && b.key == a.key && b.fingerprint == a.fingerprint && b.requestedBy == a.requestedBy
    && b.createdAt == a.createdAt
    && a.attempt <= b.attempt
    && (Terminated(a) ==> b == a)
    && (!SameStage(a, b) ==> Progress(a) < Progress(b))
    && (a.attempt == b.attempt && !a.status.Running? ==> !b.status.Running?)
  }

  ghost predicate JobsEvolve(db: Db, next: Db) {
    forall j :: j in db.jobs ==> j in next.jobs && JobEvolves(db.jobs[j], next.jobs[j])
  }

  /** A provision that published READY and then failed. */
  ghost predicate PublishedThenFailed(db: Db, next: Db, p: ProjectId, j: JobId) {
    && ActiveFor(db, p, j) && db.jobs[j].operation.Provision? && db.jobs[j].step == Some(Published)
    && j in next.jobs && next.jobs[j].status.Failed?
  }

  ghost predicate StatusMove(db: Db, next: Db, p: ProjectId)
    requires p in db.projects && p in next.projects
  {
    var a, b := db.projects[p].status, next.projects[p].status;
    a == b || (a, b) in ALLOWED_TRANSITIONS
    || (a.Ready? && b.ProvisionFailed? && exists j :: PublishedThenFailed(db, next, p, j))
  }

  ghost predicate ProjectsEvolve(db: Db, next: Db) {
    forall p :: p in db.projects ==>
      && p in next.projects
      && next.projects[p].generation == db.projects[p].generation
      && next.projects[p].slug == db.projects[p].slug
      && StatusMove(db, next, p)
  }

  ghost predicate GrantsEvolve(db: Db, next: Db) {
    && (forall t :: t in db.grants ==>
          && t in next.grants
          && next.grants[t] == db.grants[t].(consumedAt := next.grants[t].consumedAt)
          && (db.grants[t].consumedAt.Some? ==> next.grants[t].consumedAt == db.grants[t].consumedAt))
    && (forall t :: t in db.spent ==> t in next.spent && next.spent[t] == db.spent[t])
  }

  ghost predicate Evolves(db: Db, next: Db) {
    JobsEvolve(db, next) && ProjectsEvolve(db, next) && GrantsEvolve(db, next)
  }

  lemma EvolvesReflexive(db: Db)
    ensures Evolves(db, db)
  {
  }

  // ---- Rewriting one job row, and possibly the status of its project ----

  ghost predicate Rewrites(db: Db, next: Db, j: JobId) {
    && j in db.jobs && j in next.jobs && next.jobs == db.jobs[j := next.jobs[j]]
    && JobEvolves(db.jobs[j], next.jobs[j])
    && next.keyIndex == db.keyIndex && next.slugIndex == db.slugIndex
    && next.grants == db.grants && next.spent == db.spent
    && next.projects.Keys == db.projects.Keys
    && (forall p :: p in db.projects ==>
          && next.projects[p].slug == db.projects[p].slug
          && next.projects[p].generation == db.projects[p].generation
          && (p != db.jobs[j].project ==> next.projects[p] == db.projects[p]))
  }

  /** The audit log gains exactly one event. */
  ghost predicate Appends(db: Db, next: Db) {
    |next.audit| > 0 && next.audit == db.audit + [Newest(next)]
  }

  function Newest(db: Db): AuditEvent
    requires |db.audit| > 0
  {
    db.audit[|db.audit| - 1]
  }

  /** The audit log either stays or gains the failure event of this job. */
  ghost predicate AuditsRewrite(db: Db, next: Db, j: JobId)
    requires j in db.jobs && j in next.jobs
  {
    if !db.jobs[j].status.Failed? && next.jobs[j].status.Failed? then
      Appends(db, next) && Newest(next).FailedOperation? && Newest(next).job == j && EventFits(next, Newest(next))
    else
      next.audit == db.audit && (db.jobs[j].status.Failed? <==> next.jobs[j].status.Failed?)
  }

  lemma RewriteIndexed(db: Db, next: Db, j: JobId)
    requires Rewrites(db, next, j) && Indexed(db)
    ensures Indexed(next)
  {
  }

  lemma RewriteFingerprints(db: Db, next: Db, j: JobId)
    requires Rewrites(db, next, j) && Fingerprinted(db)
    ensures Fingerprinted(next)
  {
  }

  lemma RewriteOneActive(db: Db, next: Db, j: JobId)
    requires Rewrites(db, next, j) && OneActive(db) && (Active(next.jobs[j]) ==> Active(db.jobs[j]))
    ensures OneActive(next)
  {
    forall p, a, b | ActiveFor(next, p, a) && ActiveFor(next, p, b) ensures a == b {
      assert ActiveFor(db, p, a) && ActiveFor(db, p, b);
    }
  }

  lemma RewriteGrants(db: Db, next: Db, j: JobId)
    requires Rewrites(db, next, j) && GrantsOk(db)
    ensures GrantsOk(next)
  {
    forall k | k in next.jobs && next.jobs[k].operation.Delete? ensures exists t :: SpentOn(next, t, k) {
      var t :| SpentOn(db, t, k);
      assert SpentOn(next, t, k);
    }
  }

  lemma RewriteEventsFit(db: Db, next: Db, j: JobId)
    requires Rewrites(db, next, j) && EventsFit(db) && AuditsRewrite(db, next, j)
    ensures EventsFit(next)
  {
    forall i | 0 <= i < |next.audit| ensures EventFits(next, next.audit[i]) {
      if i < |db.audit| {
        assert next.audit[i] == db.audit[i] && EventFits(db, db.audit[i]);
      }
    }
  }

  lemma RewriteAudited(db: Db, next: Db, j: JobId)
    requires Rewrites(db, next, j) && Audited(db) && AuditsRewrite(db, next, j)
    ensures Audited(next)
  {
    RewriteEventsFit(db, next, j);
    hide EventFits, EventsFit;
    if next.audit != db.audit {
      AuditAppend(db.audit, Newest(next));
    }
  }

  ghost predicate CouplesRewrite(db: Db, next: Db, j: JobId)
    requires Rewrites(db, next, j) && Indexed(db)
  {
    var p := db.jobs[j].project;
    var status := next.projects[p].status;
    && Active(db.jobs[j])
    && (Active(next.jobs[j]) ==> Fits(next.jobs[j], status))
    && (status.Provisioning? || status.Deleting? ==> Active(next.jobs[j]))
    && (status.DeletionFailed? ==> FailedDelete(next, p, j))
  }

  lemma RewriteCoupled(db: Db, next: Db, j: JobId)
    requires Rewrites(db, next, j) && Indexed(db) && OneActive(db) && Coupled(db) && CouplesRewrite(db, next, j)
    ensures Coupled(next)
  {
    var own := db.jobs[j].project;
    assert ActiveFor(db, own, j);
    forall p, k | p in next.projects && ActiveFor(next, p, k)
      ensures Fits(next.jobs[k], next.projects[p].status)
    {
      if k != j { assert ActiveFor(db, p, k); }
    }
    forall p | p in next.projects && (next.projects[p].status.Provisioning? || next.projects[p].status.Deleting?)
      ensures HasActive(next, p)
    {
      if p == own {
        assert ActiveFor(next, p, j);
      } else {
        var k :| k in db.jobs && ActiveFor(db, p, k);
        assert ActiveFor(next, p, k);
      }
    }
    forall p | p in next.projects && next.projects[p].status.DeletionFailed? ensures HasFailedDelete(next, p) {
      if p == own {
        assert FailedDelete(next, p, j);
      } else {
        var k :| FailedDelete(db, p, k);
        assert FailedDelete(next, p, k);
      }
    }
  }

  lemma RewriteEvolves(db: Db, next: Db, j: JobId)
    requires Rewrites(db, next, j) && Indexed(db) && StatusMove(db, next, db.jobs[j].project)
    ensures Evolves(db, next)
  {
  }

  ghost predicate GoodRewrite(db: Db, next: Db, j: JobId)
    requires Indexed(db)
  {
    && Rewrites(db, next, j) && JobOk(next.jobs[j]) && CouplesRewrite(db, next, j)
    && AuditsRewrite(db, next, j) && StatusMove(db, next, db.jobs[j].project)
  }

  lemma RewriteKeeps(db: Db, next: Db, j: JobId)
    requires StoreOk(db) && GoodRewrite(db, next, j)
    ensures StoreOk(next) && Evolves(db, next)
  {
    hide Indexed, Fingerprinted, OneActive, GrantsOk, Audited, Coupled, Evolves, CouplesRewrite, AuditsRewrite, StatusMove;
    RewriteEvolves(db, next, j);
    RewriteIndexed(db, next, j);
    RewriteFingerprints(db, next, j);
    RewriteOneActive(db, next, j);
    RewriteGrants(db, next, j);
    RewriteAudited(db, next, j);
    RewriteCoupled(db, next, j);
  }

  // ---- Inserting one job row ----

  ghost predicate Inserts(db: Db, next: Db, p: ProjectId, j: JobId) {
    && j !in db.jobs && j in next.jobs && next.jobs == db.jobs[j := next.jobs[j]]
    && next.jobs[j].project == p && next.jobs[j].status.Pending? && next.jobs[j].step.None?
    && JobOk(next.jobs[j])
    && next.jobs[j].key !in db.keyIndex && next.keyIndex == db.keyIndex[next.jobs[j].key := j]
    && !HasActive(db, p)
    && p in next.projects && next.projects.Keys == db.projects.Keys + {p}
    && (forall q :: q in db.projects ==>
          && next.projects[q].slug == db.projects[q].slug
          && next.projects[q].generation == db.projects[q].generation
          && (q != p ==> next.projects[q] == db.projects[q]))
    && (if p in db.projects then next.slugIndex == db.slugIndex
        else next.projects[p].slug !in db.slugIndex
             && next.slugIndex == db.slugIndex[next.projects[p].slug := p])
    && Appends(db, next) && Newest(next).Requested? && Newest(next).job == j && EventFits(next, Newest(next))
    && Fits(next.jobs[j], next.projects[p].status)
    && FingerprintFits(next.jobs[j], next.projects[p].slug)
    && (p in db.projects ==> StatusMove(db, next, p))
  }

  lemma InsertJobsIndexed(db: Db, next: Db, p: ProjectId, j: JobId)
    requires Inserts(db, next, p, j) && JobsIndexed(db)
    ensures JobsIndexed(next)
  {
    hide Fits, FingerprintFits, HasActive, EventFits, Appends, StatusMove, JobOk;
  }

  lemma InsertSlugsIndexed(db: Db, next: Db, p: ProjectId, j: JobId)
    requires Inserts(db, next, p, j) && SlugsIndexed(db)
    ensures SlugsIndexed(next)
  {
    hide Fits, FingerprintFits, HasActive, EventFits, Appends, StatusMove, JobOk;
  }

  lemma InsertIndexed(db: Db, next: Db, p: ProjectId, j: JobId)
    requires Inserts(db, next, p, j) && Indexed(db)
    ensures Indexed(next)
  {
    hide Inserts, JobsIndexed, SlugsIndexed;
    InsertJobsIndexed(db, next, p, j);
    InsertSlugsIndexed(db, next, p, j);
  }

  lemma InsertFingerprints(db: Db, next: Db, p: ProjectId, j: JobId)
    requires Inserts(db, next, p, j) && Fingerprinted(db)
    ensures Fingerprinted(next)
  {
  }

  lemma InsertOneActive(db: Db, next: Db, p: ProjectId, j: JobId)
    requires Inserts(db, next, p, j) && OneActive(db)
    ensures OneActive(next)
  {
    forall q, a, b | ActiveFor(next, q, a) && ActiveFor(next, q, b) ensures a == b {
      assert a != j ==> ActiveFor(db, q, a);
      assert b != j ==> ActiveFor(db, q, b);
    }
  }

  lemma InsertFitsActive(db: Db, next: Db, p: ProjectId, j: JobId)
    requires Inserts(db, next, p, j) && Indexed(db) && Coupled(db)
    ensures forall q, k :: q in next.projects && ActiveFor(next, q, k) ==> Fits(next.jobs[k], next.projects[q].status)
  {
    hide FingerprintFits, EventFits, Appends, StatusMove, JobOk, HasFailedDelete, Fits;
    forall q, k | q in next.projects && ActiveFor(next, q, k)
      ensures Fits(next.jobs[k], next.projects[q].status)
    {
      if k != j { assert ActiveFor(db, q, k); }
    }
  }

  lemma InsertHasActive(db: Db, next: Db, p: ProjectId, j: JobId)
    requires Inserts(db, next, p, j) && Coupled(db)
    ensures forall q :: q in next.projects && (next.projects[q].status.Provisioning? || next.projects[q].status.Deleting?)
              ==> HasActive(next, q)
  {
    hide FingerprintFits, EventFits, Appends, StatusMove, JobOk, Fits;
    forall q | q in next.projects && (next.projects[q].status.Provisioning? || next.projects[q].status.Deleting?)
      ensures HasActive(next, q)
    {
      if q == p {
        assert ActiveFor(next, q, j);
      } else {
        var k :| k in db.jobs && ActiveFor(db, q, k);
        assert ActiveFor(next, q, k);
      }
    }
  }

  lemma InsertHasFailed(db: Db, next: Db, p: ProjectId, j: JobId)
    requires Inserts(db, next, p, j) && Coupled(db)
    ensures forall q :: q in next.projects && next.projects[q].status.DeletionFailed? ==> HasFailedDelete(next, q)
  {
    hide FingerprintFits, EventFits, Appends, JobOk, HasActive;
    forall q | q in next.projects && next.projects[q].status.DeletionFailed? ensures HasFailedDelete(next, q) {
      var k :| FailedDelete(db, q, k);
      assert FailedDelete(next, q, k);
    }
  }

  lemma InsertCoupled(db: Db, next: Db, p: ProjectId, j: JobId)
    requires Inserts(db, next, p, j) && Indexed(db) && Coupled(db)
    ensures Coupled(next)
  {
    hide Inserts, Indexed, HasActive, HasFailedDelete, Fits, ActiveFor;
    InsertFitsActive(db, next, p, j);
    InsertHasActive(db, next, p, j);
    InsertHasFailed(db, next, p, j);
  }

  lemma InsertEvolves(db: Db, next: Db, p: ProjectId, j: JobId)
    requires Inserts(db, next, p, j) && Indexed(db) && GrantsEvolve(db, next)
    ensures Evolves(db, next)
  {
    hide Fits, FingerprintFits, EventFits, HasActive, GrantsEvolve, JobsIndexed, SlugsIndexed, JobOk;
  }

  lemma InsertEventsFit(db: Db, next: Db, p: ProjectId, j: JobId)
    requires Inserts(db, next, p, j) && EventsFit(db)
    ensures EventsFit(next)
  {
    hide Fits, JobOk, FingerprintFits, StatusMove, HasActive;
    forall i | 0 <= i < |next.audit| ensures EventFits(next, next.audit[i]) {
      if i < |db.audit| {
        assert next.audit[i] == db.audit[i] && EventFits(db, db.audit[i]);
      }
    }
  }

  lemma InsertAudited(db: Db, next: Db, p: ProjectId, j: JobId)
    requires Inserts(db, next, p, j) && Audited(db)
    ensures Audited(next)
  {
    InsertEventsFit(db, next, p, j);
    hide Fits, JobOk, FingerprintFits, StatusMove, HasActive, EventFits, EventsFit;
    AuditAppend(db.audit, Newest(next));
  }

  lemma InsertKeeps(db: Db, next: Db, p: ProjectId, j: JobId)
    requires StoreOk(db) && Inserts(db, next, p, j) && GrantsOk(next) && GrantsEvolve(db, next)
    ensures StoreOk(next) && Evolves(db, next)
  {
    hide Indexed, Fingerprinted, OneActive, GrantsOk, Coupled, Audited, Evolves, StatusMove;
    InsertIndexed(db, next, p, j);
    InsertFingerprints(db, next, p, j);
    InsertOneActive(db, next, p, j);
    InsertCoupled(db, next, p, j);
    InsertAudited(db, next, p, j);
    InsertEvolves(db, next, p, j);
  }

  // ---- Two shapes of rewriting ----

  /** The job row alone changes. */
  ghost predicate LocalUpdate(a: Job, b: Job) {
    && Active(a) && JobEvolves(a, b) && JobOk(b) && !b.status.Failed?
    && (Active(b) ==> (a.step == Some(Published) <==> b.step == Some(Published)))
    && (!Active(b) ==> a.operation.Provision? && a.step == Some(Published))
  }

  lemma ActiveFits(db: Db, j: JobId)
    requires StoreOk(db) && j in db.jobs && Active(db.jobs[j])
    ensures db.jobs[j].project in db.projects
    ensures Fits(db.jobs[j], db.projects[db.jobs[j].project].status)
  {
    assert ActiveFor(db, db.jobs[j].project, j);
  }

  lemma LocalUpdateKeeps(db: Db, next: Db, j: JobId, b: Job)
    requires StoreOk(db) && j in db.jobs && LocalUpdate(db.jobs[j], b)
    requires next == db.(jobs := db.jobs[j := b])
    ensures StoreOk(next) && Evolves(db, next)
  {
    hide Fingerprinted, OneActive, GrantsOk, Audited, Coupled, Evolves;
    ActiveFits(db, j);
    assert GoodRewrite(db, next, j);
    RewriteKeeps(db, next, j);
  }

  /** The job row changes together with the status of its project. */
  ghost predicate JointUpdate(a: Job, b: Job, from: ProjectStatus, to: ProjectStatus) {
    && Active(a) && JobEvolves(a, b) && JobOk(b)
    && ((from, to) in ALLOWED_TRANSITIONS
        || (from.Ready? && to.ProvisionFailed? && a.operation.Provision? && a.step == Some(Published)
            && b.status.Failed?))
    && (Active(b) ==> Fits(b, to))
    && (to.Provisioning? || to.Deleting? ==> Active(b))
    && (to.DeletionFailed? ==> b.operation.Delete? && b.status.Failed?)
  }

  lemma JointIsGood(db: Db, next: Db, j: JobId, b: Job, status: ProjectStatus, now: Time)
    requires Indexed(db) && j in db.jobs && db.jobs[j].project in db.projects
    requires JointUpdate(db.jobs[j], b, db.projects[db.jobs[j].project].status, status)
    requires next == db.(jobs := db.jobs[j := b], audit := next.audit,
                         projects := WithStatus(db.projects, db.jobs[j].project, status, now))
    requires AuditsRewrite(db, next, j)
    ensures GoodRewrite(db, next, j)
  {
    hide Indexed, AuditsRewrite;
    var p := db.jobs[j].project;
    assert ActiveFor(db, p, j);
    if (db.projects[p].status, status) !in ALLOWED_TRANSITIONS {
      assert PublishedThenFailed(db, next, p, j);
    }
  }

  lemma JointUpdateKeeps(db: Db, next: Db, j: JobId, b: Job, status: ProjectStatus, now: Time)
    requires StoreOk(db) && j in db.jobs && db.jobs[j].project in db.projects
    requires JointUpdate(db.jobs[j], b, db.projects[db.jobs[j].project].status, status)
    requires next == db.(jobs := db.jobs[j := b], audit := next.audit,
                         projects := WithStatus(db.projects, db.jobs[j].project, status, now))
    requires AuditsRewrite(db, next, j)
    ensures StoreOk(next) && Evolves(db, next)
  {
    hide Indexed, JointUpdate, AuditsRewrite, GoodRewrite, Evolves, JobsOk, Fingerprinted, OneActive, GrantsOk, Audited,
         Coupled;
    JointIsGood(db, next, j, b, status, now);
    RewriteKeeps(db, next, j);
  }

  /** A new pending job is queued for an existing project, which moves along an allowed transition. */
  lemma EnqueueKeeps(db: Db, next: Db, p: ProjectId, j: JobId, job: Job, event: AuditEvent,
                     status: ProjectStatus, now: Time)
    requires StoreOk(db) && p in db.projects && !InsertConflicts(db, p, j, job.key)
    requires next == Enqueue(db.(projects := WithStatus(db.projects, p, status, now), grants := next.grants,
                                 spent := next.spent), j, job, event)
    requires GrantsOk(next) && GrantsEvolve(db, next)
    requires job.project == p && job.status.Pending? && job.step.None? && JobOk(job) && Fits(job, status)
    requires FingerprintFits(job, db.projects[p].slug)
    requires event.Requested? && event.job == j && EventFits(next, event)
    requires (db.projects[p].status, status) in ALLOWED_TRANSITIONS
    ensures StoreOk(next) && Evolves(db, next)
  {
    hide Indexed, JobsOk, Fingerprinted, OneActive, GrantsOk, GrantsEvolve, Audited, Coupled, Evolves;
    assert Inserts(db, next, p, j);
    InsertKeeps(db, next, p, j);
  }

  // ---- Transaction by transaction ----

  lemma JobIsOk(db: Db, j: JobId)
    requires JobsOk(db) && j in db.jobs
    ensures JobOk(db.jobs[j])
  {
  }

  /** The status a failed job leaves its project in. */
  function FailureStatus(operation: Operation): ProjectStatus {
    if operation.Provision? then ProvisionFailed else DeletionFailed
  }

  lemma FailureIsJoint(a: Job, b: Job, from: ProjectStatus, now: Time, code: string)
    requires a.status.Running? && JobOk(a) && Fits(a, from)
    requires b == a.(status := Failed, errorCode := Some(code), lockedBy := None, lockExpiresAt := None,
                     finishedAt := Some(now))
    ensures JointUpdate(a, b, from, FailureStatus(a.operation))
  {
  }

  lemma FailJobShows(db: Db, j: JobId, now: Time, code: string)
    requires j in db.jobs && db.jobs[j].status.Running? && !db.jobs[j].operation.Reconcile?
    requires db.jobs[j].project in db.projects
    ensures FailJob(db, j, now, code).Some?
    ensures var next := FailJob(db, j, now, code).value;
            && j in next.jobs
            && next.jobs[j] == db.jobs[j].(status := Failed, errorCode := Some(code), lockedBy := None,
                                           lockExpiresAt := None, finishedAt := Some(now))
            && next == db.(jobs := db.jobs[j := next.jobs[j]], audit := next.audit,
                           projects := WithStatus(db.projects, db.jobs[j].project,
                                                  FailureStatus(db.jobs[j].operation), now))
            && AuditsRewrite(db, next, j)
  {
  }

  lemma FailJobKeeps(db: Db, j: JobId, now: Time, code: string)
    requires StoreOk(db) && j in db.jobs && db.jobs[j].status.Running?
    ensures var next := FailJob(db, j, now, code);
            next.Some? && StoreOk(next.value) && Evolves(db, next.value)
  {
    ActiveFits(db, j);
    JobIsOk(db, j);
    FailJobShows(db, j, now, code);
    hide *;
    var next := FailJob(db, j, now, code).value;
    FailureIsJoint(db.jobs[j], next.jobs[j], db.projects[db.jobs[j].project].status, now, code);
    JointUpdateKeeps(db, next, j, next.jobs[j], FailureStatus(db.jobs[j].operation), now);
  }

  lemma ClaimKeeps(db: Db, worker: WorkerId, now: Time, lease: Time, skip: set<JobId>)
    requires StoreOk(db)
    ensures var (next, outcome) := ClaimOnce(db, worker, now, lease, skip);
            StoreOk(next) && Evolves(db, next) && !outcome.Broken?
  {
    hide Indexed, Fingerprinted, OneActive, GrantsOk, Audited, Coupled, Evolves, FailJob;
    EvolvesReflexive(db);
    var (next, outcome) := ClaimOnce(db, worker, now, lease, skip);
    if outcome.Claimed? {
      LocalUpdateKeeps(db, next, outcome.claim.job, next.jobs[outcome.claim.job]);
    } else if outcome.ExpiredFinally? || outcome.Broken? {
      FailJobKeeps(db, SelectDue(db, now, skip).value, now, LEASE_EXPIRED_CODE);
    }
  }

  lemma HeartbeatKeeps(db: Db, j: JobId, worker: WorkerId, attempt: nat, now: Time, lease: Time)
    requires StoreOk(db)
    ensures var (next, _) := Heartbeat(db, j, worker, attempt, now, lease);
            StoreOk(next) && Evolves(db, next)
  {
    hide Indexed, Fingerprinted, OneActive, GrantsOk, Audited, Coupled, Evolves;
    EvolvesReflexive(db);
    var (next, ok) := Heartbeat(db, j, worker, attempt, now, lease);
    if ok {
      LocalUpdateKeeps(db, next, j, next.jobs[j]);
    }
  }

  /** A completion keeps the rows in order when the provision it completes has published READY. */
  lemma CompleteKeeps(db: Db, j: JobId, worker: WorkerId, attempt: nat, now: Time)
    requires StoreOk(db)
    requires Owns(db, j, worker, attempt, now) ==> db.jobs[j].operation.Provision? && db.jobs[j].step == Some(Published)
    ensures var (next, _) := Complete(db, j, worker, attempt, now);
            StoreOk(next) && Evolves(db, next)
  {
    hide Indexed, Fingerprinted, OneActive, GrantsOk, Audited, Coupled, Evolves;
    EvolvesReflexive(db);
    var (next, ok) := Complete(db, j, worker, attempt, now);
    if ok {
      LocalUpdateKeeps(db, next, j, next.jobs[j]);
    }
  }

  lemma RetryOrFailKeeps(db: Db, j: JobId, worker: WorkerId, attempt: nat, now: Time,
                         error: LifecycleError, options: RetryOptions)
    requires StoreOk(db)
    ensures var (next, _) := RetryOrFail(db, j, worker, attempt, now, error, options);
            StoreOk(next) && Evolves(db, next)
  {
    hide Indexed, Fingerprinted, OneActive, GrantsOk, Audited, Coupled, Evolves, FailJob;
    EvolvesReflexive(db);
    var (next, outcome) := RetryOrFail(db, j, worker, attempt, now, error, options);
    if outcome.Terminal? {
      FailJobKeeps(db, j, now, ErrorCode(error));
    } else if outcome.Retried? {
      LocalUpdateKeeps(db, next, j, next.jobs[j]);
    }
  }

  /** A scheduled retry waits, and no longer than the cap. */
  lemma RetryWaitsWithinCap(db: Db, j: JobId, worker: WorkerId, attempt: nat, now: Time, error: LifecycleError,
                            options: RetryOptions)
    requires RetryOrFail(db, j, worker, attempt, now, error, options).1.Retried?
    ensures var next := RetryOrFail(db, j, worker, attempt, now, error, options).0;
            && j in next.jobs && next.jobs[j].status.RetryWait?
            && now < next.jobs[j].availableAt <= now + options.cap
  {
    hide FailJob, RetryDelay.Delay;
    var job := db.jobs[j];
    var exponent := if job.attempt >= 1 then job.attempt - 1 else 0;
    RetryDelay.DelayInRange(exponent, options.base, options.cap, options.jitter, options.thresholdReached);
  }

  lemma SetStepKeeps(db: Db, claim: Claim, step: Step, now: Time)
    requires StoreOk(db) && step != Published
    requires OwnsClaim(db, claim, now) ==> db.jobs[claim.job].step != Some(Published)
    ensures var (next, _) := SetStep(db, claim, step, now);
            StoreOk(next) && Evolves(db, next)
  {
    hide Indexed, Fingerprinted, OneActive, GrantsOk, Audited, Coupled, Evolves;
    EvolvesReflexive(db);
    var (next, ok) := SetStep(db, claim, step, now);
    if ok {
      LocalUpdateKeeps(db, next, claim.job, next.jobs[claim.job]);
    }
  }

  lemma PublishKeeps(db: Db, claim: Claim, now: Time)
    requires StoreOk(db)
    ensures var (next, _) := PublishReady(db, claim, now);
            StoreOk(next) && Evolves(db, next)
  {
    hide Indexed, Fingerprinted, OneActive, GrantsOk, Audited, Coupled, Evolves;
    EvolvesReflexive(db);
    var (next, outcome) := PublishReady(db, claim, now);
    if outcome.PublishedReady? {
      ActiveFits(db, claim.job);
      JointUpdateKeeps(db, next, claim.job, next.jobs[claim.job], Ready, now);
    }
  }

  lemma CreateInserts(db: Db, name: string, slug: string, description: Option<string>, user: UserId,
                      key: Key, newProject: ProjectId, newJob: JobId, now: Time)
    requires Indexed(db)
    ensures var (next, _) := CreateProject(db, name, slug, description, user, key, newProject, newJob, now);
            next == db
            || (Inserts(db, next, newProject, newJob) && next.grants == db.grants && next.spent == db.spent
                && !next.jobs[newJob].operation.Delete?)
  {
    hide HasActive, JobsIndexed, SlugsIndexed;
  }

  lemma CreateKeeps(db: Db, name: string, slug: string, description: Option<string>, user: UserId,
                    key: Key, newProject: ProjectId, newJob: JobId, now: Time)
    requires StoreOk(db)
    ensures var (next, _) := CreateProject(db, name, slug, description, user, key, newProject, newJob, now);
            StoreOk(next) && Evolves(db, next)
  {
    hide Indexed, JobsOk, Fingerprinted, OneActive, GrantsOk, GrantsEvolve, Audited, Coupled, Evolves, CreateProject;
    EvolvesReflexive(db);
    CreateInserts(db, name, slug, description, user, key, newProject, newJob, now);
    var (next, _) := CreateProject(db, name, slug, description, user, key, newProject, newJob, now);
    if next != db {
      OtherJobKeepsGrants(db, next, newJob);
      hide *;
      InsertKeeps(db, next, newProject, newJob);
    }
  }

  /** A new job of another kind than DELETE leaves the grant bookkeeping in order. */
  lemma OtherJobKeepsGrants(db: Db, next: Db, j: JobId)
    requires GrantsOk(db) && next.grants == db.grants && next.spent == db.spent
    requires j !in db.jobs && j in next.jobs && next.jobs == db.jobs[j := next.jobs[j]]
    requires !next.jobs[j].operation.Delete?
    ensures GrantsOk(next) && GrantsEvolve(db, next)
  {
    forall k | k in next.jobs && next.jobs[k].operation.Delete? ensures exists t :: SpentOn(next, t, k) {
      var t :| SpentOn(db, t, k);
      assert SpentOn(next, t, k);
    }
  }

  lemma RetryProvisionKeeps(db: Db, slug: string, failedJob: JobId, user: UserId, key: Key,
                            newJob: JobId, now: Time, keyVisible: bool)
    requires StoreOk(db)
    ensures var (next, _) := RetryProvision(db, slug, failedJob, user, key, newJob, now, keyVisible);
            StoreOk(next) && Evolves(db, next)
  {
    hide Indexed, JobsOk, Fingerprinted, OneActive, GrantsOk, Audited, Coupled, Evolves, GrantsEvolve;
    EvolvesReflexive(db);
    if failedJob in db.jobs {
      JobIsOk(db, failedJob);
    }
    var (next, _) := RetryProvision(db, slug, failedJob, user, key, newJob, now, keyVisible);
    if next != db {
      OtherJobKeepsGrants(db, next, newJob);
      EnqueueKeeps(db, next, db.jobs[failedJob].project, newJob, next.jobs[newJob], Newest(next), Provisioning, now);
    }
  }

  lemma PaidBySpending(db: Db, next: Db, j: JobId, t: Token)
    requires EveryDeletionPaid(db) && t !in db.spent && next.spent == db.spent[t := j]
    requires j !in db.jobs && j in next.jobs && next.jobs == db.jobs[j := next.jobs[j]]
    ensures EveryDeletionPaid(next)
  {
    forall k | k in next.jobs && next.jobs[k].operation.Delete? ensures exists u :: SpentOn(next, u, k) {
      if k == j {
        assert SpentOn(next, t, k);
      } else {
        var u :| SpentOn(db, u, k);
        assert SpentOn(next, u, k);
      }
    }
  }

  /** Grant `t` is spent on the new job `j`; no other row of the three tables changes. */
  ghost predicate Spends(db: Db, next: Db, j: JobId, t: Token, now: Time) {
    && t in db.grants && db.grants[t].consumedAt.None?
    && j !in db.jobs && j in next.jobs && next.jobs == db.jobs[j := next.jobs[j]]
    && next.jobs[j].operation.Delete?
    && next.jobs[j].requestedBy == db.grants[t].user && next.jobs[j].project == db.grants[t].project
    && next.grants == db.grants[t := db.grants[t].(consumedAt := Some(now))]
    && next.spent == db.spent[t := j]
  }

  lemma SpendingRows(db: Db, next: Db, j: JobId, t: Token, now: Time)
    requires GrantRows(db) && SpentRows(db) && SpentOnce(db) && Spends(db, next, j, t, now)
    ensures t !in db.spent && GrantRows(next) && SpentRows(next) && SpentOnce(next)
  {
  }

  lemma SpendingEvolves(db: Db, next: Db, j: JobId, t: Token, now: Time)
    requires GrantRows(db) && Spends(db, next, j, t, now)
    ensures GrantsEvolve(db, next)
  {
  }

  /** Spending a grant on a new DELETE job keeps grants and DELETE jobs in bijection. */
  lemma SpendingKeepsGrants(db: Db, next: Db, j: JobId, t: Token, now: Time)
    requires GrantsOk(db) && Spends(db, next, j, t, now)
    ensures GrantsOk(next) && GrantsEvolve(db, next)
  {
    hide EveryDeletionPaid, GrantRows, SpentRows, SpentOnce, GrantsEvolve;
    SpendingRows(db, next, j, t, now);
    SpendingEvolves(db, next, j, t, now);
    PaidBySpending(db, next, j, t);
  }

  lemma SlugFindsProject(db: Db, slug: string)
    requires Indexed(db) && slug in db.slugIndex
    ensures db.slugIndex[slug] in db.projects && db.projects[db.slugIndex[slug]].slug == slug
  {
  }

  lemma DeletionKeeps(db: Db, slug: string, confirmation: string, key: Key, token: Option<Token>,
                      actor: UserId, newJob: JobId, now: Time, keyVisible: bool)
    requires StoreOk(db)
    ensures var (next, _) := RequestDeletion(db, slug, confirmation, key, token, actor, newJob, now, keyVisible);
            StoreOk(next) && Evolves(db, next)
  {
    hide Indexed, JobsOk, Fingerprinted, OneActive, GrantsOk, Audited, Coupled, Evolves, GrantsEvolve, FailureBoundary;
    EvolvesReflexive(db);
    var (next, _) := RequestDeletion(db, slug, confirmation, key, token, actor, newJob, now, keyVisible);
    if next != db {
      SlugFindsProject(db, slug);
      SpendingKeepsGrants(db, next, newJob, token.value, now);
      EnqueueKeeps(db, next, db.slugIndex[slug], newJob, next.jobs[newJob], Newest(next), Deleting, now);
    }
  }

  lemma IssuingKeepsGrants(db: Db, next: Db, t: Token, grant: Grant)
    requires GrantsOk(db) && t !in db.grants && grant.action == DELETE_ACTION && grant.consumedAt.None?
    requires next.grants == db.grants[t := grant] && next.spent == db.spent && next.jobs == db.jobs
    ensures GrantsOk(next) && GrantsEvolve(db, next)
  {
    forall k | k in next.jobs && next.jobs[k].operation.Delete? ensures exists u :: SpentOn(next, u, k) {
      var u :| SpentOn(db, u, k);
      assert SpentOn(next, u, k);
    }
  }

  lemma IssuingKeepsEvents(db: Db, next: Db)
    requires EventsFit(db) && next.jobs == db.jobs && Appends(db, next)
    requires Newest(next).Reauthenticated? || Newest(next).ReauthRefused?
    ensures EventsFit(next)
  {
    forall i | 0 <= i < |next.audit| ensures EventFits(next, next.audit[i]) {
      if i < |db.audit| {
        assert next.audit[i] == db.audit[i] && EventFits(db, db.audit[i]);
      }
    }
  }

  lemma AuditOnlyKeeps(db: Db, next: Db)
    requires StoreOk(db) && Appends(db, next) && next == db.(audit := next.audit)
    requires Newest(next).ReauthRefused?
    ensures StoreOk(next) && Evolves(db, next)
  {
    hide Indexed, JobsOk, Fingerprinted, OneActive, Coupled, JobsEvolve, ProjectsEvolve, GrantsOk, GrantsEvolve, EventsFit;
    AuditAppend(db.audit, Newest(next));
    IssuingKeepsEvents(db, next);
    SameGrantsKept(db, next);
    SameJobsAndProjects(db, next);
  }

  lemma IssuedKeeps(db: Db, next: Db, token: Token)
    requires StoreOk(db) && Appends(db, next) && token !in db.grants && token in next.grants
    requires next == db.(audit := next.audit, grants := db.grants[token := next.grants[token]])
    requires next.grants[token].consumedAt.None? && next.grants[token].action == DELETE_ACTION
    requires Newest(next).Reauthenticated?
    ensures StoreOk(next) && Evolves(db, next)
  {
    hide Indexed, JobsOk, Fingerprinted, OneActive, Coupled, JobsEvolve, ProjectsEvolve, GrantsOk, GrantsEvolve, EventsFit;
    AuditAppend(db.audit, Newest(next));
    IssuingKeepsEvents(db, next);
    IssuingKeepsGrants(db, next, token, next.grants[token]);
    SameJobsAndProjects(db, next);
  }

  lemma GrantKeeps(db: Db, user: UserId, p: ProjectId, token: Token, now: Time, ttl: Time, check: ReauthCheck)
    requires StoreOk(db)
    ensures var (next, _) := IssueGrant(db, user, p, token, now, ttl, check);
            StoreOk(next) && Evolves(db, next)
  {
    hide StoreOk, Evolves, ReauthRefusal;
    EvolvesReflexive(db);
    var (next, ok) := IssueGrant(db, user, p, token, now, ttl, check);
    if ok {
      IssuedKeeps(db, next, token);
    } else if next != db {
      AuditOnlyKeeps(db, next);
    }
  }

  lemma SameGrantsKept(db: Db, next: Db)
    requires GrantsOk(db) && next.grants == db.grants && next.spent == db.spent && next.jobs == db.jobs
    ensures GrantsOk(next) && GrantsEvolve(db, next)
  {
    forall j | j in next.jobs && next.jobs[j].operation.Delete? ensures exists t :: SpentOn(next, t, j) {
      var t :| SpentOn(db, t, j);
      assert SpentOn(next, t, j);
    }
  }

  lemma SameActive(db: Db, next: Db)
    requires OneActive(db) && Coupled(db) && next.jobs == db.jobs && next.projects == db.projects
    ensures OneActive(next) && Coupled(next)
  {
    hide Fits;
    assert forall p, j :: ActiveFor(next, p, j) <==> ActiveFor(db, p, j);
    forall p | HasActive(db, p) ensures HasActive(next, p) {
      var j :| j in db.jobs && ActiveFor(db, p, j);
      assert ActiveFor(next, p, j);
    }
    forall p | HasFailedDelete(db, p) ensures HasFailedDelete(next, p) {
      var j :| FailedDelete(db, p, j);
      assert FailedDelete(next, p, j);
    }
  }

  lemma SameRowsEvolve(db: Db, next: Db)
    requires next.jobs == db.jobs && next.projects == db.projects
    ensures JobsEvolve(db, next) && ProjectsEvolve(db, next)
  {
  }

  lemma SameJobsAndProjects(db: Db, next: Db)
    requires Indexed(db) && JobsOk(db) && Fingerprinted(db) && OneActive(db) && Coupled(db)
    requires next.jobs == db.jobs && next.projects == db.projects
    requires next.keyIndex == db.keyIndex && next.slugIndex == db.slugIndex
    ensures Indexed(next) && JobsOk(next) && Fingerprinted(next) && OneActive(next) && Coupled(next)
    ensures JobsEvolve(db, next) && ProjectsEvolve(db, next)
  {
    hide OneActive, Coupled, JobsEvolve, ProjectsEvolve, JobOk, FingerprintFits;
    SameActive(db, next);
    SameRowsEvolve(db, next);
  }
}
