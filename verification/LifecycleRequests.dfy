/**
 The API transactions as functions of the database: create a project, retry a failed
 provision, issue a re-authentication grant, request a deletion. `newProject` and
 `newJob` are the random identifiers drawn by the request; a collision is an integrity
 error like any other. `keyVisible` says whether the early idempotency lookup already
 saw a job committed for another project (the project row lock serialises the rest).
*/
module LifecycleRequests {
  import opened Options
  import opened Rows

  const CREATE_MAX_ATTEMPTS := 5
  const RETRY_MAX_ATTEMPTS := 5
  const DELETE_MAX_ATTEMPTS := 5

  datatype CreateReply =
    | Created(project: ProjectId, job: JobId) | DuplicateSlug | KeyConflict | CreateFailed

  datatype Refusal =
    | NotFound | KeyReused | NotRetryable | RetryConflict
    | AlreadyDeleting | NotDeletable | ConfirmationMismatch | InvalidGrant | DeletionFailedToQueue

  datatype Reply = Accepted(job: JobId) | Refused(reason: Refusal)

  function NewJob(p: ProjectId, operation: Operation, maxAttempts: nat, key: Key,
                  fingerprint: Fingerprint, user: UserId, now: Time): Job
  {
    Job(p, operation, Pending, None, 0, maxAttempts, now, None, None, None,
        key, fingerprint, user, None, now, None, None)
  }

  function Enqueue(db: Db, j: JobId, job: Job, event: AuditEvent): Db {
    db.(jobs := db.jobs[j := job], keyIndex := db.keyIndex[job.key := j], audit := db.audit + [event])
  }

  /** Whether inserting this job row violates its primary key, the key index or the active index. */
  predicate InsertConflicts(db: Db, p: ProjectId, j: JobId, key: Key) {
    j in db.jobs || key in db.keyIndex || HasActive(db, p)
  }

  function CreateProject(db: Db, name: string, slug: string, description: Option<string>, user: UserId,
                         key: Key, newProject: ProjectId, newJob: JobId, now: Time): (Db, CreateReply)
  {
    var fingerprint := CreateRequest(name, slug, description, user);
    if newProject in db.projects || slug in db.slugIndex || InsertConflicts(db, newProject, newJob, key) then
      match JobWithKey(db, key)
      case None => (db, if ProjectWithSlug(db, slug).Some? then DuplicateSlug else CreateFailed)
      case Some(existing) =>
        if db.jobs[existing].fingerprint != fingerprint then (db, KeyConflict)
        else if db.jobs[existing].project !in db.projects then (db, CreateFailed)
        else (db, Created(db.jobs[existing].project, existing))
    else
      var inserted := db.(projects := db.projects[newProject := Project(name, slug, Provisioning, 1, now)],
                          slugIndex := db.slugIndex[slug := newProject]);
      (Enqueue(inserted, newJob,
               NewJob(newProject, Provision, CREATE_MAX_ATTEMPTS, key, fingerprint, user, now),
               Requested("project.provision.requested", user, newProject, newJob)),
       Created(newProject, newJob))
  }

  /** The idempotency lookup made before the row is inserted. */
  function VisibleJob(db: Db, key: Key, p: ProjectId, keyVisible: bool): Option<JobId> {
    match JobWithKey(db, key)
    case None => None
    case Some(j) => if keyVisible || db.jobs[j].project == p then Some(j) else None
  }

  predicate SameRequest(job: Job, p: ProjectId, operation: Operation, user: UserId, fingerprint: Fingerprint) {
    job.project == p && job.operation == operation && job.requestedBy == user && job.fingerprint == fingerprint
  }

  predicate Retryable(db: Db, p: ProjectId, failedJob: JobId) {
    && p in db.projects && failedJob in db.jobs
    && db.jobs[failedJob].operation.Provision?
    && db.jobs[failedJob].status.Failed?
    && db.projects[p].status.ProvisionFailed?
  }

  function RetryProvision(db: Db, slug: string, failedJob: JobId, user: UserId, key: Key,
                          newJob: JobId, now: Time, keyVisible: bool): (Db, Reply)
  {
    match ProjectWithSlug(db, slug)
    case None => (db, Refused(NotFound))
    case Some(p) =>
      if failedJob !in db.jobs || db.jobs[failedJob].project != p then (db, Refused(NotFound))
      else
        var fingerprint := RetryRequest(user, failedJob, p);
        match VisibleJob(db, key, p, keyVisible)
        case Some(replay) =>
          (db, if SameRequest(db.jobs[replay], p, Provision, user, fingerprint)
               then Accepted(replay) else Refused(KeyReused))
        case None =>
          if !Retryable(db, p, failedJob) then (db, Refused(NotRetryable))
          else if InsertConflicts(db, p, newJob, key) then
            match JobWithKey(db, key)
            case None => (db, Refused(RetryConflict))
            case Some(replay) =>
              (db, if SameRequest(db.jobs[replay], p, Provision, user, fingerprint)
                   then Accepted(replay) else Refused(KeyReused))
          else
            var failed := db.jobs[failedJob];
            var attempts := if failed.maxAttempts != 0 then failed.maxAttempts else RETRY_MAX_ATTEMPTS;
            var queued := db.(projects := WithStatus(db.projects, p, Provisioning, now));
            (Enqueue(queued, newJob, NewJob(p, Provision, attempts, key, fingerprint, user, now),
                     Requested("project.provision.retry_requested", user, p, newJob)),
             Accepted(newJob))
  }

  /**
   What a re-authentication finds outside the database: the access token, the rate counters
   (None when they cannot be read), the account, the action asked for and the password.
  */
  datatype ReauthCheck = ReauthCheck(tokenValid: bool, withinLimit: Option<bool>, known: bool, active: bool,
                                     admin: bool, action: string, passwordMatches: bool)

  /** The first check that fails, in the order in which they are made. */
  function ReauthRefusal(db: Db, p: ProjectId, check: ReauthCheck): Option<string> {
    if check.withinLimit.None? then Some("rate_limit_unavailable")
    else if !check.withinLimit.value then Some("rate_limited")
    else if !check.known then Some("actor_not_found")
    else if !check.active then Some("inactive_actor")
    else if !check.admin then Some("not_super_admin")
    else if check.action != DELETE_ACTION then Some("invalid_action")
    else if p !in db.projects then Some("project_not_found")
    else if !check.passwordMatches then Some("invalid_password")
    else None
  }

  /** Whom a refusal names: nobody when the account is unknown. */
  function RefusedActor(user: UserId, check: ReauthCheck): Option<UserId> {
    if check.known then Some(user) else None
  }

  /** A refusal is audited, unless the access token itself is invalid; a grant is issued when every check passes. */
  function IssueGrant(db: Db, user: UserId, p: ProjectId, token: Token, now: Time, ttl: Time, check: ReauthCheck)
    : (Db, bool)
  {
    if !check.tokenValid then (db, false)
    else
      match ReauthRefusal(db, p, check)
      case Some(reason) => (db.(audit := db.audit + [ReauthRefused(RefusedActor(user, check), p, reason)]), false)
      case None =>
        if token in db.grants then (db, false)
        else
          (db.(grants := db.grants[token := Grant(user, DELETE_ACTION, p, now + ttl, None, now)],
               audit := db.audit + [Reauthenticated(user, p)]),
           true)
  }

  /** Only grants and audit log may change, and the grants by the one issued. */
  lemma IssueShape(db: Db, user: UserId, p: ProjectId, token: Token, now: Time, ttl: Time, check: ReauthCheck)
    ensures var next := IssueGrant(db, user, p, token, now, ttl, check).0;
            var grant := Grant(user, DELETE_ACTION, p, now + ttl, None, now);
            && next.jobs == db.jobs && next.projects == db.projects && next.spent == db.spent
            && next.registry == db.registry
            && (next.grants == db.grants || next.grants == db.grants[token := grant])
  {
    hide ReauthRefusal, RefusedActor;
    if check.tokenValid && ReauthRefusal(db, p, check).None? && token !in db.grants {
      var grant := Grant(user, DELETE_ACTION, p, now + ttl, None, now);
      assert IssueGrant(db, user, p, token, now, ttl, check).0
          == db.(grants := db.grants[token := grant], audit := db.audit + [Reauthenticated(user, p)]);
    }
  }

  /** A grant is issued exactly to an active administrator with the right password, for an existing project. */
  lemma GrantIssuedExactly(db: Db, user: UserId, p: ProjectId, token: Token, now: Time, ttl: Time, check: ReauthCheck)
    requires token !in db.grants
    ensures var (next, ok) := IssueGrant(db, user, p, token, now, ttl, check);
            && (ok <==> check.tokenValid && check.withinLimit == Some(true) && check.known && check.active && check.admin
                        && check.action == DELETE_ACTION && p in db.projects && check.passwordMatches)
            && next.grants == (if ok then db.grants[token := Grant(user, DELETE_ACTION, p, now + ttl, None, now)]
                               else db.grants)
            && next.jobs == db.jobs && next.projects == db.projects
            && (check.tokenValid <==> |next.audit| == |db.audit| + 1)
  {
  }

  predicate FailedDelete(db: Db, p: ProjectId, j: JobId) {
    j in db.jobs && db.jobs[j].project == p && db.jobs[j].operation.Delete? && db.jobs[j].status.Failed?
  }

  /** Newest first by created_at; rows created at the same instant are taken by identifier. */
  predicate Newer(a: Job, i: JobId, b: Job, j: JobId) {
    a.createdAt > b.createdAt || (a.createdAt == b.createdAt && i >= j)
  }

  predicate LatestFailure(db: Db, p: ProjectId, j: JobId) {
    FailedDelete(db, p, j)
    && forall k :: k in db.jobs && FailedDelete(db, p, k) ==> Newer(db.jobs[j], j, db.jobs[k], k)
  }

  lemma {:induction false} NewestExists(db: Db, candidates: set<JobId>) returns (j: JobId)
    requires candidates != {} && candidates <= db.jobs.Keys
    ensures j in candidates
    ensures forall k :: k in candidates ==> Newer(db.jobs[j], j, db.jobs[k], k)
  {
    var c :| c in candidates;
    if candidates == {c} {
      j := c;
    } else {
      var r := NewestExists(db, candidates - {c});
      j := if Newer(db.jobs[c], c, db.jobs[r], r) then c else r;
      forall k | k in candidates ensures Newer(db.jobs[j], j, db.jobs[k], k) {
        if k != c { assert k in candidates - {c}; }
      }
    }
  }

  lemma LatestFailureExists(db: Db, p: ProjectId)
    requires exists j :: j in db.jobs && FailedDelete(db, p, j)
    ensures exists j :: j in db.jobs && LatestFailure(db, p, j)
  {
    var candidates := set j | j in db.jobs && FailedDelete(db, p, j);
    var some :| some in db.jobs && FailedDelete(db, p, some);
    assert some in candidates;
    var j := NewestExists(db, candidates);
    assert LatestFailure(db, p, j);
  }

  /** The instant a grant must be newer than before a failed deletion may be requested again. */
  function FailureBoundary(db: Db, p: ProjectId): Time
    requires p in db.projects
  {
    if exists j :: j in db.jobs && FailedDelete(db, p, j) then
      LatestFailureExists(db, p);
      var j :| j in db.jobs && LatestFailure(db, p, j);
      if db.jobs[j].finishedAt.Some? then db.jobs[j].finishedAt.value else db.projects[p].updatedAt
    else
      db.projects[p].updatedAt
  }

  predicate GrantValid(db: Db, token: Option<Token>, actor: UserId, p: ProjectId, now: Time)
    requires p in db.projects
  {
    && token.Some? && token.value != ""
    && token.value in db.grants
    && var grant := db.grants[token.value];
    && grant.user == actor
    && grant.action == DELETE_ACTION
    && grant.project == p
    && grant.consumedAt.None?
    && grant.expiresAt > now
    && (db.projects[p].status.DeletionFailed? ==> grant.createdAt > FailureBoundary(db, p))
  }

  /** The guards have passed: the grant is spent, the project moves and the job is inserted, or nothing is. */
  function QueueDeletion(db: Db, p: ProjectId, slug: string, confirmation: string, key: Key, token: Token,
                         actor: UserId, newJob: JobId, now: Time): (Db, Reply)
    requires p in db.projects && token in db.grants
  {
    if InsertConflicts(db, p, newJob, key) then
      match JobWithKey(db, key)
      case None => (db, Refused(DeletionFailedToQueue))
      case Some(replay) =>
        var job := db.jobs[replay];
        (db, if job.operation.Delete? && job.requestedBy == actor
                && job.fingerprint == DeleteRequest(actor, confirmation, job.project, slug)
             then Accepted(replay) else Refused(KeyReused))
    else
      var spent := db.(projects := WithStatus(db.projects, p, Deleting, now),
                       grants := db.grants[token := db.grants[token].(consumedAt := Some(now))],
                       spent := db.spent[token := newJob]);
      (Enqueue(spent, newJob,
               NewJob(p, Delete, DELETE_MAX_ATTEMPTS, key, DeleteRequest(actor, confirmation, p, slug), actor, now),
               Requested("project.delete.requested", actor, p, newJob)),
       Accepted(newJob))
  }

  function RequestDeletion(db: Db, slug: string, confirmation: string, key: Key, token: Option<Token>,
                           actor: UserId, newJob: JobId, now: Time, keyVisible: bool): (Db, Reply)
  {
    match ProjectWithSlug(db, slug)
    case None => (db, Refused(NotFound))
    case Some(p) =>
      var fingerprint := DeleteRequest(actor, confirmation, p, slug);
      var existing := VisibleJob(db, key, p, keyVisible);
      var status := db.projects[p].status;
      if existing.Some? && SameRequest(db.jobs[existing.value], p, Delete, actor, fingerprint) then
        (db, Accepted(existing.value))
      else if status.Deleting? then (db, Refused(AlreadyDeleting))
      else if !(status.Ready? || status.ProvisionFailed? || status.DeletionFailed?) then
        (db, Refused(NotDeletable))
      else if confirmation != slug then (db, Refused(ConfirmationMismatch))
      else if existing.Some? then (db, Refused(KeyReused))
      else if !GrantValid(db, token, actor, p, now) then (db, Refused(InvalidGrant))
      else QueueDeletion(db, p, slug, confirmation, key, token.value, actor, newJob, now)
  }
}
