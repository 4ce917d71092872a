/**
 The rows the lifecycle service keeps: projects, durable lifecycle jobs, one-time
 re-authentication grants, audit events and the runtime resource registry.

 Digests (request fingerprints, token hashes) are modelled by the value they are
 computed from: two digests are equal exactly when their inputs are.
*/
module Rows {
  import opened Options

  type Time = real
  type ProjectId = nat
  type JobId = nat
  type UserId = nat
  type WorkerId = string
  type Key = string
  type Token = string

  datatype ProjectStatus = Provisioning | Ready | ProvisionFailed | Deleting | DeletionFailed

  datatype Operation = Provision | Delete | Reconcile

  datatype JobStatus = Pending | Running | RetryWait | Succeeded | Failed

  /** Values of the job column `current_step`; `Published` is the literal "ready". */
  datatype Step =
    | DatabaseRole | Database | Configuration | RuntimeImage | Init | Services | AirflowReadiness
    | Published

  datatype Fingerprint =
    | CreateRequest(name: string, slug: string, description: Option<string>, requestedBy: UserId)
    | RetryRequest(actor: UserId, failedJob: JobId, project: ProjectId)
    | DeleteRequest(actor: UserId, confirmation: string, project: ProjectId, slug: string)

  /** A project together with the generation of its (one to one) deployment row. */
  datatype Project = Project(name: string, slug: string, status: ProjectStatus,
                             generation: nat, updatedAt: Time)

  datatype Job = Job(
    project: ProjectId, operation: Operation, status: JobStatus, step: Option<Step>,
    attempt: nat, maxAttempts: nat, availableAt: Time,
    lockedBy: Option<WorkerId>, lockExpiresAt: Option<Time>, heartbeatAt: Option<Time>,
    key: Key, fingerprint: Fingerprint, requestedBy: UserId, errorCode: Option<string>,
    createdAt: Time, startedAt: Option<Time>, finishedAt: Option<Time>)

  datatype Grant = Grant(user: UserId, action: string, project: ProjectId, expiresAt: Time,
                         consumedAt: Option<Time>, createdAt: Time)

  datatype AuditEvent =
    | Requested(eventType: string, actor: UserId, project: ProjectId, job: JobId)
    | FailedOperation(eventType: string, actor: UserId, project: ProjectId, job: JobId,
                      attempt: nat, errorCode: string)
    | Reauthenticated(actor: UserId, project: ProjectId)
    | ReauthRefused(account: Option<UserId>, project: ProjectId, reason: string)

  datatype ResourceKind = Container | Volume | Network | DatabaseResource | DatabaseRoleResource | ProxyRoute

  datatype ResourceKey = ResourceKey(project: ProjectId, generation: nat, name: string)

  datatype Resource = Resource(kind: ResourceKind, status: string)

  /** What a worker carries away from a successful claim. */
  datatype Claim = Claim(job: JobId, project: ProjectId, operation: Operation, attempt: nat,
                         worker: WorkerId)

  /**
   The whole database. `slugIndex` and `keyIndex` are the two unique indexes; the
   partial unique index on active jobs is the predicate `HasActive` below. `spent` is
   a history variable (no column): which DELETE job consumed a grant.
  */
  datatype Db = Db(
    projects: map<ProjectId, Project>, jobs: map<JobId, Job>, grants: map<Token, Grant>,
    audit: seq<AuditEvent>, registry: map<ResourceKey, Resource>,
    slugIndex: map<string, ProjectId>, keyIndex: map<Key, JobId>, spent: map<Token, JobId>)

  const DELETE_ACTION := "project.delete"
  const EMPTY_DB := Db(map[], map[], map[], [], map[], map[], map[], map[])

  const ALLOWED_TRANSITIONS: set<(ProjectStatus, ProjectStatus)> := {
    (Provisioning, Ready), (Provisioning, ProvisionFailed), (ProvisionFailed, Provisioning),
    (Ready, Deleting), (ProvisionFailed, Deleting), (Deleting, DeletionFailed),
    (DeletionFailed, Deleting)
  }

  predicate Active(job: Job) {
    job.status.Pending? || job.status.Running? || job.status.RetryWait?
  }

  predicate ActiveFor(db: Db, p: ProjectId, j: JobId) {
    j in db.jobs && db.jobs[j].project == p && Active(db.jobs[j])
  }

  /** What the partial unique index on active jobs looks up. */
  predicate HasActive(db: Db, p: ProjectId) {
    exists j :: j in db.jobs && ActiveFor(db, p, j)
  }

  function JobWithKey(db: Db, key: Key): Option<JobId> {
    if key in db.keyIndex && db.keyIndex[key] in db.jobs then Some(db.keyIndex[key]) else None
  }

  function ProjectWithSlug(db: Db, slug: string): Option<ProjectId> {
    if slug in db.slugIndex && db.slugIndex[slug] in db.projects then Some(db.slugIndex[slug]) else None
  }

  function WithStatus(projects: map<ProjectId, Project>, p: ProjectId, status: ProjectStatus, now: Time)
    : map<ProjectId, Project>
    requires p in projects
  {
    projects[p := projects[p].(status := status, updatedAt := now)]
  }
}
