/** The transactions of the provisioning saga as functions of the database. */
module ProvisionStore {
  import opened Options
  import opened Rows
  import LifecycleQueue

  datatype LoadOutcome = Loaded | LoadLost | NotResumable

  datatype PublishOutcome = PublishedReady | PublishLost | TransitionRefused

  datatype Observed = Observed(kind: ResourceKind, name: string, status: string)

  /** One container as `docker compose ps` reports it; the texts are already lower case. */
  datatype ContainerReport = ContainerReport(service: string, state: string, health: string)

  const REQUIRED_SERVICES: set<string> := {
    "project-redis", "airflow-api-server", "airflow-scheduler", "airflow-dag-processor", "airflow-worker"
  }
  const INIT_SERVICE := "airflow-init"

  /** `_locked_owned_job` of the provisioner: the lease check plus the project check. */
  predicate OwnsClaim(db: Db, claim: Claim, now: Time) {
    && LifecycleQueue.Owns(db, claim.job, claim.worker, claim.attempt, now)
    && db.jobs[claim.job].project == claim.project
  }

  function LoadClaimedState(db: Db, claim: Claim, now: Time): LoadOutcome {
    if !OwnsClaim(db, claim, now) then LoadLost
    else if claim.project !in db.projects then NotResumable
    else if db.projects[claim.project].status.Provisioning? || db.projects[claim.project].status.ProvisionFailed?
    then Loaded else NotResumable
  }

  function SetStep(db: Db, claim: Claim, step: Step, now: Time): (Db, bool) {
    if !OwnsClaim(db, claim, now) then (db, false)
    else (db.(jobs := db.jobs[claim.job := db.jobs[claim.job].(step := Some(step))]), true)
  }

  function PublishReady(db: Db, claim: Claim, now: Time): (Db, PublishOutcome) {
    if !OwnsClaim(db, claim, now) || claim.project !in db.projects then (db, PublishLost)
    else
      var current := db.projects[claim.project].status;
      var resumed := if current.ProvisionFailed? then Provisioning else current;
      if (current.ProvisionFailed? && (ProvisionFailed, Provisioning) !in ALLOWED_TRANSITIONS)
         || (resumed, Ready) !in ALLOWED_TRANSITIONS
      then (db, TransitionRefused)
      else
        (db.(projects := WithStatus(db.projects, claim.project, Ready, now),
             jobs := db.jobs[claim.job := db.jobs[claim.job].(step := Some(Published))]),
         PublishedReady)
  }

  function ContainerStatus(c: ContainerReport): string {
    var state := if c.state == "" then "unknown" else c.state;
    if state != "running" then state
    else if c.health == "" || c.health == "healthy" then "running" else c.health
  }

  function ContainersOf(reports: seq<ContainerReport>): (r: seq<Observed>)
    ensures |r| == |reports|
    ensures forall i :: 0 <= i < |r| ==> r[i] == Observed(Container, reports[i].service, ContainerStatus(reports[i]))
  {
    seq(|reports|, i requires 0 <= i < |reports| =>
      Observed(Container, reports[i].service, ContainerStatus(reports[i])))
  }

  /** A successful `inspect_resources`: every container, then the network and the two volumes. */
  function Inspection(reports: seq<ContainerReport>): seq<Observed> {
    ContainersOf(reports)
    + [Observed(Network, "default", "present"), Observed(Volume, "dags", "present"),
       Observed(Volume, "logs", "present")]
  }

  function Upsert(db: Db, p: ProjectId, generation: nat, row: Observed): Db {
    db.(registry := db.registry[ResourceKey(p, generation, row.name) := Resource(row.kind, row.status)])
  }

  /** `observed_services` of `_mark_missing_required_services`. */
  predicate ContainerSeen(observed: seq<Observed>, name: string) {
    exists i :: 0 <= i < |observed| && observed[i].kind.Container? && observed[i].name == name
  }

  predicate MissingRow(db: Db, p: ProjectId, generation: nat, observed: seq<Observed>, key: ResourceKey) {
    && key in db.registry && key.project == p && key.generation == generation
    && db.registry[key].kind.Container?
    && key.name in REQUIRED_SERVICES && !ContainerSeen(observed, key.name)
  }

  function MarkMissing(db: Db, p: ProjectId, generation: nat, observed: seq<Observed>): Db {
    db.(registry := map key | key in db.registry ::
          if MissingRow(db, p, generation, observed, key)
          then db.registry[key].(status := "absent") else db.registry[key])
  }

  /** The status dictionary of `_require_required_services_running`: the last report of a service wins. */
  function LastStatus(observed: seq<Observed>, name: string): Option<string> {
    if |observed| == 0 then None
    else
      var last := observed[|observed| - 1];
      if last.kind.Container? && last.name == name then Some(last.status)
      else LastStatus(observed[..|observed| - 1], name)
  }

  predicate RequiredRunning(observed: seq<Observed>) {
    forall name :: name in REQUIRED_SERVICES ==> LastStatus(observed, name) == Some("running")
  }

  predicate InitCompleted(db: Db, p: ProjectId, generation: nat) {
    var key := ResourceKey(p, generation, INIT_SERVICE);
    key in db.registry && db.registry[key].kind.Container? && db.registry[key].status == "exited"
  }
}
