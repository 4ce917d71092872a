/**
 What the transactions of the provisioning saga do, said of the fields of the rows alone,
 and what the durable step of a job tells about the attempt that runs it.
*/
module ProvisionOutcomes {
  import opened Options
  import opened Rows
  import opened QueueOutcomes
  import opened ProvisionStore
  import opened StoreInvariant
  import opened LifecycleSystem
  import opened SystemInvariant
  import opened WorkerSteps

  /** The attempt holds its job, and the job is the one of the project it claimed. */
  predicate HoldsJob(db: Db, c: Claim, now: Time) {
    c.job in db.jobs && HeldBy(db.jobs[c.job], c.worker, c.attempt, now) && db.jobs[c.job].project == c.project
  }

  predicate Resumable(db: Db, p: ProjectId) {
    p in db.projects && (db.projects[p].status == Provisioning || db.projects[p].status == ProvisionFailed)
  }

  /** An attempt starts exactly while it holds its job and the project is being provisioned or failed to be. */
  lemma LoadExactly(db: Db, c: Claim, now: Time)
    ensures LoadClaimedState(db, c, now)
         == if !HoldsJob(db, c, now) then LoadLost else if Resumable(db, c.project) then Loaded else NotResumable
  {
  }

  /** The step an attempt enters is recorded in its job, and nothing else is; without the job nothing is. */
  lemma SetStepExactly(db: Db, c: Claim, step: Step, now: Time)
    ensures var (next, ok) := SetStep(db, c, step, now);
            && (ok <==> HoldsJob(db, c, now)) && (!ok ==> next == db)
            && (ok ==> next == db.(jobs := db.jobs[c.job := db.jobs[c.job].(step := Some(step))]))
  {
  }

  /** READY is published exactly by the holder for a resumable project; the job says so. */
  lemma PublishExactly(db: Db, c: Claim, now: Time)
    ensures var (next, outcome) := PublishReady(db, c, now);
            && (outcome == PublishedReady <==> HoldsJob(db, c, now) && Resumable(db, c.project))
            && (outcome == TransitionRefused <==>
                  HoldsJob(db, c, now) && c.project in db.projects && !Resumable(db, c.project))
            && (outcome != PublishedReady ==> next == db)
            && (outcome == PublishedReady ==>
                  && next == db.(projects := next.projects, jobs := next.jobs)
                  && next.projects == db.projects[c.project := db.projects[c.project].(status := Ready, updatedAt := now)]
                  && next.jobs == db.jobs[c.job := db.jobs[c.job].(step := Some(Published))])
  {
  }

  /** One registry row is written, and no other. */
  lemma UpsertExactly(db: Db, p: ProjectId, generation: nat, row: Observed)
    ensures var next := Upsert(db, p, generation, row);
            var key := ResourceKey(p, generation, row.name);
            && next == db.(registry := next.registry)
            && key in next.registry && next.registry[key] == Resource(row.kind, row.status)
            && next.registry.Keys == db.registry.Keys + {key}
            && forall k :: k in db.registry && k != key ==> next.registry[k] == db.registry[k]
  {
  }

  predicate IsRequiredName(name: string) {
    || name == "project-redis" || name == "airflow-api-server" || name == "airflow-scheduler"
    || name == "airflow-dag-processor" || name == "airflow-worker"
  }

  /** No container of the service was seen. */
  predicate Unseen(observed: seq<Observed>, name: string) {
    forall i :: 0 <= i < |observed| ==> observed[i].kind != Container || observed[i].name != name
  }

  /**
   Exactly the container rows of this generation for required services of which no container was
   seen become absent. Every other row stays as it is, and none comes or goes.
  */
  lemma MarkMissingExactly(db: Db, p: ProjectId, generation: nat, observed: seq<Observed>, key: ResourceKey)
    ensures var next := MarkMissing(db, p, generation, observed);
            && next == db.(registry := next.registry) && (key in next.registry <==> key in db.registry)
            && (key in db.registry ==>
                  next.registry[key]
                  == if key.project == p && key.generation == generation && IsRequiredName(key.name)
                        && db.registry[key].kind == Container && Unseen(observed, key.name)
                     then Resource(Container, "absent") else db.registry[key])
  {
    assert Unseen(observed, key.name) <==> !ContainerSeen(observed, key.name);
    assert IsRequiredName(key.name) <==> key.name in REQUIRED_SERVICES;
  }

  /** Init is skipped exactly when the registry says that the init container of this generation has exited. */
  lemma InitSkippedExactly(s: System, w: nat, c: Claim, now: Time)
    requires w in s.workers && s.workers[w].pc == InSaga(c, CheckInit)
    ensures var t := AdvanceSaga(s, w, c, CheckInit, now, Succeeds);
            var key := ResourceKey(c.project, GenerationOf(s.db, c.project), "airflow-init");
            && t.db == s.db && t.log == s.log
            && t.workers[w].pc
               == if key in s.db.registry && s.db.registry[key] == Resource(Container, "exited")
                  then InSaga(c, Enter(Services)) else InSaga(c, Act(RunInit))
  {
  }

  /** What is recorded from an inspection: the containers in their order, then one network and two volumes. */
  lemma InspectionExactly(reports: seq<ContainerReport>, k: nat)
    ensures |Inspection(reports)| == |reports| + 3
    ensures k < |reports| ==>
              && Inspection(reports)[k].kind == Container && Inspection(reports)[k].name == reports[k].service
              && (Inspection(reports)[k].status == "running" <==>
                    reports[k].state == "running"
                    && (reports[k].health == "" || reports[k].health == "healthy" || reports[k].health == "running"))
              && (reports[k].state != "" && reports[k].state != "running" ==>
                    Inspection(reports)[k].status == reports[k].state)
              && (reports[k].state == "" ==> Inspection(reports)[k].status == "unknown")
              && (reports[k].state == "running" && reports[k].health != "" && reports[k].health != "healthy" ==>
                    Inspection(reports)[k].status == reports[k].health)
    ensures Inspection(reports)[|reports|] == Observed(Network, "default", "present")
    ensures Inspection(reports)[|reports| + 1] == Observed(Volume, "dags", "present")
    ensures Inspection(reports)[|reports| + 2] == Observed(Volume, "logs", "present")
  {
  }

  /**
   In every reachable state, the durable step of a job that a live attempt works on tells where
   the attempt stands: it is the step it has entered last, and "ready" once it has published.
  */
  lemma StepTellsPosition(es: seq<Event>, w: nat, c: Claim, at: Point)
    requires var s := Run(INIT, es);
             w in s.workers && s.workers[w].pc == InSaga(c, at) && Position(at) > 2
    ensures var db := Run(INIT, es).db;
            && c.job in db.jobs
            && (db.jobs[c.job].status == Running && db.jobs[c.job].attempt == c.attempt ==>
                  db.jobs[c.job].step == Some(EnteredStep(at)))
  {
    hide Run, Next;
    RunKeeps(es);
    assert WorkerOk(Run(INIT, es), w);
  }
}
