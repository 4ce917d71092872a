/**
 The transactions in the form the service has them: methods that update rows in place
 and roll back on a refusal. Each is proved equal to its specification function.
*/
module LifecycleStores {
  import opened Options
  import opened Rows
  import opened LifecycleQueue
  import opened LifecycleRequests
  import opened ProvisionStore
  import opened ClaimLoop
  import RetryDelay

  class LifecycleStore {
    var projects: map<ProjectId, Project>
    var jobs: map<JobId, Job>
    var grants: map<Token, Grant>
    var audit: seq<AuditEvent>
    var registry: map<ResourceKey, Resource>
    var slugIndex: map<string, ProjectId>
    var keyIndex: map<Key, JobId>
    var spent: map<Token, JobId>

    constructor ()
      ensures Stored() == EMPTY_DB
    {
      projects, jobs, grants, audit := map[], map[], map[], [];
      registry, slugIndex, keyIndex, spent := map[], map[], map[], map[];
    }

    /** The rows as one value. */
    function Stored(): Db
      reads this
    {
      Db(projects, jobs, grants, audit, registry, slugIndex, keyIndex, spent)
    }

    method Rollback(to: Db)
      modifies this
      ensures Stored() == to
    {
      projects, jobs, grants, audit := to.projects, to.jobs, to.grants, to.audit;
      registry, slugIndex, keyIndex, spent := to.registry, to.slugIndex, to.keyIndex, to.spent;
    }

    // ---- The queue ----

    method RecordTerminalFailure(j: JobId, now: Time, code: string) returns (ok: bool)
      requires j in jobs
      modifies this
      ensures ok <==> old(jobs)[j].project in old(projects)
      ensures !ok ==> Stored() == old(Stored())
      ensures ok ==> Stored() == match old(jobs)[j].operation
        case Provision => old(Stored()).(
          projects := WithStatus(old(projects), old(jobs)[j].project, ProvisionFailed, now),
          audit := old(audit) + [FailedOperation("project.provision.failed", old(jobs)[j].requestedBy,
                                                 old(jobs)[j].project, j, old(jobs)[j].attempt, code)])
        case Delete => old(Stored()).(
          projects := WithStatus(old(projects), old(jobs)[j].project, DeletionFailed, now),
          audit := old(audit) + [FailedOperation("project.delete.failed", old(jobs)[j].requestedBy,
                                                 old(jobs)[j].project, j, old(jobs)[j].attempt, code)])
        case Reconcile => old(Stored())
    {
      var job := jobs[j];
      if job.project !in projects {
        return false;
      }
      var eventType;
      if job.operation.Provision? {
        projects := projects[job.project := projects[job.project].(status := ProvisionFailed, updatedAt := now)];
        eventType := "project.provision.failed";
      } else if job.operation.Delete? {
        projects := projects[job.project := projects[job.project].(status := DeletionFailed, updatedAt := now)];
        eventType := "project.delete.failed";
      } else {
        return true;
      }
      audit := audit + [FailedOperation(eventType, job.requestedBy, job.project, j, job.attempt, code)];
      return true;
    }

    /** Terminates the job; a job without project rolls everything back. */
    method FailJobRow(j: JobId, now: Time, code: string) returns (ok: bool)
      requires j in jobs
      modifies this
      ensures ok <==> FailJob(old(Stored()), j, now, code).Some?
      ensures Stored() == if ok then FailJob(old(Stored()), j, now, code).value else old(Stored())
    {
      var before := Stored();
      jobs := jobs[j := jobs[j].(status := Failed, errorCode := Some(code), lockedBy := None,
                                 lockExpiresAt := None, finishedAt := Some(now))];
      ok := RecordTerminalFailure(j, now, code);
      if !ok {
        Rollback(before);
      }
    }

    method GrantLease(j: JobId, worker: WorkerId, now: Time, lease: Time)
      requires j in jobs
      modifies this`jobs
      ensures jobs == old(jobs)[j := Leased(old(jobs)[j], worker, now, lease)]
    {
      jobs := jobs[j := jobs[j].(status := Running)];
      jobs := jobs[j := jobs[j].(attempt := jobs[j].attempt + 1)];
      jobs := jobs[j := jobs[j].(lockedBy := Some(worker), lockExpiresAt := Some(now + lease))];
      jobs := jobs[j := jobs[j].(heartbeatAt := Some(now))];
      if jobs[j].startedAt.None? {
        jobs := jobs[j := jobs[j].(startedAt := Some(now))];
      }
      jobs := jobs[j := jobs[j].(finishedAt := None)];
      assert jobs == old(jobs)[j := jobs[j]];
    }

    /** `skips` are, turn by turn, the rows that other transactions hold locked. */
    method ClaimNextJob(worker: WorkerId, now: Time, lease: Time, skips: nat -> set<JobId>)
      returns (outcome: ClaimOutcome)
      modifies this
      ensures (Stored(), outcome) == Claiming(old(Stored()), worker, now, lease, skips, 0)
    {
      hide FailJob, FirstDue, Due;
      if worker == "" || lease <= 0.0 {
        return Invalid;
      }
      var turn := 0;
      while true
        invariant Claiming(Stored(), worker, now, lease, skips, turn)
               == Claiming(old(Stored()), worker, now, lease, skips, 0)
        decreases |ExhaustedJobs(Stored())|
      {
        ghost var before := Stored();
        EachTurnTerminatesOne(before, worker, now, lease, skips(turn));
        var selected := SelectDue(Stored(), now, skips(turn));
        if selected.None? {
          return NothingDue;
        }
        var j := selected.value;
        if jobs[j].status.Running? && jobs[j].attempt >= jobs[j].maxAttempts {
          var ok := FailJobRow(j, now, LEASE_EXPIRED_CODE);
          if !ok {
            assert ClaimOnce(before, worker, now, lease, skips(turn)) == (Stored(), Broken);
            return Broken;
          }
          assert ClaimOnce(before, worker, now, lease, skips(turn)) == (Stored(), ExpiredFinally(j));
          turn := turn + 1;
          continue;
        }
        GrantLease(j, worker, now, lease);
        outcome := Claimed(ClaimOf(j, jobs[j], worker));
        assert ClaimOnce(before, worker, now, lease, skips(turn)) == (Stored(), outcome);
        return;
      }
    }

    method HeartbeatJob(j: JobId, worker: WorkerId, attempt: nat, now: Time, lease: Time) returns (ok: bool)
      modifies this
      ensures (Stored(), ok) == Heartbeat(old(Stored()), j, worker, attempt, now, lease)
    {
      if lease <= 0.0 || !Owns(Stored(), j, worker, attempt, now) {
        return false;
      }
      jobs := jobs[j := jobs[j].(heartbeatAt := Some(now))];
      jobs := jobs[j := jobs[j].(lockExpiresAt := Some(now + lease))];
      assert jobs == old(jobs)[j := jobs[j]];
      return true;
    }

    method CompleteJob(j: JobId, worker: WorkerId, attempt: nat, now: Time) returns (ok: bool)
      modifies this
      ensures (Stored(), ok) == Complete(old(Stored()), j, worker, attempt, now)
    {
      if !Owns(Stored(), j, worker, attempt, now) {
        return false;
      }
      jobs := jobs[j := jobs[j].(status := Succeeded, lockedBy := None, lockExpiresAt := None)];
      jobs := jobs[j := jobs[j].(errorCode := None, finishedAt := Some(now))];
      assert jobs == old(jobs)[j := jobs[j]];
      return true;
    }

    method RetryOrFailJob(j: JobId, worker: WorkerId, attempt: nat, now: Time, error: LifecycleError,
                          options: RetryOptions) returns (outcome: RetryOutcome)
      modifies this
      ensures (Stored(), outcome) == RetryOrFail(old(Stored()), j, worker, attempt, now, error, options)
    {
      var before := Stored();
      if !Owns(before, j, worker, attempt, now) {
        return LostOwnership;
      }
      var terminal := error.permanent || jobs[j].attempt >= jobs[j].maxAttempts;
      if terminal {
        var ok := FailJobRow(j, now, ErrorCode(error));
        return if ok then Terminal else Rejected;
      }
      jobs := jobs[j := jobs[j].(errorCode := Some(ErrorCode(error)), lockedBy := None, lockExpiresAt := None)];
      var exponent := if jobs[j].attempt >= 1 then jobs[j].attempt - 1 else 0;
      var delay := RetryDelay.Delay(exponent, options.base, options.cap, options.jitter, options.thresholdReached);
      if delay.None? {
        Rollback(before);
        return Rejected;
      }
      jobs := jobs[j := jobs[j].(status := RetryWait, availableAt := now + delay.value, finishedAt := None)];
      assert jobs == old(jobs)[j := jobs[j]];
      return Retried;
    }

    // ---- The provisioning saga ----

    method SetCurrentStep(claim: Claim, step: Step, now: Time) returns (ok: bool)
      modifies this
      ensures (Stored(), ok) == SetStep(old(Stored()), claim, step, now)
    {
      if !OwnsClaim(Stored(), claim, now) {
        return false;
      }
      jobs := jobs[claim.job := jobs[claim.job].(step := Some(step))];
      return true;
    }

    method Publish(claim: Claim, now: Time) returns (outcome: PublishOutcome)
      modifies this
      ensures (Stored(), outcome) == PublishReady(old(Stored()), claim, now)
    {
      var before := Stored();
      if !OwnsClaim(before, claim, now) || claim.project !in projects {
        return PublishLost;
      }
      var p := claim.project;
      if projects[p].status.ProvisionFailed? {
        if (ProvisionFailed, Provisioning) !in ALLOWED_TRANSITIONS {
          return TransitionRefused;
        }
        projects := projects[p := projects[p].(status := Provisioning)];
      }
      if (projects[p].status, Ready) !in ALLOWED_TRANSITIONS {
        Rollback(before);
        return TransitionRefused;
      }
      projects := projects[p := projects[p].(status := Ready, updatedAt := now)];
      assert projects == WithStatus(old(projects), p, Ready, now);
      jobs := jobs[claim.job := jobs[claim.job].(step := Some(Published))];
      return PublishedReady;
    }

    method UpsertResource(p: ProjectId, generation: nat, row: Observed)
      modifies this
      ensures Stored() == Upsert(old(Stored()), p, generation, row)
    {
      var key := ResourceKey(p, generation, row.name);
      if key !in registry {
        registry := registry[key := Resource(row.kind, row.status)];
      } else {
        registry := registry[key := registry[key].(kind := row.kind)];
        registry := registry[key := registry[key].(status := row.status)];
      }
    }

    /** Rows of required services that were not observed become "absent", one after the other. */
    method MarkMissingServices(p: ProjectId, generation: nat, observed: seq<Observed>)
      modifies this
      ensures Stored() == MarkMissing(old(Stored()), p, generation, observed)
    {
      var persisted := set key | key in registry && MissingRow(Stored(), p, generation, observed, key);
      var done: set<ResourceKey> := {};
      while done != persisted
        invariant done <= persisted
        invariant Stored() == old(Stored()).(registry := registry) && registry.Keys == old(registry).Keys
        invariant forall key :: key in registry ==>
          registry[key] == if key in done then old(registry)[key].(status := "absent") else old(registry)[key]
        decreases persisted - done
      {
        assert persisted - done != {};
        var key :| key in persisted - done;
        registry := registry[key := registry[key].(status := "absent")];
        done := done + {key};
      }
    }

    // ---- API requests ----

    method Insert(j: JobId, job: Job)
      modifies this`jobs, this`keyIndex
      ensures jobs == old(jobs)[j := job] && keyIndex == old(keyIndex)[job.key := j]
    {
      jobs := jobs[j := job];
      keyIndex := keyIndex[job.key := j];
    }

    method CreateProjectOperation(name: string, slug: string, description: Option<string>, user: UserId, key: Key,
                                  newProject: ProjectId, newJob: JobId, now: Time) returns (reply: CreateReply)
      modifies this
      ensures (Stored(), reply)
           == CreateProject(old(Stored()), name, slug, description, user, key, newProject, newJob, now)
    {
      var fingerprint := CreateRequest(name, slug, description, user);
      var before := Stored();
      var conflict := newProject in projects || slug in slugIndex;
      if !conflict {
        projects := projects[newProject := Project(name, slug, Provisioning, 1, now)];
        slugIndex := slugIndex[slug := newProject];
        conflict := InsertConflicts(before, newProject, newJob, key);
        if !conflict {
          Insert(newJob, NewJob(newProject, Provision, CREATE_MAX_ATTEMPTS, key, fingerprint, user, now));
          audit := audit + [Requested("project.provision.requested", user, newProject, newJob)];
          return Created(newProject, newJob);
        }
      }
      Rollback(before);
      var existing := JobWithKey(before, key);
      if existing.None? {
        return if ProjectWithSlug(before, slug).Some? then DuplicateSlug else CreateFailed;
      }
      if jobs[existing.value].fingerprint != fingerprint {
        return KeyConflict;
      }
      return if jobs[existing.value].project in projects
             then Created(jobs[existing.value].project, existing.value) else CreateFailed;
    }

    method RetryProjectProvision(slug: string, failedJob: JobId, user: UserId, key: Key, newJob: JobId, now: Time,
                                 keyVisible: bool) returns (reply: Reply)
      modifies this
      ensures (Stored(), reply)
           == RetryProvision(old(Stored()), slug, failedJob, user, key, newJob, now, keyVisible)
    {
      var before := Stored();
      var found := ProjectWithSlug(before, slug);
      if found.None? || failedJob !in jobs || jobs[failedJob].project != found.value {
        return Refused(NotFound);
      }
      var p := found.value;
      var fingerprint := RetryRequest(user, failedJob, p);
      var replay := VisibleJob(before, key, p, keyVisible);
      if replay.Some? {
        return if SameRequest(jobs[replay.value], p, Provision, user, fingerprint)
               then Accepted(replay.value) else Refused(KeyReused);
      }
      if !Retryable(before, p, failedJob) {
        return Refused(NotRetryable);
      }
      projects := WithStatus(projects, p, Provisioning, now);
      if InsertConflicts(before, p, newJob, key) {
        Rollback(before);
        replay := JobWithKey(before, key);
        if replay.None? {
          return Refused(RetryConflict);
        }
        var j := replay.value;
        return if SameRequest(jobs[j], p, Provision, user, fingerprint) then Accepted(j) else Refused(KeyReused);
      }
      var attempts := if jobs[failedJob].maxAttempts != 0 then jobs[failedJob].maxAttempts else RETRY_MAX_ATTEMPTS;
      Insert(newJob, NewJob(p, Provision, attempts, key, fingerprint, user, now));
      audit := audit + [Requested("project.provision.retry_requested", user, p, newJob)];
      return Accepted(newJob);
    }

    method CreateReauthGrant(user: UserId, p: ProjectId, token: Token, now: Time, ttl: Time, check: ReauthCheck)
      returns (ok: bool)
      modifies this
      ensures (Stored(), ok) == IssueGrant(old(Stored()), user, p, token, now, ttl, check)
    {
      if !check.tokenValid {
        return false;
      }
      var refusal := ReauthRefusal(Stored(), p, check);
      if refusal.Some? {
        audit := audit + [ReauthRefused(RefusedActor(user, check), p, refusal.value)];
        return false;
      }
      if token in grants {
        return false;
      }
      grants := grants[token := Grant(user, DELETE_ACTION, p, now + ttl, None, now)];
      audit := audit + [Reauthenticated(user, p)];
      return true;
    }

    method RequestProjectDeletion(slug: string, confirmation: string, key: Key, token: Option<Token>, actor: UserId,
                                  newJob: JobId, now: Time, keyVisible: bool) returns (reply: Reply)
      modifies this
      ensures (Stored(), reply)
           == RequestDeletion(old(Stored()), slug, confirmation, key, token, actor, newJob, now, keyVisible)
    {
      hide FailureBoundary, QueueDeletion;
      var before := Stored();
      var found := ProjectWithSlug(before, slug);
      if found.None? {
        return Refused(NotFound);
      }
      var p := found.value;
      var fingerprint := DeleteRequest(actor, confirmation, p, slug);
      var existing := VisibleJob(before, key, p, keyVisible);
      if existing.Some? && SameRequest(jobs[existing.value], p, Delete, actor, fingerprint) {
        return Accepted(existing.value);
      }
      var status := projects[p].status;
      if status.Deleting? {
        return Refused(AlreadyDeleting);
      }
      if !(status.Ready? || status.ProvisionFailed? || status.DeletionFailed?) {
        return Refused(NotDeletable);
      }
      if confirmation != slug {
        return Refused(ConfirmationMismatch);
      }
      if existing.Some? {
        return Refused(KeyReused);
      }
      if !GrantValid(before, token, actor, p, now) {
        return Refused(InvalidGrant);
      }
      reply := QueueProjectDeletion(p, slug, confirmation, key, token.value, actor, newJob, now);
    }

    method QueueProjectDeletion(p: ProjectId, slug: string, confirmation: string, key: Key, token: Token,
                                actor: UserId, newJob: JobId, now: Time) returns (reply: Reply)
      requires p in projects && token in grants
      modifies this
      ensures (Stored(), reply) == QueueDeletion(old(Stored()), p, slug, confirmation, key, token, actor, newJob, now)
    {
      hide HasActive;
      var before := Stored();
      grants := grants[token := grants[token].(consumedAt := Some(now))];
      projects := WithStatus(projects, p, Deleting, now);
      if InsertConflicts(before, p, newJob, key) {
        Rollback(before);
        var replay := JobWithKey(before, key);
        if replay.None? {
          return Refused(DeletionFailedToQueue);
        }
        var job := jobs[replay.value];
        return if job.operation.Delete? && job.requestedBy == actor
                  && job.fingerprint == DeleteRequest(actor, confirmation, job.project, slug)
               then Accepted(replay.value) else Refused(KeyReused);
      }
      Insert(newJob, NewJob(p, Delete, DELETE_MAX_ATTEMPTS, key, DeleteRequest(actor, confirmation, p, slug), actor, now));
      spent := spent[token := newJob];
      audit := audit + [Requested("project.delete.requested", actor, p, newJob)];
      return Accepted(newJob);
    }
  }
}
