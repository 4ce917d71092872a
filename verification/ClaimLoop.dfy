/** The claim loop as a whole: which jobs it fails on the way and which one it returns. */
module ClaimLoop {
  import opened Options
  import opened Rows
  import opened LifecycleQueue
  import opened StoreInvariant
  import opened WorkerSteps

  /** A running job out of attempts: the loop terminates it instead of claiming it. */
  predicate Exhausted(job: Job) {
    job.status.Running? && job.attempt >= job.maxAttempts
  }

  function ExhaustedJobs(db: Db): set<JobId> {
    set j | j in db.jobs && Exhausted(db.jobs[j])
  }

  lemma EachTurnTerminatesOne(db: Db, worker: WorkerId, now: Time, lease: Time, skip: set<JobId>)
    ensures var (next, outcome) := ClaimOnce(db, worker, now, lease, skip);
            outcome.ExpiredFinally? ==>
              outcome.job in ExhaustedJobs(db) && ExhaustedJobs(next) == ExhaustedJobs(db) - {outcome.job}
  {
    hide FailJob, FirstDue;
    SelectDueBasics(db, now, skip);
    var (next, outcome) := ClaimOnce(db, worker, now, lease, skip);
    if outcome.ExpiredFinally? {
      FailJobShape(db, outcome.job, now, LEASE_EXPIRED_CODE);
    }
  }

  /**
   All turns of the loop from turn `turn` on; `skips` are, turn by turn, the rows that other
   transactions hold locked.
  */
  function Claiming(db: Db, worker: WorkerId, now: Time, lease: Time, skips: nat -> set<JobId>, turn: nat)
    : (Db, ClaimOutcome)
    decreases |ExhaustedJobs(db)|
  {
    EachTurnTerminatesOne(db, worker, now, lease, skips(turn));
    var (next, outcome) := ClaimOnce(db, worker, now, lease, skips(turn));
    if outcome.ExpiredFinally? then Claiming(next, worker, now, lease, skips, turn + 1) else (next, outcome)
  }

  /** The number of the turn in which the loop ends. */
  function LastTurn(db: Db, worker: WorkerId, now: Time, lease: Time, skips: nat -> set<JobId>, turn: nat): (r: nat)
    ensures turn <= r
    decreases |ExhaustedJobs(db)|
  {
    EachTurnTerminatesOne(db, worker, now, lease, skips(turn));
    var (next, outcome) := ClaimOnce(db, worker, now, lease, skips(turn));
    if outcome.ExpiredFinally? then LastTurn(next, worker, now, lease, skips, turn + 1) else turn
  }

  /** The row stays as it is, or the job was out of attempts, its row free in some turn, and it is failed. */
  ghost predicate KeptOrFailed(db: Db, next: Db, now: Time, skips: nat -> set<JobId>, turn: nat, last: nat, k: JobId) {
    && k in db.jobs && k in next.jobs
    && (|| next.jobs[k] == db.jobs[k]
        || (Exhausted(db.jobs[k]) && next.jobs[k].status.Failed?
            && exists n :: turn <= n < last && Eligible(db, now, skips(n), k)))
  }

  /** What the loop leaves behind when it ends in turn `last`. */
  ghost predicate LoopResult(db: Db, next: Db, outcome: ClaimOutcome, worker: WorkerId, now: Time, lease: Time,
                             skips: nat -> set<JobId>, turn: nat, last: nat)
  {
    && (outcome.Claimed? || outcome.NothingDue?)
    && (outcome.Claimed? ==>
          var j := outcome.claim.job;
          && j in db.jobs && Eligible(db, now, skips(last), j) && !Exhausted(db.jobs[j])
          && j in next.jobs && next.jobs[j] == Leased(db.jobs[j], worker, now, lease)
          && (forall k :: k in db.jobs && k != j ==>
                && KeptOrFailed(db, next, now, skips, turn, last, k)
                && (Eligible(db, now, skips(last), k) && !Precedes(db.jobs[j], j, db.jobs[k], k) ==>
                      next.jobs[k].status.Failed? && Exhausted(db.jobs[k]))))
    && (outcome.NothingDue? ==>
          forall k :: k in db.jobs ==>
            && KeptOrFailed(db, next, now, skips, turn, last, k)
            && (Eligible(db, now, skips(last), k) ==> next.jobs[k].status.Failed? && Exhausted(db.jobs[k])))
  }

  /** A turn that ends the loop. */
  lemma EndingTurn(db: Db, worker: WorkerId, now: Time, lease: Time, skips: nat -> set<JobId>, turn: nat)
    requires StoreOk(db) && worker != "" && lease > 0.0
    ensures var (next, outcome) := ClaimOnce(db, worker, now, lease, skips(turn));
            !outcome.ExpiredFinally? ==> LoopResult(db, next, outcome, worker, now, lease, skips, turn, turn)
  {
    hide StoreOk, FailJob, Precedes, Due;
    var skip := skips(turn);
    ClaimKeeps(db, worker, now, lease, skip);
    var selected := SelectDue(db, now, skip);
    if selected.Some? {
      FirstIsLeast(db, now, skip, selected.value);
      assert Eligible(db, now, skip, selected.value);
    }
  }

  /** A turn that failed the exhausted job `f`, followed by the rest of the loop. */
  lemma EarlierTurn(db: Db, mid: Db, f: JobId, next: Db, outcome: ClaimOutcome, worker: WorkerId, now: Time,
                    lease: Time, skips: nat -> set<JobId>, turn: nat, last: nat)
    requires turn < last
    requires f in db.jobs && FirstDue(db, now, skips(turn), f) && Exhausted(db.jobs[f])
    requires f in mid.jobs && mid.jobs == db.jobs[f := mid.jobs[f]] && mid.jobs[f].status.Failed?
    requires LoopResult(mid, next, outcome, worker, now, lease, skips, turn + 1, last)
    ensures LoopResult(db, next, outcome, worker, now, lease, skips, turn, last)
  {
    assert Eligible(db, now, skips(turn), f);
    assert forall skip :: !Eligible(mid, now, skip, f);
    hide Precedes, FirstDue;
    forall k | k in db.jobs && (outcome.Claimed? ==> k != outcome.claim.job)
      ensures KeptOrFailed(db, next, now, skips, turn, last, k)
      ensures k == f ==> next.jobs[k].status.Failed?
    {
      RestOfLoop(db, mid, f, next, now, skips, turn, last, k);
    }
    assert forall k, skip :: k in db.jobs && k != f ==> (Eligible(db, now, skip, k) <==> Eligible(mid, now, skip, k));
  }

  lemma RestOfLoop(db: Db, mid: Db, f: JobId, next: Db, now: Time, skips: nat -> set<JobId>, turn: nat, last: nat,
                   k: JobId)
    requires turn < last && f in db.jobs && Eligible(db, now, skips(turn), f) && Exhausted(db.jobs[f])
    requires f in mid.jobs && mid.jobs == db.jobs[f := mid.jobs[f]] && mid.jobs[f].status.Failed?
    requires KeptOrFailed(mid, next, now, skips, turn + 1, last, k)
    ensures KeptOrFailed(db, next, now, skips, turn, last, k)
    ensures k == f ==> next.jobs[k].status.Failed?
  {
    if k != f && next.jobs[k] != mid.jobs[k] {
      var n :| turn + 1 <= n < last && Eligible(mid, now, skips(n), k);
      assert Eligible(db, now, skips(n), k);
    }
  }

  /**
   The loop claims the first due, unlocked job that has an attempt left: of the jobs due and
   unlocked in the last turn, those before it were exhausted and are failed. No other job
   changes but exhausted ones that were due and unlocked in an earlier turn, which are failed.
   When it finds nothing, every job due and unlocked in the last turn was exhausted and is failed.
  */
  lemma {:induction false} ClaimsFirstWithAttempts(db: Db, worker: WorkerId, now: Time, lease: Time,
                                                   skips: nat -> set<JobId>, turn: nat)
    requires StoreOk(db) && worker != "" && lease > 0.0
    ensures var (next, outcome) := Claiming(db, worker, now, lease, skips, turn);
            LoopResult(db, next, outcome, worker, now, lease, skips, turn,
                       LastTurn(db, worker, now, lease, skips, turn))
    decreases |ExhaustedJobs(db)|
  {
    hide StoreOk, LoopResult, FailJob, FirstDue, Due, ExhaustedJobs;
    var skip := skips(turn);
    EachTurnTerminatesOne(db, worker, now, lease, skip);
    ClaimKeeps(db, worker, now, lease, skip);
    EndingTurn(db, worker, now, lease, skips, turn);
    var (mid, outcome) := ClaimOnce(db, worker, now, lease, skip);
    if outcome.ExpiredFinally? {
      FailJobShape(db, outcome.job, now, LEASE_EXPIRED_CODE);
      ClaimsFirstWithAttempts(mid, worker, now, lease, skips, turn + 1);
      var (next, result) := Claiming(mid, worker, now, lease, skips, turn + 1);
      var last := LastTurn(mid, worker, now, lease, skips, turn + 1);
      EarlierTurn(db, mid, outcome.job, next, result, worker, now, lease, skips, turn, last);
    }
  }

  lemma FirstIsLeast(db: Db, now: Time, skip: set<JobId>, j: JobId)
    requires j in db.jobs && FirstDue(db, now, skip, j)
    ensures forall k :: k in db.jobs && Eligible(db, now, skip, k) ==> Precedes(db.jobs[j], j, db.jobs[k], k)
  {
  }
}
