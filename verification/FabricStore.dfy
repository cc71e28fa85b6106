/**
  The job half of `CatalogDb` as an object over the jobs table: each method is
  one guarded statement.  The database clock and fresh row ids are parameters.
 */
module FabricStore {
  import opened Options
  import F = Fabric

  class FabricStore {
    var jobs: F.Jobs

    ghost predicate Valid() reads this { F.JobsOk(jobs) }

    constructor ()
      ensures Valid() && jobs == map[]
    {
      jobs := map[];
    }

    /** `ON CONFLICT DO NOTHING`: nothing is inserted when an equivalent job is
        pending or in flight. */
    method EnqueueJob(id: F.JobId, tenant: F.TenantId, spec: F.Spec, now: F.Time) returns (r: Option<F.JobId>)
      requires Valid() && id !in jobs
      modifies this
      ensures Valid()
      ensures r == (if F.KeyTaken(old(jobs), F.KeyOf(tenant, spec)) then None else Some(id))
      ensures jobs == F.After(old(jobs), now, F.Enqueue(id, tenant, spec))
      ensures r.Some? ==>
        jobs == old(jobs)[id := F.Job(tenant, spec, now, F.Pending, None, None, 0, "", None, None)]
      ensures r.None? ==> jobs == old(jobs)
      ensures r.None? <==> exists j ::
        (j in old(jobs) && old(jobs)[j].status in {F.Pending, F.Claimed, F.Running}
         && F.Rivals(tenant, spec, old(jobs)[j].tenant, old(jobs)[j].spec))
    {
      F.StepKeepsJobs(jobs, now, F.Enqueue(id, tenant, spec));
      forall j | j in jobs { F.RivalsMeans(tenant, spec, jobs[j].tenant, jobs[j].spec); }
      var key := F.KeyOf(tenant, spec);
      if exists j :: j in jobs && jobs[j].Active() && key.Some? && F.KeyOf(jobs[j].tenant, jobs[j].spec) == key {
        r := None;
      } else {
        jobs := jobs[id := F.Job(tenant, spec, now, F.Pending, None, None, 0, "", None, None)];
        r := Some(id);
      }
    }

    /** One row at most: the best eligible row no other claim holds locked. */
    method ClaimJob(who: F.Claimant, leaseSecs: int, now: F.Time, locked: set<F.JobId>) returns (r: Option<F.JobId>)
      requires Valid()
      modifies this
      ensures Valid()
      ensures r.None? ==> jobs == old(jobs) && forall j :: j in jobs && j !in locked ==> !F.Eligible(jobs[j], who, now)
      ensures r.Some? ==> F.Picked(old(jobs), locked, who, now, r.value)
      ensures r.Some? ==> jobs == F.After(old(jobs), now, F.Claim(who, now + leaseSecs, locked, r.value))
      ensures r.Some? ==>
        && r.value in old(jobs) && r.value !in locked
        && var job := old(jobs)[r.value];
        && job.spec.kind in who.kinds && (who.tenant == None || who.tenant == Some(job.tenant))
        && (job.spec.affinity == None || job.spec.affinity == Some(who.worker)) && job.spec.req <= who.caps
        && (job.status == F.Pending
            || (job.status in {F.Claimed, F.Running} && job.expires.Some? && job.expires.value < now
                && job.attempt < job.spec.maxAttempts))
        && jobs == old(jobs)[r.value := job.(status := F.Claimed, claimedBy := Some(who.worker),
                                             expires := Some(now + leaseSecs), attempt := job.attempt + 1)]
      ensures r.None? ==> forall j ::
        (j in jobs && j !in locked && jobs[j].spec.kind in who.kinds
         && (who.tenant == None || who.tenant == Some(jobs[j].tenant))
         && (jobs[j].spec.affinity == None || jobs[j].spec.affinity == Some(who.worker)) && jobs[j].spec.req <= who.caps) ==>
        && jobs[j].status != F.Pending
        && (jobs[j].status in {F.Claimed, F.Running} && jobs[j].expires.Some? && jobs[j].expires.value < now ==>
              jobs[j].attempt >= jobs[j].spec.maxAttempts)
    {
      r := FindBest(who, now, locked);
      forall j | j in jobs { F.EligibleMeans(jobs[j], who, now); }
      if r.Some? {
        F.StepKeepsJobs(jobs, now, F.Claim(who, now + leaseSecs, locked, r.value));
        var job := jobs[r.value];
        jobs := jobs[r.value := job.(status := F.Claimed, claimedBy := Some(who.worker),
                                     expires := Some(now + leaseSecs), attempt := job.attempt + 1)];
      }
    }

    /** The inner `SELECT ... FOR UPDATE SKIP LOCKED`. */
    method FindBest(who: F.Claimant, now: F.Time, locked: set<F.JobId>) returns (r: Option<F.JobId>)
      ensures r.None? ==> forall j :: j in jobs && j !in locked ==> !F.Eligible(jobs[j], who, now)
      ensures r.Some? ==> F.Picked(jobs, locked, who, now, r.value)
    {
      r := None;
      var rest := set j | j in jobs && j !in locked;
      while rest != {}
        invariant rest <= set j | j in jobs && j !in locked
        invariant r.Some? ==> r.value in jobs && r.value !in locked && F.Eligible(jobs[r.value], who, now)
        invariant forall k :: k in jobs && k !in locked && k !in rest && F.Eligible(jobs[k], who, now) ==>
                    r.Some? && !F.Before(jobs[k], jobs[r.value], who.worker)
        decreases |rest|
      {
        var j :| j in rest;
        rest := rest - {j};
        if F.Eligible(jobs[j], who, now) && (r.None? || F.Before(jobs[j], jobs[r.value], who.worker)) {
          r := Some(j);
        }
      }
    }

    method JobProgress(id: F.JobId, worker: F.WorkerId, snapshot: string) returns (took: bool)
      requires Valid()
      modifies this
      ensures Valid()
      ensures took == F.Effective(old(jobs), id, worker)
      ensures jobs == F.Reported(old(jobs), id, worker, F.Progress(snapshot))
      ensures took <==>
        id in old(jobs) && old(jobs)[id].claimedBy == Some(worker) && old(jobs)[id].status in {F.Claimed, F.Running}
      ensures took ==> jobs == old(jobs)[id := old(jobs)[id].(progress := snapshot, status := F.Running)]
      ensures !took ==> jobs == old(jobs)
    {
      F.StepKeepsJobs(jobs, 0, F.Tell(id, worker, F.Progress(snapshot)));
      took := id in jobs && jobs[id].claimedBy == Some(worker) && jobs[id].status in {F.Claimed, F.Running};
      if took {
        jobs := jobs[id := jobs[id].(progress := snapshot, status := F.Running)];
      }
    }

    method CompleteJob(id: F.JobId, worker: F.WorkerId, result: string) returns (took: bool)
      requires Valid()
      modifies this
      ensures Valid()
      ensures took == F.Effective(old(jobs), id, worker)
      ensures jobs == F.Reported(old(jobs), id, worker, F.Complete(result))
      ensures took <==>
        id in old(jobs) && old(jobs)[id].claimedBy == Some(worker) && old(jobs)[id].status in {F.Claimed, F.Running}
      ensures took ==> jobs == old(jobs)[id := old(jobs)[id].(status := F.Done, result := Some(result), expires := None)]
      ensures took ==> old(jobs)[id].result.None?
      ensures !took ==> jobs == old(jobs)
    {
      F.StepKeepsJobs(jobs, 0, F.Tell(id, worker, F.Complete(result)));
      took := id in jobs && jobs[id].claimedBy == Some(worker) && jobs[id].status in {F.Claimed, F.Running};
      if took {
        assert F.JobOk(jobs[id]);
        jobs := jobs[id := jobs[id].(status := F.Done, result := Some(result), expires := None)];
      }
    }

    method FailJob(id: F.JobId, worker: F.WorkerId, error: string) returns (took: bool)
      requires Valid()
      modifies this
      ensures Valid()
      ensures took == F.Effective(old(jobs), id, worker)
      ensures jobs == F.Reported(old(jobs), id, worker, F.FailOnce(error))
      ensures took <==>
        id in old(jobs) && old(jobs)[id].claimedBy == Some(worker) && old(jobs)[id].status in {F.Claimed, F.Running}
      ensures took && old(jobs)[id].attempt >= old(jobs)[id].spec.maxAttempts ==>
        jobs == old(jobs)[id := old(jobs)[id].(status := F.Failed, expires := None, lastError := Some(error))]
      ensures took && old(jobs)[id].attempt < old(jobs)[id].spec.maxAttempts ==>
        jobs == old(jobs)[id := old(jobs)[id].(status := F.Pending, claimedBy := None, expires := None, lastError := Some(error))]
      ensures !took ==> jobs == old(jobs)
    {
      F.StepKeepsJobs(jobs, 0, F.Tell(id, worker, F.FailOnce(error)));
      took := id in jobs && jobs[id].claimedBy == Some(worker) && jobs[id].status in {F.Claimed, F.Running};
      if took {
        var job := jobs[id].(expires := None, lastError := Some(error));
        if job.attempt >= job.spec.maxAttempts {
          jobs := jobs[id := job.(status := F.Failed)];
        } else {
          jobs := jobs[id := job.(status := F.Pending, claimedBy := None)];
        }
      }
    }

    method FailJobTerminal(id: F.JobId, worker: F.WorkerId, error: string) returns (took: bool)
      requires Valid()
      modifies this
      ensures Valid()
      ensures took == F.Effective(old(jobs), id, worker)
      ensures jobs == F.Reported(old(jobs), id, worker, F.FailForGood(error))
      ensures took <==>
        id in old(jobs) && old(jobs)[id].claimedBy == Some(worker) && old(jobs)[id].status in {F.Claimed, F.Running}
      ensures took ==> jobs == old(jobs)[id := old(jobs)[id].(status := F.Failed, expires := None, lastError := Some(error))]
      ensures !took ==> jobs == old(jobs)
    {
      F.StepKeepsJobs(jobs, 0, F.Tell(id, worker, F.FailForGood(error)));
      took := id in jobs && jobs[id].claimedBy == Some(worker) && jobs[id].status in {F.Claimed, F.Running};
      if took {
        jobs := jobs[id := jobs[id].(status := F.Failed, expires := None, lastError := Some(error))];
      }
    }

    method ExtendLease(id: F.JobId, worker: F.WorkerId, leaseSecs: int, now: F.Time) returns (took: bool)
      requires Valid()
      modifies this
      ensures Valid()
      ensures took == F.Effective(old(jobs), id, worker)
      ensures jobs == F.Reported(old(jobs), id, worker, F.Extend(now + leaseSecs))
      ensures took <==>
        id in old(jobs) && old(jobs)[id].claimedBy == Some(worker) && old(jobs)[id].status in {F.Claimed, F.Running}
      ensures took ==> jobs == old(jobs)[id := old(jobs)[id].(expires := Some(now + leaseSecs))]
      ensures !took ==> jobs == old(jobs)
    {
      F.StepKeepsJobs(jobs, now, F.Tell(id, worker, F.Extend(now + leaseSecs)));
      took := id in jobs && jobs[id].claimedBy == Some(worker) && jobs[id].status in {F.Claimed, F.Running};
      if took {
        jobs := jobs[id := jobs[id].(expires := Some(now + leaseSecs))];
      }
    }

    /** The first statement of the sweep. */
    method RequeueStale(now: F.Time) returns (requeued: nat)
      requires Valid()
      modifies this
      ensures Valid()
      ensures jobs == F.Requeued(old(jobs), now)
      ensures requeued == |set j | j in old(jobs) && F.Requeues(old(jobs)[j], now)|
    {
      F.StepKeepsJobs(jobs, now, F.SweepRequeue);
      var stale := set j | j in jobs && jobs[j].Expired(now) && jobs[j].attempt < jobs[j].spec.maxAttempts;
      assert stale == set j | j in old(jobs) && F.Requeues(old(jobs)[j], now);
      requeued := |stale|;
      jobs := map j | j in jobs :: if j !in stale then jobs[j]
        else jobs[j].(status := F.Pending, claimedBy := None, expires := None, lastError := F.Note(jobs[j].lastError, F.STALE));
      assert jobs == F.Requeued(old(jobs), now);
    }

    /** The second statement of the sweep. */
    method FailExhausted(now: F.Time) returns (failed: nat)
      requires Valid()
      modifies this
      ensures Valid()
      ensures jobs == F.ExhaustedJobs(old(jobs), now)
      ensures failed == |set j | j in old(jobs) && F.Exhausts(old(jobs)[j], now)|
    {
      F.StepKeepsJobs(jobs, now, F.SweepFail);
      var spent := set j | j in jobs && jobs[j].Expired(now) && jobs[j].attempt >= jobs[j].spec.maxAttempts;
      assert spent == set j | j in old(jobs) && F.Exhausts(old(jobs)[j], now);
      failed := |spent|;
      jobs := map j | j in jobs :: if j !in spent then jobs[j]
        else jobs[j].(status := F.Failed, expires := None, lastError := F.Note(jobs[j].lastError, F.EXHAUSTED));
      assert jobs == F.ExhaustedJobs(old(jobs), now);
    }

    /** Two statements, each with its own clock reading.  Undisturbed, they
        leave no lease that had run out when the sweep began. */
    method SweepStale(now: F.Time, later: F.Time) returns (requeued: nat, failed: nat)
      requires Valid() && now <= later
      modifies this
      ensures Valid()
      ensures jobs == F.ExhaustedJobs(F.Requeued(old(jobs), now), later)
      ensures forall j :: j in jobs ==> !jobs[j].Expired(now)
    {
      requeued := RequeueStale(now);
      failed := FailExhausted(later);
    }
  }
}
