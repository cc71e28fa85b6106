/**
  The worker/job fabric: a lease queue with placement, retries and a stale
  sweep.  This module gives each statement's effect on the jobs table as a
  function and the invariant all of them keep.  `now` is the database clock.
 */
module Fabric {
  import opened Options

  type JobId = nat
  type WorkerId = nat
  type TenantId = nat
  type Time = int

  datatype Status = Pending | Claimed | Running | Done | Failed | Canceled

  datatype Spec = Spec(kind: string, payload: map<string, string>, priority: int,
                       affinity: Option<WorkerId>, req: set<string>, maxAttempts: int)

  datatype Job = Job(
    tenant: TenantId, spec: Spec, createdAt: Time,
    status: Status, claimedBy: Option<WorkerId>, expires: Option<Time>,
    attempt: nat, progress: string, result: Option<string>, lastError: Option<string>)
  {
    predicate InFlight() { status.Claimed? || status.Running? }
    predicate Active() { status.Pending? || InFlight() }
    predicate Over() { status.Done? || status.Failed? || status.Canceled? }
    predicate Expired(now: Time) { InFlight() && expires.Some? && expires.value < now }
    predicate HeldBy(worker: WorkerId) { InFlight() && claimedBy == Some(worker) }
  }

  type Jobs = map<JobId, Job>

  // ---------------------------------------------------------------- enqueue

  /** The partial unique indexes over jobs that are pending or in flight; a
      null column takes part in no conflict. */
  datatype Key = SyncKey(source: string, slot: string) | SourceKey(worker: WorkerId, source: string) | DreamKey(tenant: TenantId)

  function KeyOf(tenant: TenantId, spec: Spec): Option<Key> {
    if spec.kind == "data_source_sync" && "data_source_id" in spec.payload && "scheduled_for" in spec.payload then
      Some(SyncKey(spec.payload["data_source_id"], spec.payload["scheduled_for"]))
    else if spec.kind == "source_sync" && spec.affinity.Some? && "source" in spec.payload then
      Some(SourceKey(spec.affinity.value, spec.payload["source"]))
    else if spec.kind == "dreaming" then Some(DreamKey(tenant))
    else None
  }

  predicate KeyTaken(jobs: Jobs, key: Option<Key>) {
    key.Some? && exists j :: j in jobs && jobs[j].Active() && KeyOf(jobs[j].tenant, jobs[j].spec) == key
  }

  /** Two jobs that one of the partial unique indexes takes for the same work. */
  predicate Rivals(tenant: TenantId, a: Spec, other: TenantId, b: Spec) {
    || (a.kind == b.kind == "data_source_sync" && SameText(a, b, "data_source_id") && SameText(a, b, "scheduled_for"))
    || (a.kind == b.kind == "source_sync" && a.affinity.Some? && a.affinity == b.affinity && SameText(a, b, "source"))
    || (a.kind == b.kind == "dreaming" && tenant == other)
  }

  predicate SameText(a: Spec, b: Spec, field: string) {
    field in a.payload && field in b.payload && a.payload[field] == b.payload[field]
  }

  lemma RivalsMeans(tenant: TenantId, a: Spec, other: TenantId, b: Spec)
    ensures Rivals(tenant, a, other, b) <==> KeyOf(tenant, a).Some? && KeyOf(tenant, a) == KeyOf(other, b)
  {}

  function NewJob(tenant: TenantId, spec: Spec, now: Time): Job {
    Job(tenant, spec, now, Pending, None, None, 0, "", None, None)
  }

  // ---------------------------------------------------------------- claim

  datatype Claimant = Claimant(worker: WorkerId, tenant: Option<TenantId>, caps: set<string>, kinds: set<string>)

  predicate Placed(job: Job, who: Claimant) {
    && job.spec.kind in who.kinds
    && (who.tenant.None? || who.tenant == Some(job.tenant))
    && (job.spec.affinity.None? || job.spec.affinity == Some(who.worker))
    && job.spec.req <= who.caps
  }

  predicate Claimable(job: Job, now: Time) {
    job.status.Pending? || (job.Expired(now) && job.attempt < job.spec.maxAttempts)
  }

  predicate Eligible(job: Job, who: Claimant, now: Time) { Placed(job, who) && Claimable(job, now) }

  /** `ORDER BY (affinity = worker) DESC NULLS LAST, priority DESC, created_at`:
      `a` sorts strictly before `b`. */
  predicate Before(a: Job, b: Job, worker: WorkerId) {
    var pa, pb := a.spec.affinity == Some(worker), b.spec.affinity == Some(worker);
    if pa != pb then pa
    else if a.spec.priority != b.spec.priority then a.spec.priority > b.spec.priority
    else a.createdAt < b.createdAt
  }

  /** `j` may be the one row a claim returns when it skips the locked rows. */
  ghost predicate Picked(jobs: Jobs, locked: set<JobId>, who: Claimant, now: Time, j: JobId) {
    && j in jobs && j !in locked && Eligible(jobs[j], who, now)
    && forall k :: k in jobs && k !in locked && Eligible(jobs[k], who, now) ==> !Before(jobs[k], jobs[j], who.worker)
  }

  function ClaimRow(job: Job, worker: WorkerId, until: Time): Job {
    job.(status := Claimed, claimedBy := Some(worker), expires := Some(until), attempt := job.attempt + 1)
  }

  /** Who may be claimed, in terms of the columns: the placement fits, and the
      job is pending, or its lease has run out and it has attempts left. */
  lemma EligibleMeans(job: Job, who: Claimant, now: Time)
    ensures Eligible(job, who, now) <==>
      && job.spec.kind in who.kinds && (who.tenant == None || who.tenant == Some(job.tenant))
      && (job.spec.affinity == None || job.spec.affinity == Some(who.worker)) && job.spec.req <= who.caps
      && (job.status == Pending
          || (job.status in {Claimed, Running} && job.expires.Some? && job.expires.value < now
              && job.attempt < job.spec.maxAttempts))
  {}

  /** What a claim returns comes first: pinned jobs before others, then by
      priority, then by age. */
  lemma PickedIsFirst(jobs: Jobs, locked: set<JobId>, who: Claimant, now: Time, j: JobId, k: JobId)
    requires Picked(jobs, locked, who, now, j) && k in jobs && k !in locked && Eligible(jobs[k], who, now)
    ensures jobs[k].spec.affinity == Some(who.worker) ==> jobs[j].spec.affinity == Some(who.worker)
    ensures jobs[k].spec.affinity == jobs[j].spec.affinity ==>
      && jobs[k].spec.priority <= jobs[j].spec.priority
      && (jobs[k].spec.priority == jobs[j].spec.priority ==> jobs[j].createdAt <= jobs[k].createdAt)
  {
    assert !Before(jobs[k], jobs[j], who.worker);
  }

  /** A claim finds a row exactly when some unlocked row is eligible. */
  lemma ClaimFindsOne(jobs: Jobs, locked: set<JobId>, who: Claimant, now: Time)
    ensures (exists j :: Picked(jobs, locked, who, now, j))
      <==> exists j :: j in jobs && j !in locked && Eligible(jobs[j], who, now)
  {
    var pool := set j | j in jobs && j !in locked && Eligible(jobs[j], who, now);
    assert forall j :: j in jobs && j !in locked && Eligible(jobs[j], who, now) <==> j in pool;
    if pool != {} {
      var first := FirstOf(jobs, pool, who.worker);
      assert Picked(jobs, locked, who, now, first);
    }
  }

  lemma {:induction false} FirstOf(jobs: Jobs, pool: set<JobId>, worker: WorkerId) returns (first: JobId)
    requires pool != {} && pool <= jobs.Keys
    ensures first in pool && forall k :: k in pool ==> !Before(jobs[k], jobs[first], worker)
    decreases |pool|
  {
    var j :| j in pool;
    if pool == {j} {
      first := j;
    } else {
      var rest := pool - {j};
      assert pool == {j} + rest;
      var best := FirstOf(jobs, rest, worker);
      first := if Before(jobs[j], jobs[best], worker) then j else best;
    }
  }

  // ---------------------------------------------------------------- reports from a worker

  datatype Report = Progress(snapshot: string) | Complete(result: string) | FailOnce(error: string)
                  | FailForGood(error: string) | Extend(until: Time)

  function ReportRow(job: Job, report: Report): Job {
    match report
    case Progress(snapshot) =>
      job.(progress := snapshot, status := if job.status.Claimed? then Running else job.status)
    case Complete(result) => job.(status := Done, result := Some(result), expires := None)
    case FailOnce(error) =>
      if job.attempt >= job.spec.maxAttempts then
        job.(status := Failed, expires := None, lastError := Some(error))
      else
        job.(status := Pending, claimedBy := None, expires := None, lastError := Some(error))
    case FailForGood(error) => job.(status := Failed, expires := None, lastError := Some(error))
    case Extend(until) => job.(expires := Some(until))
  }

  /** Every report is guarded by `claimed_by` and an in-flight status. */
  predicate Effective(jobs: Jobs, j: JobId, worker: WorkerId) { j in jobs && jobs[j].HeldBy(worker) }

  function Reported(jobs: Jobs, j: JobId, worker: WorkerId, report: Report): Jobs {
    if Effective(jobs, j, worker) then jobs[j := ReportRow(jobs[j], report)] else jobs
  }

  // ---------------------------------------------------------------- sweep

  const STALE := " [recovered: stale lease]"
  const EXHAUSTED := " [failed: lease expired, attempts exhausted]"

  function Note(lastError: Option<string>, note: string): Option<string> {
    Some((if lastError.Some? then lastError.value else "") + note)
  }

  predicate Requeues(job: Job, now: Time) { job.Expired(now) && job.attempt < job.spec.maxAttempts }
  predicate Exhausts(job: Job, now: Time) { job.Expired(now) && job.attempt >= job.spec.maxAttempts }

  function RequeueRow(job: Job): Job {
    job.(status := Pending, claimedBy := None, expires := None, lastError := Note(job.lastError, STALE))
  }

  function ExhaustRow(job: Job): Job {
    job.(status := Failed, expires := None, lastError := Note(job.lastError, EXHAUSTED))
  }

  function Requeued(jobs: Jobs, now: Time): Jobs {
    map j | j in jobs :: if Requeues(jobs[j], now) then RequeueRow(jobs[j]) else jobs[j]
  }

  function ExhaustedJobs(jobs: Jobs, now: Time): Jobs {
    map j | j in jobs :: if Exhausts(jobs[j], now) then ExhaustRow(jobs[j]) else jobs[j]
  }

  /** The first statement of the sweep, column by column. */
  lemma RequeuedMeans(jobs: Jobs, now: Time, j: JobId)
    requires j in jobs
    ensures Requeued(jobs, now).Keys == jobs.Keys
    ensures jobs[j].status in {Claimed, Running} && jobs[j].expires.Some? && jobs[j].expires.value < now
            && jobs[j].attempt < jobs[j].spec.maxAttempts ==>
      Requeued(jobs, now)[j] == jobs[j].(status := Pending, claimedBy := None, expires := None, lastError :=
        Some((if jobs[j].lastError.Some? then jobs[j].lastError.value else "") + " [recovered: stale lease]"))
    ensures !(jobs[j].status in {Claimed, Running} && jobs[j].expires.Some? && jobs[j].expires.value < now
              && jobs[j].attempt < jobs[j].spec.maxAttempts) ==>
      Requeued(jobs, now)[j] == jobs[j]
  {}

  /** The second statement of the sweep, column by column. */
  lemma ExhaustedMeans(jobs: Jobs, now: Time, j: JobId)
    requires j in jobs
    ensures ExhaustedJobs(jobs, now).Keys == jobs.Keys
    ensures jobs[j].status in {Claimed, Running} && jobs[j].expires.Some? && jobs[j].expires.value < now
            && jobs[j].attempt >= jobs[j].spec.maxAttempts ==>
      ExhaustedJobs(jobs, now)[j] == jobs[j].(status := Failed, expires := None, lastError :=
        Some((if jobs[j].lastError.Some? then jobs[j].lastError.value else "") + " [failed: lease expired, attempts exhausted]"))
    ensures !(jobs[j].status in {Claimed, Running} && jobs[j].expires.Some? && jobs[j].expires.value < now
              && jobs[j].attempt >= jobs[j].spec.maxAttempts) ==>
      ExhaustedJobs(jobs, now)[j] == jobs[j]
  {}

  // ---------------------------------------------------------------- invariant

  /** A first claim does not look at the limit, so one attempt is always granted. */
  function Limit(spec: Spec): nat { if spec.maxAttempts >= 1 then spec.maxAttempts else 1 }

  /** In flight iff leased; in flight means claimed; pending means unowned and
      with attempts left; a result only on a finished job. */
  predicate JobOk(job: Job) {
    && (job.InFlight() <==> job.expires.Some?)
    && (job.InFlight() ==> job.claimedBy.Some? && job.attempt >= 1)
    && (job.status.Pending? ==> job.claimedBy.None?)
    && (job.result.Some? <==> job.status.Done?)
    && job.attempt <= Limit(job.spec) && (job.status.Pending? ==> job.attempt < Limit(job.spec))
  }

  ghost predicate JobsOk(jobs: Jobs) {
    && (forall j :: j in jobs ==> JobOk(jobs[j]))
    && (forall j, k {:trigger SameKey(jobs, j, k)} :: SameKey(jobs, j, k) ==> j == k)
  }

  /** Two active jobs that an idempotency index would not let coexist. */
  predicate SameKey(jobs: Jobs, j: JobId, k: JobId) {
    && j in jobs && k in jobs && jobs[j].Active() && jobs[k].Active()
    && KeyOf(jobs[j].tenant, jobs[j].spec).Some?
    && KeyOf(jobs[j].tenant, jobs[j].spec) == KeyOf(jobs[k].tenant, jobs[k].spec)
  }

  // ---------------------------------------------------------------- the transition system

  datatype Step =
    | Enqueue(id: JobId, tenant: TenantId, spec: Spec)
    | Claim(who: Claimant, until: Time, locked: set<JobId>, pick: JobId)
    | Tell(id: JobId, worker: WorkerId, report: Report)
    | SweepRequeue
    | SweepFail

  ghost predicate Possible(jobs: Jobs, now: Time, step: Step) {
    match step
    case Enqueue(id, _, _) => id !in jobs
    case Claim(who, _, locked, pick) => Picked(jobs, locked, who, now, pick)
    case Tell(_, _, _) => true
    case SweepRequeue => true
    case SweepFail => true
  }

  function After(jobs: Jobs, now: Time, step: Step): Jobs
    requires Possible(jobs, now, step)
  {
    match step
    case Enqueue(id, tenant, spec) =>
      if KeyTaken(jobs, KeyOf(tenant, spec)) then jobs else jobs[id := NewJob(tenant, spec, now)]
    case Claim(who, until, _, pick) => jobs[pick := ClaimRow(jobs[pick], who.worker, until)]
    case Tell(id, worker, report) => Reported(jobs, id, worker, report)
    case SweepRequeue => Requeued(jobs, now)
    case SweepFail => ExhaustedJobs(jobs, now)
  }

  /** What one step may do to one job. */
  predicate Moves(before: Job, after: Job) {
    && after.tenant == before.tenant && after.spec == before.spec && after.createdAt == before.createdAt
    && (before.Over() ==> after == before)
    && (after.Active() ==> before.Active())
    && (JobOk(before) ==> JobOk(after))
  }

  lemma StepMoves(jobs: Jobs, now: Time, step: Step, j: JobId)
    requires Possible(jobs, now, step) && j in jobs
    ensures j in After(jobs, now, step) && Moves(jobs[j], After(jobs, now, step)[j])
  {}

  /** Every step keeps the lease invariant and the idempotency indexes, and
      leaves finished jobs exactly as they are. */
  lemma StepKeepsJobs(jobs: Jobs, now: Time, step: Step)
    requires JobsOk(jobs) && Possible(jobs, now, step)
    ensures JobsOk(After(jobs, now, step))
    ensures forall j :: j in jobs ==> j in After(jobs, now, step)
    ensures forall j :: j in jobs && jobs[j].Over() ==> After(jobs, now, step)[j] == jobs[j]
  {
    var jobs' := After(jobs, now, step);
    forall j | j in jobs' ensures JobOk(jobs'[j]) {
      if j in jobs { StepMoves(jobs, now, step, j); }
    }
    forall j | j in jobs ensures j in jobs' && (jobs[j].Over() ==> jobs'[j] == jobs[j]) {
      StepMoves(jobs, now, step, j);
    }
    forall j, k | SameKey(jobs', j, k) ensures j == k {
      if j in jobs { StepMoves(jobs, now, step, j); }
      if k in jobs { StepMoves(jobs, now, step, k); }
      assert j in jobs && k in jobs ==> SameKey(jobs, j, k);
    }
  }

  // ---------------------------------------------------------------- at most twice the limit of moves

  /** What is left of a job's budget of claims, reclaims, requeues and ends. */
  function Budget(job: Job): int {
    2 * (Limit(job.spec) - job.attempt) + (if job.InFlight() then 1 else 0)
  }

  /** A claim, reclaim, requeue or end: anything that changes who may work on
      the job, as opposed to a progress report or a longer lease. */
  predicate Counts(before: Job, after: Job) {
    before.attempt != after.attempt || before.InFlight() != after.InFlight()
  }

  lemma BudgetShrinks(jobs: Jobs, now: Time, step: Step, j: JobId)
    requires JobsOk(jobs) && Possible(jobs, now, step) && j in jobs
    ensures j in After(jobs, now, step)
    ensures var a, b := jobs[j], After(jobs, now, step)[j];
      && Budget(b) >= 0 && (if Counts(a, b) then Budget(b) < Budget(a) else Budget(b) == Budget(a))
  {
    StepMoves(jobs, now, step, j);
  }
}
