/**
  Whole runs of the job fabric: any number of runner loops, each executing the
  claims it won, with reports that may come long after the lease was lost.

  A runner presents its worker id and nothing else, and several loops of one
  process share an id, so the fence around a job is per worker, not per claim.
 */
module FabricRuns {
  import opened Options
  import opened Fabric

  /** One execution of a claimed job by some runner loop of `worker`. */
  datatype Exec = Exec(worker: WorkerId, job: JobId, attempt: nat)

  /** `live` are the executions still running, `claims` every claim ever won. */
  datatype Sys = Sys(jobs: Jobs, now: Time, live: set<Exec>, claims: set<Exec>)

  const Start := Sys(map[], 0, {}, {})

  datatype Act =
    | Tick(elapsed: nat)
    | Add(id: JobId, tenant: TenantId, spec: Spec)
    | Take(who: Claimant, until: Time, locked: set<JobId>, pick: JobId)
    | Send(exec: Exec, report: Report)
    | Crash(exec: Exec)
    | Requeue
    | Exhaust

  function StepOf(a: Act): Option<Step> {
    match a
    case Tick(_) => None
    case Add(id, tenant, spec) => Some(Enqueue(id, tenant, spec))
    case Take(who, until, locked, pick) => Some(Claim(who, until, locked, pick))
    case Send(exec, report) => Some(Tell(exec.job, exec.worker, report))
    case Crash(_) => None
    case Requeue => Some(SweepRequeue)
    case Exhaust => Some(SweepFail)
  }

  ghost predicate Can(s: Sys, a: Act) {
    && (StepOf(a).Some? ==> Possible(s.jobs, s.now, StepOf(a).value))
    && (a.Send? ==> a.exec in s.live)
    && (a.Crash? ==> a.exec in s.live)
  }

  function JobsAfter(s: Sys, a: Act): Jobs
    requires Can(s, a)
  {
    if StepOf(a).Some? then After(s.jobs, s.now, StepOf(a).value) else s.jobs
  }

  /** An execution ends when it reports an outcome or dies. */
  function LiveAfter(s: Sys, a: Act): set<Exec>
    requires Can(s, a)
  {
    match a
    case Take(who, _, _, pick) => s.live + {Exec(who.worker, pick, s.jobs[pick].attempt + 1)}
    case Send(exec, report) => if report.Progress? || report.Extend? then s.live else s.live - {exec}
    case Crash(exec) => s.live - {exec}
    case Tick(_) => s.live
    case Add(_, _, _) => s.live
    case Requeue => s.live
    case Exhaust => s.live
  }

  function Do(s: Sys, a: Act): Sys
    requires Can(s, a)
  {
    Sys(JobsAfter(s, a), if a.Tick? then s.now + a.elapsed else s.now, LiveAfter(s, a),
        if a.Take? then s.claims + {Exec(a.who.worker, a.pick, s.jobs[a.pick].attempt + 1)} else s.claims)
  }

  // ---------------------------------------------------------------- the latest claimant

  /** The claims of a job carry the attempt numbers 1 up to its attempt count,
      each once, and a job in flight is owned by the one with the last number. */
  ghost predicate ClaimsOk(s: Sys) {
    && (forall e :: e in s.claims ==> e.job in s.jobs && 1 <= e.attempt <= s.jobs[e.job].attempt)
    && (forall e, f :: e in s.claims && f in s.claims && e.job == f.job && e.attempt == f.attempt ==> e == f)
    && (forall j {:trigger s.jobs[j]} :: j in s.jobs && s.jobs[j].InFlight() && s.jobs[j].claimedBy.Some? ==>
          Exec(s.jobs[j].claimedBy.value, j, s.jobs[j].attempt) in s.claims)
    && s.live <= s.claims
  }

  ghost predicate Inv(s: Sys) { JobsOk(s.jobs) && ClaimsOk(s) }

  lemma JobAfter(s: Sys, a: Act, j: JobId)
    requires Inv(s) && Can(s, a) && j in s.jobs
    ensures var s' := Do(s, a);
      && j in s'.jobs && Moves(s.jobs[j], s'.jobs[j]) && JobOk(s'.jobs[j])
      && s'.jobs[j].attempt == s.jobs[j].attempt + (if a.Take? && a.pick == j then 1 else 0)
      && (!(a.Take? && a.pick == j) ==>
            && (s'.jobs[j].InFlight() ==> s.jobs[j].InFlight())
            && (s'.jobs[j].InFlight() ==> s'.jobs[j].claimedBy == s.jobs[j].claimedBy))
      && (a.Take? && a.pick == j ==> s'.jobs[j] == ClaimRow(s.jobs[j], a.who.worker, a.until))
  {
    if StepOf(a).Some? { StepMoves(s.jobs, s.now, StepOf(a).value, j); }
  }

  lemma NewJobAfter(s: Sys, a: Act, j: JobId)
    requires Inv(s) && Can(s, a) && j !in s.jobs && j in Do(s, a).jobs
    ensures a.Add? && a.id == j && Do(s, a).jobs[j] == NewJob(a.tenant, a.spec, s.now)
  {}

  lemma StepKeeps(s: Sys, a: Act)
    requires Inv(s) && Can(s, a)
    ensures Inv(Do(s, a))
  {
    if StepOf(a).Some? { StepKeepsJobs(s.jobs, s.now, StepOf(a).value); }
    StepNumbersClaims(s, a, Do(s, a));
    StepKeepsOwners(s, a, Do(s, a));
  }

  lemma StepNumbersClaims(s: Sys, a: Act, s': Sys)
    requires Inv(s) && Can(s, a) && s' == Do(s, a)
    ensures forall e :: e in s'.claims ==> e.job in s'.jobs && 1 <= e.attempt <= s'.jobs[e.job].attempt
    ensures forall e, f :: e in s'.claims && f in s'.claims && e.job == f.job && e.attempt == f.attempt ==> e == f
    ensures s'.live <= s'.claims
  {
    forall e | e in s'.claims ensures e.job in s'.jobs && 1 <= e.attempt <= s'.jobs[e.job].attempt {
      if e in s.claims { JobAfter(s, a, e.job); } else { JobAfter(s, a, a.pick); }
    }
  }

  lemma StepKeepsOwners(s: Sys, a: Act, s': Sys)
    requires Inv(s) && Can(s, a) && s' == Do(s, a)
    ensures forall j {:trigger s'.jobs[j]} :: j in s'.jobs && s'.jobs[j].InFlight() && s'.jobs[j].claimedBy.Some? ==>
              Exec(s'.jobs[j].claimedBy.value, j, s'.jobs[j].attempt) in s'.claims
  {
    forall j | j in s'.jobs && s'.jobs[j].InFlight() && s'.jobs[j].claimedBy.Some?
      ensures Exec(s'.jobs[j].claimedBy.value, j, s'.jobs[j].attempt) in s'.claims
    {
      if j in s.jobs { JobAfter(s, a, j); } else { NewJobAfter(s, a, j); }
    }
  }

  // ---------------------------------------------------------------- runs

  ghost predicate Runs(s: Sys, trace: seq<Act>, s': Sys)
    decreases |trace|
  {
    if trace == [] then s' == s else Can(s, trace[0]) && Runs(Do(s, trace[0]), trace[1..], s')
  }

  lemma {:induction false} RunKeeps(s: Sys, trace: seq<Act>, s': Sys)
    requires Inv(s) && Runs(s, trace, s')
    ensures Inv(s') && s.now <= s'.now
    ensures forall j :: j in s.jobs ==> j in s'.jobs && s.jobs[j].attempt <= s'.jobs[j].attempt
    ensures forall j :: j in s.jobs && s.jobs[j].Over() ==> s'.jobs[j] == s.jobs[j]
    decreases |trace|
  {
    if trace != [] {
      StepKeeps(s, trace[0]);
      forall j | j in s.jobs ensures j in Do(s, trace[0]).jobs && Moves(s.jobs[j], Do(s, trace[0]).jobs[j])
                                  && s.jobs[j].attempt <= Do(s, trace[0]).jobs[j].attempt
      { JobAfter(s, trace[0], j); }
      RunKeeps(Do(s, trace[0]), trace[1..], s');
    }
  }

  /** The lease invariant in every reachable state; and an effective report
      comes from the worker of the job's latest claim. */
  lemma LeasesAreSound(trace: seq<Act>, s: Sys)
    requires Runs(Start, trace, s)
    ensures JobsOk(s.jobs)
    ensures forall j, w :: Effective(s.jobs, j, w) ==>
      Exec(w, j, s.jobs[j].attempt) in s.claims && forall e :: e in s.claims && e.job == j ==> e.attempt <= s.jobs[j].attempt
  {
    RunKeeps(Start, trace, s);
  }

  /** Done and failed jobs are frozen: nothing in any later run touches them,
      so a result is written at most once. */
  lemma FinishedJobsAreFrozen(trace: seq<Act>, s: Sys, more: seq<Act>, s': Sys, j: JobId)
    requires Runs(Start, trace, s) && Runs(s, more, s') && j in s.jobs && s.jobs[j].Over()
    ensures j in s'.jobs && s'.jobs[j] == s.jobs[j]
  {
    RunKeeps(Start, trace, s);
    RunKeeps(s, more, s');
  }

  // ---------------------------------------------------------------- every run of a job is bounded

  /** Claims, reclaims, requeues and ends of job `j` along a trace. */
  ghost function MoveCount(s: Sys, trace: seq<Act>, j: JobId): nat
    decreases |trace|
  {
    if trace == [] || !Can(s, trace[0]) then 0
    else
      var s1 := Do(s, trace[0]);
      (if j in s.jobs && j in s1.jobs && Counts(s.jobs[j], s1.jobs[j]) then 1 else 0) + MoveCount(s1, trace[1..], j)
  }

  lemma {:induction false} MovesSpendBudget(s: Sys, trace: seq<Act>, s': Sys, j: JobId)
    requires Inv(s) && Runs(s, trace, s') && j in s.jobs
    ensures Inv(s') && j in s'.jobs && s'.jobs[j].spec == s.jobs[j].spec
    ensures MoveCount(s, trace, j) <= Budget(s.jobs[j]) - Budget(s'.jobs[j])
    decreases |trace|
  {
    if trace != [] {
      var a, s1 := trace[0], Do(s, trace[0]);
      StepKeeps(s, a);
      JobAfter(s, a, j);
      if StepOf(a).Some? { BudgetShrinks(s.jobs, s.now, StepOf(a).value, j); }
      MovesSpendBudget(s1, trace[1..], s', j);
    }
  }

  /** In every reachable state a job has been claimed at most `maxAttempts`
      times, once if that is less than one, and a pending job fewer times. */
  lemma AttemptsWithinLimit(trace: seq<Act>, s: Sys, j: JobId)
    requires Runs(Start, trace, s) && j in s.jobs
    ensures s.jobs[j].attempt <= Limit(s.jobs[j].spec) && (s.jobs[j].status.Pending? ==> s.jobs[j].attempt < Limit(s.jobs[j].spec))
    ensures forall e :: e in s.claims && e.job == j ==> 1 <= e.attempt <= Limit(s.jobs[j].spec)
  {
    RunKeeps(Start, trace, s);
    assert JobOk(s.jobs[j]);
  }

  /** From the moment it is enqueued, a job makes at most twice its limit of
      claims, reclaims, requeues and ends, in any run whatever. */
  lemma JobRunsAreBounded(trace: seq<Act>, s: Sys, more: seq<Act>, s': Sys, j: JobId)
    requires Runs(Start, trace, s) && Runs(s, more, s')
    requires j in s.jobs && s.jobs[j].status.Pending? && s.jobs[j].attempt == 0
    ensures MoveCount(s, more, j) <= 2 * Limit(s.jobs[j].spec)
    ensures j in s'.jobs && s'.jobs[j].attempt <= Limit(s'.jobs[j].spec)
  {
    RunKeeps(Start, trace, s);
    MovesSpendBudget(s, more, s', j);
    assert JobOk(s'.jobs[j]);
  }

  // ---------------------------------------------------------------- leases are respected

  /** A report sent by whoever holds job `j`. */
  predicate FromOwner(s: Sys, a: Act, j: JobId) {
    a.Send? && a.exec.job == j && j in s.jobs && s.jobs[j].claimedBy == Some(a.exec.worker)
  }

  /** The lease of job `j` is still running. */
  predicate Leased(s: Sys, j: JobId) {
    && j in s.jobs && (s.jobs[j].status == Claimed || s.jobs[j].status == Running)
    && s.jobs[j].expires.Some? && s.now <= s.jobs[j].expires.value
  }

  lemma LeaseKeepsJob(s: Sys, a: Act, j: JobId)
    requires Can(s, a) && Leased(s, j) && !FromOwner(s, a, j)
    ensures j in Do(s, a).jobs && Do(s, a).jobs[j] == s.jobs[j]
  {}

  ghost predicate OwnerSilent(s: Sys, trace: seq<Act>, j: JobId)
    decreases |trace|
  {
    trace == [] || (Can(s, trace[0]) ==> !FromOwner(s, trace[0], j) && OwnerSilent(Do(s, trace[0]), trace[1..], j))
  }

  lemma {:induction false} ClockAdvances(s: Sys, trace: seq<Act>, s': Sys)
    requires Runs(s, trace, s')
    ensures s.now <= s'.now
    decreases |trace|
  {
    if trace != [] { ClockAdvances(Do(s, trace[0]), trace[1..], s'); }
  }

  /** Leases are respected: as long as a lease runs and its holder reports
      nothing, no claim, sweep or report of anyone else touches the job. */
  lemma {:induction false} LeaseIsRespected(s: Sys, trace: seq<Act>, s': Sys, j: JobId)
    requires Runs(s, trace, s') && OwnerSilent(s, trace, j)
    requires j in s.jobs && s.jobs[j].status in {Claimed, Running} && s.jobs[j].expires.Some? && s'.now <= s.jobs[j].expires.value
    ensures j in s'.jobs && s'.jobs[j] == s.jobs[j]
    decreases |trace|
  {
    if trace != [] {
      ClockAdvances(s, trace, s');
      LeaseKeepsJob(s, trace[0], j);
      LeaseIsRespected(Do(s, trace[0]), trace[1..], s', j);
    }
  }

  // ---------------------------------------------------------------- fencing

  /** Only the execution of the latest claim can change a job. */
  ghost predicate Fenced(s: Sys) {
    forall e :: e in s.live && Effective(s.jobs, e.job, e.worker) ==> e.attempt == s.jobs[e.job].attempt
  }

  /** No worker claims a job that one of its own loops is still running. */
  ghost predicate NoReclaim(s: Sys, a: Act) {
    a.Take? ==> forall e :: e in s.live && e.job == a.pick ==> e.worker != a.who.worker
  }

  /** The fence survives a step exactly when the step is no such claim. */
  lemma FenceHoldsIffNoReclaim(s: Sys, a: Act)
    requires Inv(s) && Can(s, a) && Fenced(s)
    ensures Fenced(Do(s, a)) <==> NoReclaim(s, a)
  {
    var s' := Do(s, a);
    forall e | e in s'.live && Effective(s'.jobs, e.job, e.worker)
      ensures NoReclaim(s, a) ==> e.attempt == s'.jobs[e.job].attempt
    {
      if e in s.live { JobAfter(s, a, e.job); } else { JobAfter(s, a, a.pick); }
    }
    if !NoReclaim(s, a) {
      var e :| e in s.live && e.job == a.pick && e.worker == a.who.worker;
      JobAfter(s, a, a.pick);
      assert e in s'.live && Effective(s'.jobs, e.job, e.worker);
    }
  }

  ghost predicate FencedRuns(s: Sys, trace: seq<Act>, s': Sys)
    decreases |trace|
  {
    if trace == [] then s' == s
    else Can(s, trace[0]) && NoReclaim(s, trace[0]) && FencedRuns(Do(s, trace[0]), trace[1..], s')
  }

  lemma {:induction false} FencedRunKeeps(s: Sys, trace: seq<Act>, s': Sys)
    requires Inv(s) && Fenced(s) && FencedRuns(s, trace, s')
    ensures Inv(s') && Fenced(s')
    decreases |trace|
  {
    if trace != [] {
      StepKeeps(s, trace[0]);
      FenceHoldsIffNoReclaim(s, trace[0]);
      FencedRunKeeps(Do(s, trace[0]), trace[1..], s');
    }
  }

  /** Stale attempts are fully fenced when no worker re-claims a job it is
      still running: a report of an older attempt changes nothing. */
  lemma StaleReportsBounce(trace: seq<Act>, s: Sys, e: Exec, report: Report)
    requires FencedRuns(Start, trace, s) && e in s.live
    requires e.job in s.jobs ==> e.attempt != s.jobs[e.job].attempt
    ensures Can(s, Send(e, report)) && Do(s, Send(e, report)).jobs == s.jobs
  {
    FencedRunKeeps(Start, trace, s);
  }

  const BothLoops := Claimant(7, None, {}, {"k"})

  /** Job 0 is added and claimed by the first loop of worker 7; its lease runs
      out; the second loop, with the same id, claims it again. */
  const Reclaimed := [
    Add(0, 0, Spec("k", map[], 0, None, {}, 3)), Take(BothLoops, 1, {}, 0), Tick(5), Take(BothLoops, 100, {}, 0)]

  /** Two loops sharing worker id 7: the first outlives its lease, the second
      re-claims, and the first then completes the second's attempt. */
  lemma SharedIdLetsStaleReportThrough(result: string)
    ensures var late := Exec(7, 0, 1);
      exists s, s' ::
        (Runs(Start, Reclaimed, s) && Runs(Start, Reclaimed + [Send(late, Complete(result))], s')
         && 0 in s.jobs && s.jobs[0].attempt == 2 && s.jobs[0].InFlight() && 0 in s'.jobs && s'.jobs[0].status.Done?)
  {
    var late := Exec(7, 0, 1);
    var first := AfterFirstClaim();
    var s := AfterReclaim(first);
    assert Can(s, Send(late, Complete(result)));
    var s' := Do(s, Send(late, Complete(result)));
    FourSteps(first, s);
    RunsSnoc(Start, Reclaimed, s, Send(late, Complete(result)));
  }

  lemma {:induction false} RunsSnoc(s: Sys, trace: seq<Act>, mid: Sys, a: Act)
    requires Runs(s, trace, mid) && Can(mid, a)
    ensures Runs(s, trace + [a], Do(mid, a))
    decreases |trace|
  {
    var longer := trace + [a];
    if trace == [] {
      assert longer[1..] == [];
    } else {
      RunsSnoc(Do(s, trace[0]), trace[1..], mid, a);
      assert longer[0] == trace[0] && longer[1..] == trace[1..] + [a];
    }
  }

  function Once(attempt: nat, until: Time): Job {
    NewJob(0, Spec("k", map[], 0, None, {}, 3), 0).(status := Claimed, claimedBy := Some(7), expires := Some(until), attempt := attempt)
  }

  lemma AfterFirstClaim() returns (s: Sys)
    ensures Runs(Start, Reclaimed[..2], s)
    ensures s == Sys(map[0 := Once(1, 1)], 0, {Exec(7, 0, 1)}, {Exec(7, 0, 1)})
  {
    var s1 := Do(Start, Reclaimed[0]);
    assert s1.jobs == map[0 := NewJob(0, Spec("k", map[], 0, None, {}, 3), 0)];
    assert Can(s1, Reclaimed[1]);
    s := Do(s1, Reclaimed[1]);
    assert Runs(Start, [], Start);
    RunsSnoc(Start, [], Start, Reclaimed[0]);
    RunsSnoc(Start, [Reclaimed[0]], s1, Reclaimed[1]);
    assert [] + [Reclaimed[0]] == [Reclaimed[0]] && [Reclaimed[0]] + [Reclaimed[1]] == Reclaimed[..2];
  }

  lemma AfterReclaim(first: Sys) returns (s: Sys)
    requires first == Sys(map[0 := Once(1, 1)], 0, {Exec(7, 0, 1)}, {Exec(7, 0, 1)})
    ensures Can(first, Reclaimed[2]) && Can(Do(first, Reclaimed[2]), Reclaimed[3])
    ensures s == Do(Do(first, Reclaimed[2]), Reclaimed[3])
    ensures s.jobs == map[0 := Once(2, 100)] && Exec(7, 0, 1) in s.live
  {
    var s1 := Do(first, Reclaimed[2]);
    assert s1.jobs == first.jobs && s1.now == 5;
    assert Can(s1, Reclaimed[3]);
    s := Do(s1, Reclaimed[3]);
  }

  lemma FourSteps(first: Sys, s: Sys)
    requires Runs(Start, Reclaimed[..2], first)
    requires Can(first, Reclaimed[2]) && Can(Do(first, Reclaimed[2]), Reclaimed[3])
    requires s == Do(Do(first, Reclaimed[2]), Reclaimed[3])
    ensures Runs(Start, Reclaimed, s)
  {
    RunsSnoc(Start, Reclaimed[..2], first, Reclaimed[2]);
    RunsSnoc(Start, Reclaimed[..2] + [Reclaimed[2]], Do(first, Reclaimed[2]), Reclaimed[3]);
    assert Reclaimed[..2] + [Reclaimed[2]] + [Reclaimed[3]] == Reclaimed;
  }

  // ---------------------------------------------------------------- the two-statement sweep

  /** The claim with attempt number `n` is over. */
  predicate Past(job: Job, n: nat) { job.attempt > n || (job.attempt == n && !job.InFlight()) }

  lemma {:induction false} PastIsForever(s: Sys, trace: seq<Act>, s': Sys, j: JobId, n: nat)
    requires Inv(s) && Runs(s, trace, s') && j in s.jobs && Past(s.jobs[j], n)
    ensures j in s'.jobs && Past(s'.jobs[j], n)
    decreases |trace|
  {
    if trace != [] {
      StepKeeps(s, trace[0]);
      JobAfter(s, trace[0], j);
      PastIsForever(Do(s, trace[0]), trace[1..], s', j, n);
    }
  }

  /** `sweep_stale` runs its two updates as separate statements; whatever other
      clients do in between, a lease that had run out when it started is gone
      when it ends, unless its holder extended it meanwhile. */
  lemma SweepClearsExpired(trace: seq<Act>, s: Sys, between: seq<Act>, mid: Sys, j: JobId)
    requires Runs(Start, trace, s) && Runs(Do(s, Requeue), between, mid)
    requires j in s.jobs && s.jobs[j].Expired(s.now)
    ensures Can(mid, Exhaust) && j in Do(mid, Exhaust).jobs
    ensures var after := Do(mid, Exhaust).jobs[j];
      Past(after, s.jobs[j].attempt) || (after.attempt == s.jobs[j].attempt && after.expires != s.jobs[j].expires)
  {
    RunKeeps(Start, trace, s);
    if Requeues(s.jobs[j], s.now) {
      RequeuedSwept(s, between, mid, j);
    } else {
      ExhaustedSwept(s, between, mid, j);
    }
  }

  /** The case with attempts left: the first statement ends the claim. */
  lemma RequeuedSwept(s: Sys, between: seq<Act>, mid: Sys, j: JobId)
    requires Inv(s) && Can(s, Requeue) && Runs(Do(s, Requeue), between, mid)
    requires j in s.jobs && Requeues(s.jobs[j], s.now)
    ensures Can(mid, Exhaust) && j in Do(mid, Exhaust).jobs
    ensures Past(Do(mid, Exhaust).jobs[j], s.jobs[j].attempt)
  {
    StepKeeps(s, Requeue);
    AfterRequeue(s, j);
    PastIsForever(Do(s, Requeue), between, mid, j, s.jobs[j].attempt);
    AfterExhaust(mid, j);
  }

  /** The case with no attempts left: the second statement ends the job. */
  lemma ExhaustedSwept(s: Sys, between: seq<Act>, mid: Sys, j: JobId)
    requires Inv(s) && Can(s, Requeue) && Runs(Do(s, Requeue), between, mid)
    requires j in s.jobs && s.jobs[j].Expired(s.now) && !Requeues(s.jobs[j], s.now)
    ensures Can(mid, Exhaust) && j in Do(mid, Exhaust).jobs
    ensures var after := Do(mid, Exhaust).jobs[j];
      Past(after, s.jobs[j].attempt) || (after.attempt == s.jobs[j].attempt && after.expires != s.jobs[j].expires)
  {
    var s1 := Do(s, Requeue);
    StepKeeps(s, Requeue);
    AfterRequeue(s, j);
    RunKeeps(s1, between, mid);
    SpecKept(s1, between, mid, j);
    AfterExhaust(mid, j);
    OneJobSwept(s.jobs[j], mid.jobs[j], s.now, mid.now);
  }

  lemma AfterExhaust(s: Sys, j: JobId)
    requires j in s.jobs
    ensures Can(s, Exhaust) && j in Do(s, Exhaust).jobs
    ensures Do(s, Exhaust).jobs[j] == if Exhausts(s.jobs[j], s.now) then ExhaustRow(s.jobs[j]) else s.jobs[j]
  {}

  lemma AfterRequeue(s: Sys, j: JobId)
    requires j in s.jobs
    ensures Can(s, Requeue) && j in Do(s, Requeue).jobs && Do(s, Requeue).now == s.now
    ensures Do(s, Requeue).jobs[j] == if Requeues(s.jobs[j], s.now) then RequeueRow(s.jobs[j]) else s.jobs[j]
  {}

  lemma OneJobSwept(before: Job, job: Job, then0: Time, now: Time)
    requires JobOk(job) && job.spec == before.spec && before.attempt <= job.attempt && then0 <= now
    requires before.Expired(then0) && before.attempt >= before.spec.maxAttempts
    ensures var after := if Exhausts(job, now) then ExhaustRow(job) else job;
      Past(after, before.attempt) || (after.attempt == before.attempt && after.expires != before.expires)
  {}

  lemma {:induction false} SpecKept(s: Sys, trace: seq<Act>, s': Sys, j: JobId)
    requires Inv(s) && Runs(s, trace, s') && j in s.jobs
    ensures j in s'.jobs && s'.jobs[j].spec == s.jobs[j].spec
    decreases |trace|
  {
    if trace != [] {
      StepKeeps(s, trace[0]);
      JobAfter(s, trace[0], j);
      SpecKept(Do(s, trace[0]), trace[1..], s', j);
    }
  }
}
