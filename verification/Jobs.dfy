/** Background jobs: one loop claims a job under a lease, runs it and finishes it; failed runs
    are retried with a delay, and a job is canceled when its report changes. A job's id is
    its position, which is also the order of creation. */
module Jobs {
  import opened Options

  datatype Status = Queued | Running | Retry | Succeeded | Failed | Canceled

  /** `failures` and `reclaims` are history: failed finishes that took effect, and claims of
      a job that was still running. */
  datatype Job = Job(
    status: Status,
    attempts: nat,
    max: nat,
    runAfter: int,
    due: int,
    lease: Option<int>,
    failures: nat,
    reclaims: nat)

  /** `busy` is the job the loop is running, and the number of the claim it made of it. */
  datatype State = State(clock: int, jobs: seq<Job>, busy: Option<(nat, nat)>)

  /** No job yet. */
  function Start(clock: int): State {
    State(clock, [], None)
  }

  /** The delays are 1, 5 and 30 seconds; an index of -1 would mean the last. */
  function RetryDelay(attempts: nat): int {
    if attempts == 1 then 1 else if attempts == 2 then 5 else 30
  }

  predicate Final(status: Status) {
    status in {Succeeded, Failed, Canceled}
  }

  predicate Claimable(job: Job, now: int) {
    (job.status in {Queued, Retry} && job.runAfter <= now)
    || (job.status == Running && job.lease.Some? && job.lease.value <= now)
  }

  function Claimed(job: Job, now: int, lease: nat): Job {
    job.(status := Running, attempts := job.attempts + 1, lease := Some(now + lease),
         reclaims := job.reclaims + if job.status == Running then 1 else 0)
  }

  /** A finish counts only while the job is running. */
  function Finished(job: Job, now: int, ok: bool): Job {
    if job.status != Running then job
    else if ok then job.(status := Succeeded, lease := None)
    else if job.attempts >= job.max then job.(status := Failed, lease := None, failures := job.failures + 1)
    else job.(status := Retry, lease := None, runAfter := now + RetryDelay(job.attempts), failures := job.failures + 1)
  }

  function CanceledJob(job: Job): Job {
    if job.status in {Queued, Retry, Running} then job.(status := Canceled, lease := None) else job
  }

  /** The branch for a job that was claimed before it is due. */
  predicate MustDefer(job: Job, now: int) {
    job.status == Running && now < job.due
  }

  function Deferred(job: Job): Job {
    job.(status := Queued, attempts := if job.attempts == 0 then 0 else job.attempts - 1, runAfter := job.due, lease := None)
  }

  /** The loop runs one job at a time. It drops one without finishing it when the process
      restarts, when finishing raises, or when the job was canceled before it began. */
  datatype Op =
    | Tick(now: int)
    | Add(max: nat, runAfter: int, due: int)
    | Claim(j: nat, lease: nat)
    | Finish(j: nat, claim: nat, ok: bool)
    | Defer(j: nat)
    | Drop
    | Cancel(j: nat)

  /** The claimable job waiting longest, earliest made first among equals. */
  predicate IsNext(jobs: seq<Job>, now: int, j: nat) {
    && j < |jobs| && Claimable(jobs[j], now)
    && forall k | 0 <= k < |jobs| && Claimable(jobs[k], now) ::
         jobs[j].runAfter < jobs[k].runAfter || (jobs[j].runAfter == jobs[k].runAfter && j <= k)
  }

  predicate Enabled(s: State, op: Op) {
    match op
    case Tick(now) => s.clock <= now
    case Add(_, runAfter, due) => due <= runAfter
    case Claim(j, _) => s.busy.None? && IsNext(s.jobs, s.clock, j)
    case Finish(j, claim, _) => s.busy == Some((j, claim)) && j < |s.jobs|
    case Defer(j) => s.busy.Some? && s.busy.value.0 == j && j < |s.jobs| && MustDefer(s.jobs[j], s.clock)
    case Drop => true
    case Cancel(j) => j < |s.jobs|
  }

  function Apply(s: State, op: Op): State
    requires Enabled(s, op)
  {
    match op
    case Tick(now) => s.(clock := now)
    case Add(max, runAfter, due) => s.(jobs := s.jobs + [Job(Queued, 0, max, runAfter, due, None, 0, 0)])
    case Claim(j, lease) =>
      s.(jobs := s.jobs[j := Claimed(s.jobs[j], s.clock, lease)], busy := Some((j, s.jobs[j].attempts + 1)))
    case Finish(j, _, ok) => s.(jobs := s.jobs[j := Finished(s.jobs[j], s.clock, ok)], busy := None)
    case Defer(j) => s.(jobs := s.jobs[j := Deferred(s.jobs[j])], busy := None)
    case Drop => s.(busy := None)
    case Cancel(j) => s.(jobs := s.jobs[j := CanceledJob(s.jobs[j])])
  }

  ghost predicate Run(s: State, ops: seq<Op>, last: State)
    decreases |ops|
  {
    if ops == [] then last == s else Enabled(s, ops[0]) && Run(Apply(s, ops[0]), ops[1..], last)
  }

  /** A job runs at least once whatever its limit. */
  function Limit(job: Job): nat {
    if job.max == 0 then 1 else job.max
  }

  predicate JobOk(job: Job, clock: int) {
    && job.due <= job.runAfter
    && (job.status == Running ==> job.due <= clock && job.lease.Some?)
    && (job.status == Queued ==> job.attempts == 0)
    && (job.status == Retry ==> job.attempts < job.max)
    && (job.status == Failed ==> job.attempts >= job.max)
    && (if job.status in {Running, Succeeded} then job.attempts == job.failures + job.reclaims + 1
        else if job.status == Canceled then job.failures + job.reclaims <= job.attempts <= job.failures + job.reclaims + 1
        else job.attempts == job.failures + job.reclaims)
    && (if job.status == Failed then job.failures <= Limit(job) else job.failures < Limit(job))
  }

  ghost predicate Inv(s: State) {
    forall j | 0 <= j < |s.jobs| :: JobOk(s.jobs[j], s.clock)
  }

  /** Nothing changes a job that is over. */
  predicate JobFollows(job: Job, job': Job) {
    && (Final(job.status) ==> job' == job)
    && job.failures <= job'.failures && job.max == job'.max && job.due == job'.due
  }

  lemma StepKeeps(s: State, op: Op, j: nat)
    requires Inv(s) && Enabled(s, op) && j < |Apply(s, op).jobs|
    ensures |s.jobs| <= |Apply(s, op).jobs|
    ensures JobOk(Apply(s, op).jobs[j], Apply(s, op).clock)
    ensures j < |s.jobs| ==> JobFollows(s.jobs[j], Apply(s, op).jobs[j])
  {
    if j < |s.jobs| {
      assert JobOk(s.jobs[j], s.clock);
    }
  }

  lemma {:induction false} RunKeeps(s: State, ops: seq<Op>, last: State)
    requires Inv(s) && Run(s, ops, last)
    ensures Inv(last) && |s.jobs| <= |last.jobs|
    ensures forall j | 0 <= j < |s.jobs| :: JobFollows(s.jobs[j], last.jobs[j])
    decreases |ops|
  {
    if ops != [] {
      var s1 := Apply(s, ops[0]);
      forall j: nat | j < |s1.jobs| ensures JobOk(s1.jobs[j], s1.clock) {
        StepKeeps(s, ops[0], j);
      }
      RunKeeps(s1, ops[1..], last);
      forall j | 0 <= j < |s.jobs| ensures JobFollows(s.jobs[j], last.jobs[j]) {
        StepKeeps(s, ops[0], j);
        assert JobFollows(s1.jobs[j], last.jobs[j]);
      }
    }
  }

  lemma {:induction false} RunSplits(s: State, mid: State, last: State, first: seq<Op>, second: seq<Op>)
    requires Run(s, first, mid) && Run(mid, second, last)
    ensures Run(s, first + second, last)
    decreases |first|
  {
    if first == [] {
      assert first + second == second;
    } else {
      assert (first + second)[1..] == first[1..] + second;
      RunSplits(Apply(s, first[0]), mid, last, first[1..], second);
    }
  }

  /** Over any run: a job that is over stays as it is; "retry" means attempts are left and
      "failed" that none are; failed finishes never exceed the limit, and every attempt is a
      failed finish, a lease that ran out, or the last one. */
  lemma JobLifecycle(clock: int, first: seq<Op>, s: State, second: seq<Op>, last: State, j: nat)
    requires Run(Start(clock), first, s) && Run(s, second, last) && j < |s.jobs|
    ensures |s.jobs| <= |last.jobs|
    ensures Final(s.jobs[j].status) ==> last.jobs[j] == s.jobs[j]
    ensures s.jobs[j].status == Retry ==> s.jobs[j].attempts < s.jobs[j].max
    ensures s.jobs[j].status == Failed ==> s.jobs[j].attempts >= s.jobs[j].max
    ensures s.jobs[j].failures <= Limit(s.jobs[j])
    ensures s.jobs[j].attempts <= Limit(s.jobs[j]) + s.jobs[j].reclaims
    ensures var accounted := s.jobs[j].failures + s.jobs[j].reclaims;
            match s.jobs[j].status
            case Queued | Retry | Failed => s.jobs[j].attempts == accounted
            case Running | Succeeded => s.jobs[j].attempts == accounted + 1
            case Canceled => accounted <= s.jobs[j].attempts <= accounted + 1
  {
    RunKeeps(Start(clock), first, s);
    RunKeeps(s, second, last);
    assert JobOk(s.jobs[j], s.clock);
    assert JobFollows(s.jobs[j], last.jobs[j]);
  }

  /** No run reaches the deferral branch, so a claim is never taken back. */
  lemma NeverDefers(clock: int, ops: seq<Op>, s: State, j: nat)
    requires Run(Start(clock), ops, s) && j < |s.jobs|
    ensures !MustDefer(s.jobs[j], s.clock)
  {
    RunKeeps(Start(clock), ops, s);
    assert JobOk(s.jobs[j], s.clock);
  }

  // ---------------------------------------------------------------- leases

  /** Since the claim that set the lease: no failed finish, and the lease stands or the job
      is over, as long as its time has not come. */
  predicate LeaseStands(job: Job, clock: int, failures: nat, until: int) {
    && failures <= job.failures
    && (job.failures == failures && clock < until ==>
          Final(job.status) || (job.status == Running && job.lease.Some? && until <= job.lease.value))
  }

  lemma {:induction false} RunKeepsLease(s: State, ops: seq<Op>, last: State, j: nat, failures: nat, until: int)
    requires Inv(s) && Run(s, ops, last) && j < |s.jobs| && LeaseStands(s.jobs[j], s.clock, failures, until)
    ensures j < |last.jobs| && LeaseStands(last.jobs[j], last.clock, failures, until)
    decreases |ops|
  {
    if ops != [] {
      assert JobOk(s.jobs[j], s.clock);
      RunKeeps(s, ops[..1], Apply(s, ops[0])) by {
        assert ops[..1][1..] == [];
      }
      RunKeepsLease(Apply(s, ops[0]), ops[1..], last, j, failures, until);
    }
  }

  /** Whatever happens after a claim, restarts included, the job is claimed again only once
      the lease is over or a finish has failed since. */
  lemma LeaseExcludes(clock: int, first: seq<Op>, s: State, j: nat, lease: nat, second: seq<Op>, last: State, next: nat)
    requires Run(Start(clock), first, s) && Enabled(s, Claim(j, lease))
    requires Run(Apply(s, Claim(j, lease)), second, last) && Enabled(last, Claim(j, next))
    ensures s.clock + lease <= last.clock || s.jobs[j].failures < last.jobs[j].failures
  {
    RunKeeps(Start(clock), first, s);
    var s1 := Apply(s, Claim(j, lease));
    forall i: nat | i < |s1.jobs| ensures JobOk(s1.jobs[i], s1.clock) {
      StepKeeps(s, Claim(j, lease), i);
    }
    RunKeepsLease(s1, second, last, j, s.jobs[j].failures, s.clock + lease);
  }

  // ---------------------------------------------------------------- a finish and its claim

  /** The loop is done with claim `n` of the job: it can only make later ones. */
  predicate Past(s: State, j: nat, n: nat) {
    j < |s.jobs| && n <= s.jobs[j].attempts && s.busy != Some((j, n))
  }

  lemma {:induction false} PastStays(s: State, ops: seq<Op>, last: State, j: nat, n: nat)
    requires Inv(s) && Run(s, ops, last) && Past(s, j, n)
    ensures Past(last, j, n)
    decreases |ops|
  {
    if ops != [] {
      assert JobOk(s.jobs[j], s.clock);
      RunKeeps(s, ops[..1], Apply(s, ops[0])) by {
        assert ops[..1][1..] == [];
      }
      PastStays(Apply(s, ops[0]), ops[1..], last, j, n);
    }
  }

  predicate Cancels(op: Op, j: nat) {
    op.Cancel? && op.j == j
  }

  ghost predicate CanceledIn(ops: seq<Op>, j: nat) {
    exists k | 0 <= k < |ops| :: Cancels(ops[k], j)
  }

  lemma CanceledFirst(ops: seq<Op>, j: nat)
    requires ops != []
    ensures CanceledIn(ops, j) <==> Cancels(ops[0], j) || CanceledIn(ops[1..], j)
  {
    if CanceledIn(ops[1..], j) {
      var k :| 0 <= k < |ops[1..]| && Cancels(ops[1..][k], j);
      assert Cancels(ops[k + 1], j);
    }
    if k :| 0 <= k < |ops| && Cancels(ops[k], j) {
      assert k > 0 ==> Cancels(ops[1..][k - 1], j);
    }
  }

  /** While the loop holds the claim, only a cancel touches the job. */
  lemma {:induction false} HeldThroughRun(s: State, ops: seq<Op>, last: State, j: nat, n: nat, claimed: Job)
    requires Inv(s) && Run(s, ops, last) && j < |s.jobs| && n <= s.jobs[j].attempts && claimed.status == Running
    requires s.busy == last.busy == Some((j, n))
    requires s.jobs[j] == claimed || s.jobs[j] == CanceledJob(claimed)
    ensures j < |last.jobs|
    ensures last.jobs[j] == if CanceledIn(ops, j) then CanceledJob(claimed) else s.jobs[j]
    decreases |ops|
  {
    if ops != [] {
      var s1 := Apply(s, ops[0]);
      RunKeeps(s, ops[..1], s1) by {
        assert ops[..1][1..] == [];
      }
      if s1.busy != Some((j, n)) {
        PastStays(s1, ops[1..], last, j, n);
      } else {
        HeldThroughRun(s1, ops[1..], last, j, n, claimed);
        CanceledFirst(ops, j);
      }
    }
  }

  /** In every run: when the loop finishes a claim, no later claim of the job has been made,
      and the finish takes effect if and only if the job was not canceled since. */
  lemma FinishIsOfLatestClaim(clock: int, first: seq<Op>, s: State, j: nat, lease: nat, ops: seq<Op>, last: State, ok: bool)
    requires Run(Start(clock), first, s) && Enabled(s, Claim(j, lease))
    requires Run(Apply(s, Claim(j, lease)), ops, last) && Enabled(last, Finish(j, s.jobs[j].attempts + 1, ok))
    ensures last.jobs[j].attempts == s.jobs[j].attempts + 1
    ensures Apply(last, Finish(j, s.jobs[j].attempts + 1, ok)).jobs[j] != last.jobs[j] <==> !CanceledIn(ops, j)
    ensures last.jobs[j] == if CanceledIn(ops, j) then CanceledJob(Claimed(s.jobs[j], s.clock, lease))
                            else Claimed(s.jobs[j], s.clock, lease)
  {
    RunKeeps(Start(clock), first, s);
    var s1 := Apply(s, Claim(j, lease));
    forall i: nat | i < |s1.jobs| ensures JobOk(s1.jobs[i], s1.clock) {
      StepKeeps(s, Claim(j, lease), i);
    }
    HeldThroughRun(s1, ops, last, j, s.jobs[j].attempts + 1, s1.jobs[j]);
  }

  /** What comes of a finish that takes effect: success if and only if the run was ok; of a
      failed run, another try if attempts are left, and failure for good if none are. */
  lemma FinishSettles(clock: int, first: seq<Op>, s: State, j: nat, lease: nat, ops: seq<Op>, last: State, ok: bool)
    requires Run(Start(clock), first, s) && Enabled(s, Claim(j, lease))
    requires Run(Apply(s, Claim(j, lease)), ops, last) && Enabled(last, Finish(j, s.jobs[j].attempts + 1, ok)) && !CanceledIn(ops, j)
    ensures var job := Apply(last, Finish(j, s.jobs[j].attempts + 1, ok)).jobs[j];
            && (job.status == Succeeded <==> ok)
            && (job.status == Failed <==> !ok && s.jobs[j].attempts + 1 >= s.jobs[j].max)
            && (job.status == Retry <==> !ok && s.jobs[j].attempts + 1 < s.jobs[j].max)
            && job.lease.None? && job.attempts == s.jobs[j].attempts + 1 && job.max == s.jobs[j].max
            && (job.status == Retry ==>
                  job.runAfter == last.clock + if job.attempts == 1 then 1 else if job.attempts == 2 then 5 else 30)
    ensures forall i | 0 <= i < |last.jobs| && i != j ::
              Apply(last, Finish(j, s.jobs[j].attempts + 1, ok)).jobs[i] == last.jobs[i]
  {
    FinishIsOfLatestClaim(clock, first, s, j, lease, ops, last, ok);
    RunKeeps(Start(clock), first, s);
    assert JobOk(s.jobs[j], s.clock);
  }

  /** The job waits for its next try, is over, or its time has come. */
  predicate Waits(s: State, j: nat, until: int) {
    j < |s.jobs| && (Final(s.jobs[j].status) || until <= s.clock || (s.jobs[j].status == Retry && until <= s.jobs[j].runAfter))
  }

  lemma {:induction false} WaitsThroughRun(s: State, ops: seq<Op>, last: State, j: nat, until: int)
    requires Run(s, ops, last) && Waits(s, j, until)
    ensures Waits(last, j, until)
    decreases |ops|
  {
    if ops != [] {
      WaitsThroughRun(Apply(s, ops[0]), ops[1..], last, j, until);
    }
  }

  /** A failed run is tried again no earlier than 1, 5 or 30 seconds later, after the first,
      the second or a later attempt, whatever happens in between. */
  lemma RetryWaits(clock: int, first: seq<Op>, s: State, j: nat, lease: nat, ops: seq<Op>, mid: State, more: seq<Op>, last: State, next: nat)
    requires Run(Start(clock), first, s) && Enabled(s, Claim(j, lease))
    requires Run(Apply(s, Claim(j, lease)), ops, mid) && Enabled(mid, Finish(j, s.jobs[j].attempts + 1, false)) && !CanceledIn(ops, j)
    requires Run(Apply(mid, Finish(j, s.jobs[j].attempts + 1, false)), more, last) && Enabled(last, Claim(j, next))
    ensures mid.clock + (if s.jobs[j].attempts == 0 then 1 else if s.jobs[j].attempts == 1 then 5 else 30) <= last.clock
  {
    FinishSettles(clock, first, s, j, lease, ops, mid, false);
    var wait := if s.jobs[j].attempts == 0 then 1 else if s.jobs[j].attempts == 1 then 5 else 30;
    WaitsThroughRun(Apply(mid, Finish(j, s.jobs[j].attempts + 1, false)), more, last, j, mid.clock + wait);
  }

  /** Step `k` of the run finishes the job, which was running, with this outcome. */
  ghost predicate FinishedAt(s: State, ops: seq<Op>, k: nat, j: nat, ok: bool)
    decreases k
  {
    && k < |ops| && Enabled(s, ops[0])
    && if k == 0 then ops[0].Finish? && ops[0].j == j && ops[0].ok == ok && j < |s.jobs| && s.jobs[j].status == Running
       else FinishedAt(Apply(s, ops[0]), ops[1..], k - 1, j, ok)
  }

  /** The job is over because it was finished with this outcome, and never again after. */
  ghost predicate EndedBy(s: State, ops: seq<Op>, j: nat, ok: bool) {
    exists k: nat :: FinishedAt(s, ops, k, j, ok) && forall m: nat, other: bool | m > k :: !FinishedAt(s, ops, m, j, other)
  }

  lemma {:induction false} OverIsLeftAlone(s: State, ops: seq<Op>, k: nat, j: nat, ok: bool)
    requires j < |s.jobs| && Final(s.jobs[j].status)
    ensures !FinishedAt(s, ops, k, j, ok)
    decreases k
  {
    if k < |ops| && Enabled(s, ops[0]) && k > 0 {
      OverIsLeftAlone(Apply(s, ops[0]), ops[1..], k - 1, j, ok);
    }
  }

  lemma EndedLater(s: State, ops: seq<Op>, j: nat, ok: bool)
    requires ops != [] && Enabled(s, ops[0]) && EndedBy(Apply(s, ops[0]), ops[1..], j, ok)
    ensures EndedBy(s, ops, j, ok)
  {
    var s1, rest := Apply(s, ops[0]), ops[1..];
    var k: nat :| FinishedAt(s1, rest, k, j, ok) && forall m: nat, other: bool | m > k :: !FinishedAt(s1, rest, m, j, other);
    assert FinishedAt(s, ops, k + 1, j, ok);
    forall m: nat, other: bool | m > k + 1 ensures !FinishedAt(s, ops, m, j, other) {
      assert !FinishedAt(s1, rest, m - 1, j, other);
    }
  }

  lemma EndedNow(s: State, ops: seq<Op>, j: nat, ok: bool)
    requires FinishedAt(s, ops, 0, j, ok) && Final(Apply(s, ops[0]).jobs[j].status)
    ensures EndedBy(s, ops, j, ok)
  {
    forall m: nat, other: bool | m > 0 ensures !FinishedAt(s, ops, m, j, other) {
      if m < |ops| {
        OverIsLeftAlone(Apply(s, ops[0]), ops[1..], m - 1, j, other);
      }
    }
  }

  lemma {:induction false} OverWasFinished(s: State, ops: seq<Op>, last: State, j: nat)
    requires Run(s, ops, last) && j < |last.jobs| && last.jobs[j].status in {Succeeded, Failed}
    requires j < |s.jobs| ==> !Final(s.jobs[j].status)
    ensures EndedBy(s, ops, j, last.jobs[j].status == Succeeded)
    decreases |ops|
  {
    if ops != [] {
      var s1 := Apply(s, ops[0]);
      if j < |s1.jobs| && Final(s1.jobs[j].status) {
        FinalStays(s1, ops[1..], last, j);
        EndedNow(s, ops, j, last.jobs[j].status == Succeeded);
      } else {
        OverWasFinished(s1, ops[1..], last, j);
        EndedLater(s, ops, j, last.jobs[j].status == Succeeded);
      }
    }
  }

  lemma {:induction false} FinalStays(s: State, ops: seq<Op>, last: State, j: nat)
    requires Run(s, ops, last) && j < |s.jobs| && Final(s.jobs[j].status)
    ensures j < |last.jobs| && last.jobs[j] == s.jobs[j]
    decreases |ops|
  {
    if ops != [] {
      FinalStays(Apply(s, ops[0]), ops[1..], last, j);
    }
  }

  /** In every run: a job has succeeded only if its last finish that took effect was ok, and
      has failed only if that one was not. */
  lemma OutcomeIsLastFinish(clock: int, ops: seq<Op>, s: State, j: nat)
    requires Run(Start(clock), ops, s) && j < |s.jobs|
    ensures s.jobs[j].status == Succeeded ==> EndedBy(Start(clock), ops, j, true)
    ensures s.jobs[j].status == Failed ==> EndedBy(Start(clock), ops, j, false)
  {
    if s.jobs[j].status in {Succeeded, Failed} {
      OverWasFinished(Start(clock), ops, s, j);
    }
  }

  lemma RunBegins(s: State, op: Op, rest: seq<Op>, last: State)
    requires Enabled(s, op) && Run(Apply(s, op), rest, last)
    ensures Run(s, [op] + rest, last)
  {
    assert ([op] + rest)[1..] == rest;
  }

  // ---------------------------------------------------------------- the limit

  /** A step takes a job past its limit exactly when it claims the job, still running on the
      last attempt it had, from a worker whose lease ran out. */
  lemma PassesLimitIff(clock: int, ops: seq<Op>, s: State, op: Op, j: nat)
    requires Run(Start(clock), ops, s) && Enabled(s, op)
    requires j < |s.jobs| && s.jobs[j].attempts <= Limit(s.jobs[j])
    ensures Apply(s, op).jobs[j].attempts > Limit(Apply(s, op).jobs[j])
            <==> op.Claim? && op.j == j && s.jobs[j].status == Running && s.jobs[j].attempts == Limit(s.jobs[j])
  {
    RunKeeps(Start(clock), ops, s);
    assert JobOk(s.jobs[j], s.clock);
  }

  /** One job that may run once, at the given time. */
  function One(clock: int, status: Status, attempts: nat, lease: Option<int>, reclaims: nat, busy: Option<(nat, nat)>): State {
    State(clock, [Job(status, attempts, 1, 0, 0, lease, 0, reclaims)], busy)
  }

  /** A process that restarts while the job runs makes the attempts pass the limit. */
  lemma CrashesOvershoot()
    ensures exists s: State ::
              && Run(Start(0), [Add(1, 0, 0)] + ([Claim(0, 60)] + ([Drop] + ([Tick(60)] + ([Claim(0, 60)] + [])))), s)
              && |s.jobs| == 1 && s.jobs[0].max == 1 && s.jobs[0].attempts == 2
  {
    var queued, claimed := One(0, Queued, 0, None, 0, None), One(0, Running, 1, Some(60), 0, Some((0, 1)));
    var expired := One(60, Running, 1, Some(60), 0, None);
    var last := One(60, Running, 2, Some(120), 1, Some((0, 2)));
    ClaimedAgain(expired, last);
    RunBegins(claimed.(busy := None), Tick(60), [Claim(0, 60)] + [], last);
    RunBegins(claimed, Drop, [Tick(60)] + ([Claim(0, 60)] + []), last);
    assert Apply(queued, Claim(0, 60)) == claimed;
    RunBegins(queued, Claim(0, 60), [Drop] + ([Tick(60)] + ([Claim(0, 60)] + [])), last);
    assert Apply(Start(0), Add(1, 0, 0)) == queued;
    RunBegins(Start(0), Add(1, 0, 0), [Claim(0, 60)] + ([Drop] + ([Tick(60)] + ([Claim(0, 60)] + []))), last);
  }

  lemma ClaimedAgain(expired: State, last: State)
    requires expired == One(60, Running, 1, Some(60), 0, None) && last == One(60, Running, 2, Some(120), 1, Some((0, 2)))
    ensures Run(expired, [Claim(0, 60)] + [], last)
  {
    assert Apply(expired, Claim(0, 60)) == last;
    RunBegins(expired, Claim(0, 60), [], last);
  }

  // ---------------------------------------------------------------- who is next, and who is canceled

  /** Whether a job may be claimed: it waits and its time has come, or it was left running and
      its lease is over. */
  predicate Due(job: Job, now: int) {
    if job.status == Running then job.lease.Some? && job.lease.value <= now
    else (job.status == Queued || job.status == Retry) && job.runAfter <= now
  }

  lemma {:induction false} LongestWaiting(jobs: seq<Job>, now: int, n: nat) returns (j: nat)
    requires n <= |jobs| && exists k :: 0 <= k < n && Due(jobs[k], now)
    ensures j < n && Due(jobs[j], now)
    ensures forall k | 0 <= k < n && Due(jobs[k], now) ::
              jobs[j].runAfter < jobs[k].runAfter || (jobs[j].runAfter == jobs[k].runAfter && j <= k)
  {
    if exists k :: 0 <= k < n - 1 && Due(jobs[k], now) {
      j := LongestWaiting(jobs, now, n - 1);
      if Due(jobs[n - 1], now) && jobs[n - 1].runAfter < jobs[j].runAfter {
        j := n - 1;
      }
    } else {
      j := n - 1;
    }
  }

  /** There is a next job exactly when one is due; it is due, none that is due has waited
      longer, and there is only one. */
  lemma NextJob(jobs: seq<Job>, now: int, j: nat, k: nat)
    ensures (exists i: nat :: IsNext(jobs, now, i)) <==> exists i | 0 <= i < |jobs| :: Due(jobs[i], now)
    ensures IsNext(jobs, now, j) ==> j < |jobs| && Due(jobs[j], now)
    ensures IsNext(jobs, now, j) && k < |jobs| && Due(jobs[k], now) ==> jobs[j].runAfter <= jobs[k].runAfter
    ensures IsNext(jobs, now, j) && k < j && Due(jobs[k], now) ==> jobs[j].runAfter < jobs[k].runAfter
    ensures IsNext(jobs, now, j) && IsNext(jobs, now, k) ==> j == k
  {
    forall i | 0 <= i < |jobs| ensures Claimable(jobs[i], now) == Due(jobs[i], now) {
    }
    if exists i | 0 <= i < |jobs| :: Due(jobs[i], now) {
      var i := LongestWaiting(jobs, now, |jobs|);
      assert IsNext(jobs, now, i);
    }
    if i: nat :| IsNext(jobs, now, i) {
      assert Due(jobs[i], now);
    }
  }

  /** A claim starts the next attempt under a lease; a cancel ends a job that is not over,
      and with it its lease; neither touches another job. */
  lemma ClaimAndCancel(s: State, j: nat, lease: nat, i: nat)
    requires j < |s.jobs| && i < |s.jobs|
    ensures Enabled(s, Claim(j, lease)) ==>
              var r := Apply(s, Claim(j, lease));
              && |r.jobs| == |s.jobs| && (i != j ==> r.jobs[i] == s.jobs[i])
              && r.jobs[j].status == Running && r.jobs[j].attempts == s.jobs[j].attempts + 1
              && r.jobs[j].lease == Some(s.clock + lease) && r.busy == Some((j, s.jobs[j].attempts + 1))
              && r.jobs[j].max == s.jobs[j].max && r.jobs[j].runAfter == s.jobs[j].runAfter && r.jobs[j].failures == s.jobs[j].failures
    ensures var r := Apply(s, Cancel(j));
            && |r.jobs| == |s.jobs| && (i != j ==> r.jobs[i] == s.jobs[i]) && r.busy == s.busy
            && (s.jobs[j].status in {Succeeded, Failed, Canceled} ==> r.jobs[j] == s.jobs[j])
            && (s.jobs[j].status in {Queued, Retry, Running} ==> r.jobs[j] == s.jobs[j].(status := Canceled, lease := None))
  {
  }

  // ---------------------------------------------------------------- the worker

  class JobTable {
    var jobs: seq<Job>

    constructor ()
      ensures jobs == []
    {
      jobs := [];
    }

    /** The next job, now leased; none when nothing is claimable. */
    method ClaimJob(now: int, lease: nat) returns (claimed: Option<nat>)
      modifies this
      ensures claimed.None? ==> jobs == old(jobs) && forall k | 0 <= k < |jobs| :: !Claimable(jobs[k], now)
      ensures claimed.Some? ==> IsNext(old(jobs), now, claimed.value)
                                && jobs == old(jobs)[claimed.value := Claimed(old(jobs)[claimed.value], now, lease)]
    {
      claimed := None;
      var k := 0;
      while k < |jobs|
        invariant k <= |jobs| && jobs == old(jobs)
        invariant claimed.None? ==> forall i | 0 <= i < k :: !Claimable(jobs[i], now)
        invariant claimed.Some? ==> claimed.value < k && Claimable(jobs[claimed.value], now)
        invariant claimed.Some? ==> forall i | 0 <= i < k && Claimable(jobs[i], now) ::
                    jobs[claimed.value].runAfter < jobs[i].runAfter
                    || (jobs[claimed.value].runAfter == jobs[i].runAfter && claimed.value <= i)
      {
        if Claimable(jobs[k], now) && (claimed.None? || jobs[k].runAfter < jobs[claimed.value].runAfter) {
          claimed := Some(k);
        }
        k := k + 1;
      }
      if claimed.Some? {
        jobs := jobs[claimed.value := Claimed(jobs[claimed.value], now, lease)];
      }
    }

    method FinishJob(j: nat, now: int, ok: bool)
      requires j < |jobs|
      modifies this
      ensures jobs == old(jobs)[j := Finished(old(jobs)[j], now, ok)]
    {
      var job := jobs[j];
      if job.status != Running {
        return;
      }
      job := job.(lease := None);
      if ok {
        job := job.(status := Succeeded);
      } else {
        job := job.(failures := job.failures + 1);
        if job.attempts >= job.max {
          job := job.(status := Failed);
        } else {
          job := job.(status := Retry, runAfter := now + RetryDelay(job.attempts));
        }
      }
      jobs := jobs[j := job];
    }

    /** Every unfinished job of the list, but the one kept, is canceled. */
    method CancelJobs(list: seq<nat>, keep: Option<nat>)
      requires forall i | 0 <= i < |list| :: list[i] < |jobs|
      modifies this
      ensures |jobs| == |old(jobs)|
      ensures forall j | 0 <= j < |jobs| ::
                jobs[j] == if j in list && Some(j) != keep then CanceledJob(old(jobs)[j]) else old(jobs)[j]
    {
      var i := 0;
      while i < |list|
        invariant i <= |list| && |jobs| == |old(jobs)|
        invariant forall j | 0 <= j < |jobs| ::
                    jobs[j] == if j in list[..i] && Some(j) != keep then CanceledJob(old(jobs)[j]) else old(jobs)[j]
      {
        assert list[..i + 1] == list[..i] + [list[i]];
        if Some(list[i]) != keep {
          jobs := jobs[list[i] := CanceledJob(jobs[list[i]])];
        }
        i := i + 1;
      }
      assert list[..i] == list;
    }
  }
}
