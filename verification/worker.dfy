/**
 * One worker process: the claim protocol (first eligible pending job under
 * exponential backoff, then a conditional pending-to-processing update), one
 * iteration of the worker loop, and the loop itself up to shutdown. Command
 * execution is an input: each iteration is told whether the command succeeded.
 */
module Worker {
  import opened Wrappers
  import opened Schema
  import Storage
  import JobManager

  // ----- backoff -----

  /** `base ** e` for a natural exponent. */
  function Pow(base: int, e: nat): (p: int)
    ensures base >= 1 ==> p >= 1
  {
    if e == 0 then 1 else base * Pow(base, e - 1)
  }

  /** The wait, in seconds, before a job with `attempts` failures may be claimed again. */
  function Delay(base: int, attempts: nat): (d: int)
    ensures attempts == 0 ==> d == 0
    ensures base >= 1 && attempts > 0 ==> d >= 1
  {
    if attempts > 0 then Pow(base, attempts) else 0
  }

  /**
   * A pending job may be claimed once `delay` seconds have passed since
   * `updated_at`; a job never updated counts as updated now. `force_retry`
   * is not consulted. A job with no failures waits only for its
   * `updated_at`; one with failures under a positive base is never eligible
   * without an `updated_at`, and only strictly after it.
   */
  function Eligible(j: Job, base: int, now: int): (b: bool)
    ensures j.attempts == 0 ==> (b <==> j.updatedAt.None? || now >= j.updatedAt.value)
    ensures base >= 1 && j.attempts > 0 && b ==> j.updatedAt.Some? && now > j.updatedAt.value
  {
    var since := if j.updatedAt.Some? then j.updatedAt.value else now;
    now >= since + Delay(base, j.attempts)
  }

  /** `get_config_value("exp_backoff_base") or 2`: the configured base, with 0 read as 2. */
  function BackoffBase(config: map<string, string>): (r: Result<int>)
    ensures Storage.GetConfigValue(config, "exp_backoff_base").Err? ==>
      r == Err(Storage.GetConfigValue(config, "exp_backoff_base").error)
    ensures Storage.GetConfigValue(config, "exp_backoff_base") == Ok(0) ==> r == Ok(2)
    ensures Storage.GetConfigValue(config, "exp_backoff_base").Ok? && Storage.GetConfigValue(config, "exp_backoff_base").value != 0 ==>
      r == Storage.GetConfigValue(config, "exp_backoff_base")
  {
    match Storage.GetConfigValue(config, "exp_backoff_base")
    case Err(e) => Err(e)
    case Ok(base) => Ok(if base == 0 then 2 else base)
  }

  /** With a base of at least 2, every further failure at least doubles the wait. */
  lemma BackoffDoubles(base: int, attempts: nat)
    requires base >= 2 && attempts >= 1
    ensures Delay(base, attempts) >= 1
    ensures Delay(base, attempts + 1) >= 2 * Delay(base, attempts)
  {
    var p := Pow(base, attempts);
    assert Pow(base, attempts + 1) == base * p;
    assert base * p == 2 * p + (base - 2) * p;
    assert (base - 2) * p >= 0;
  }

  /**
   * A job whose `updated_at` is NULL is eligible exactly when its delay is not
   * positive; for a positive base, exactly when it has never been attempted.
   */
  lemma NeverUpdatedJob(j: Job, base: int, now: int)
    requires j.updatedAt.None?
    ensures Eligible(j, base, now) <==> Delay(base, j.attempts) <= 0
    ensures base >= 1 ==> (Eligible(j, base, now) <==> j.attempts == 0)
  {
  }

  /**
   * After a failure sends a job back to pending at time `t`, it becomes
   * claimable exactly `base^attempts` seconds later, and not at `t` itself.
   */
  lemma RetriedJobWaits(j: Job, base: int, t: int, now: int)
    requires base >= 1
    requires JobManager.RetriedRow(j, t).state == Pending
    ensures Eligible(JobManager.RetriedRow(j, t), base, now) <==> now >= t + Pow(base, j.attempts + 1)
    ensures !Eligible(JobManager.RetriedRow(j, t), base, t)
  {
  }

  /**
   * `force_retry` does not bypass the backoff: a job revived from the DLQ at
   * time `t` with attempts behind it still waits `base^attempts` seconds.
   */
  lemma RevivedJobStillWaits(j: Job, base: int, t: int, now: int)
    requires base >= 1 && j.attempts >= 1
    ensures Eligible(JobManager.RevivedRow(j, t), base, now) <==> now >= t + Pow(base, j.attempts)
    ensures !Eligible(JobManager.RevivedRow(j, t), base, t)
  {
  }

  /** Eligibility does not depend on `force_retry`. */
  lemma EligibilityIgnoresForceRetry(j: Job, force: bool, base: int, now: int)
    ensures Eligible(j.(forceRetry := force), base, now) == Eligible(j, base, now)
  {
  }

  // ----- the claim -----

  /** `queue[i]` is the first job of `queue` that is eligible. */
  predicate FirstEligible(queue: seq<Job>, base: int, now: int, i: int) {
    && 0 <= i < |queue|
    && Eligible(queue[i], base, now)
    && forall k :: 0 <= k < i ==> !Eligible(queue[k], base, now)
  }

  /** `j` is the job a claim at `now` picks from `queue` under `config`. */
  predicate IsNextClaim(queue: seq<Job>, config: map<string, string>, now: int, j: Job) {
    && BackoffBase(config).Ok?
    && exists i :: 0 <= i < |queue| && FirstEligible(queue, BackoffBase(config).value, now, i) && queue[i] == j
  }

  /** A claim at `now` finds nothing: the base cannot be read, or no queued job is eligible. */
  predicate NothingClaimable(queue: seq<Job>, config: map<string, string>, now: int) {
    BackoffBase(config).Err? || forall j :: j in queue ==> !Eligible(j, BackoffBase(config).value, now)
  }

  /** The first eligible job of `queue`, if any. */
  function FirstEligibleJob(queue: seq<Job>, base: int, now: int): (r: Option<Job>)
    ensures r.Some? ==> r.value in queue && Eligible(r.value, base, now)
  {
    if queue == [] then None
    else if Eligible(queue[0], base, now) then Some(queue[0])
    else FirstEligibleJob(queue[1..], base, now)
  }

  lemma {:induction false} FirstEligibleJobSpec(queue: seq<Job>, base: int, now: int)
    ensures FirstEligibleJob(queue, base, now).None? <==> forall k :: 0 <= k < |queue| ==> !Eligible(queue[k], base, now)
    ensures forall i :: FirstEligible(queue, base, now, i) ==> FirstEligibleJob(queue, base, now) == Some(queue[i])
  {
    if queue != [] && !Eligible(queue[0], base, now) {
      var tail := queue[1..];
      FirstEligibleJobSpec(tail, base, now);
      forall i | FirstEligible(queue, base, now, i) ensures FirstEligibleJob(queue, base, now) == Some(queue[i]) {
        assert FirstEligible(tail, base, now, i - 1);
      }
      if forall k :: 0 <= k < |tail| ==> !Eligible(tail[k], base, now) {
        forall k | 0 <= k < |queue| ensures !Eligible(queue[k], base, now) {
          if k > 0 {
            assert queue[k] == tail[k - 1];
          }
        }
      }
    }
  }

  /** What a claim at `now` picks from `queue` under `config`: nothing if the base cannot be read. */
  function Claim(queue: seq<Job>, config: map<string, string>, now: int): (r: Option<Job>)
    ensures r.Some? ==> r.value in queue && BackoffBase(config).Ok? && Eligible(r.value, BackoffBase(config).value, now)
  {
    if BackoffBase(config).Err? then None else FirstEligibleJob(queue, BackoffBase(config).value, now)
  }

  /** The claim picks the first eligible job, and comes back empty exactly when no job is eligible. */
  lemma ClaimSpec(queue: seq<Job>, config: map<string, string>, now: int)
    ensures forall j :: Claim(queue, config, now) == Some(j) <==> IsNextClaim(queue, config, now, j)
    ensures Claim(queue, config, now).None? <==> NothingClaimable(queue, config, now)
  {
    if BackoffBase(config).Ok? {
      var base := BackoffBase(config).value;
      FirstEligibleJobSpec(queue, base, now);
      if FirstEligibleJob(queue, base, now).Some? {
        var k :| 0 <= k < |queue| && Eligible(queue[k], base, now);
        var i := FirstIndex(queue, base, now, k);
        assert FirstEligible(queue, base, now, i);
      }
    }
  }

  /** An eligible job at `k` means there is a first eligible one at or before `k`. */
  lemma {:induction false} FirstIndex(queue: seq<Job>, base: int, now: int, k: int) returns (i: int)
    requires 0 <= k < |queue| && Eligible(queue[k], base, now)
    ensures FirstEligible(queue, base, now, i) && i <= k
    decreases k
  {
    if exists m :: 0 <= m < k && Eligible(queue[m], base, now) {
      var m :| 0 <= m < k && Eligible(queue[m], base, now);
      i := FirstIndex(queue, base, now, m);
    } else {
      i := k;
    }
  }

  /** The pending jobs in creation order, as the claim's SELECT returns them from the table. */
  function PendingQueue(jobs: map<string, Job>, rows: seq<string>): (q: seq<Job>)
    requires Storage.WellFormed(jobs, rows)
    ensures Storage.SortedByCreation(q)
    ensures forall j :: j in q ==> j.state == Pending
  {
    PendingQueueMembers(jobs, rows);
    Storage.Listing(jobs, rows, Some("pending"))
  }

  /** The queue holds exactly the stored rows that are pending. */
  lemma PendingQueueMembers(jobs: map<string, Job>, rows: seq<string>)
    requires Storage.WellFormed(jobs, rows)
    ensures Storage.SortedByCreation(Storage.Listing(jobs, rows, Some("pending")))
    ensures forall j :: j in Storage.Listing(jobs, rows, Some("pending")) <==> Storage.Stored(jobs, j) && j.state == Pending
  {
    Storage.ListingSpec(jobs, rows, Some("pending"));
    forall j ensures Storage.Selected(j, Some("pending")) <==> j.state == Pending {
      Storage.SelectedByName(j, "pending");
    }
  }

  /**
   * The scan of the claim: walk the queue in order and stop at the first
   * eligible job; later jobs are not looked at and ineligible earlier ones do
   * not block.
   */
  method SelectJob(queue: seq<Job>, base: int, now: int) returns (selected: Option<nat>)
    ensures selected.Some? ==> FirstEligible(queue, base, now, selected.value)
    ensures selected.None? ==> forall k :: 0 <= k < |queue| ==> !Eligible(queue[k], base, now)
  {
    selected := None;
    var i := 0;
    while i < |queue|
      invariant 0 <= i <= |queue|
      invariant forall k :: 0 <= k < i ==> !Eligible(queue[k], base, now)
    {
      if Eligible(queue[i], base, now) {
        selected := Some(i);
        break;
      }
      i := i + 1;
    }
  }

  /** The row the claim writes: processing, stamped now; the attempt count is untouched. */
  function ClaimedRow(j: Job, now: int): (r: Job)
    ensures r.state == Processing && r.updatedAt == Some(now)
    ensures r.attempts == j.attempts
    ensures r.(state := j.state, updatedAt := j.updatedAt) == j
  {
    j.(state := Processing, updatedAt := Some(now))
  }

  /**
   * `fetch_next_job`: reads the backoff base (an error means no job), picks
   * the first eligible pending job and moves it to processing with an UPDATE
   * guarded by `state = 'pending'`; a guard that matches nothing also means no
   * job. Only the claimed row changes. The row is returned as it was read.
   */
  method FetchNextJob(db: Storage.Database, now: int) returns (job: Option<Job>)
    requires db.Valid()
    modifies db
    ensures db.Valid() && db.rows == old(db.rows) && db.config == old(db.config)
    ensures job == Claim(PendingQueue(old(db.jobs), old(db.rows)), old(db.config), now)
    ensures job.None? ==> db.jobs == old(db.jobs)
    ensures job.Some? ==>
      && Storage.Stored(old(db.jobs), job.value) && job.value.state == Pending
      && db.jobs == old(db.jobs)[job.value.id := ClaimedRow(job.value, now)]
  {
    var base := BackoffBase(db.config);
    if base.Err? {
      return None;
    }
    var queue := PendingQueue(db.jobs, db.rows);
    PendingQueueMembers(db.jobs, db.rows);
    FirstEligibleJobSpec(queue, base.value, now);
    var selected := SelectJob(queue, base.value, now);
    if selected.None? {
      return None;
    }
    var picked := queue[selected.value];
    assert picked in queue;
    StampedRowUnaffected(ClaimedRow(picked, now), now);
    var rowcount := db.Update(picked.id, ClaimedRow(picked, now), Some(Pending), now);
    job := if rowcount == 0 then None else Some(picked);
  }

  // ----- the worker loop -----

  /** The row written when the command succeeds: completed, stamped; `force_retry` is left as it was. */
  function CompletedRow(j: Job, now: int): (r: Job)
    ensures r.state == Completed && r.updatedAt == Some(now)
    ensures r.forceRetry == j.forceRetry && r.attempts == j.attempts
    ensures r.(state := j.state, updatedAt := j.updatedAt) == j
  {
    j.(state := Completed, updatedAt := Some(now))
  }

  /** The row left behind by running a claimed job: completed on success, `retry_job`'s row on failure. */
  function FinishedRow(j: Job, succeeded: bool, now: int): (r: Job)
    ensures succeeded ==> r.state == Completed
    ensures !succeeded ==> r.state in {Pending, Dead} && r.attempts == j.attempts + 1
    ensures r.updatedAt == Some(now) && r.forceRetry == j.forceRetry
    ensures r.id == j.id && r.command == j.command && r.maxRetries == j.maxRetries && r.createdAt == j.createdAt
    ensures r.attempts >= j.attempts
  {
    if succeeded then CompletedRow(j, now) else JobManager.RetriedRow(j, now)
  }

  /**
   * The update after the command has run: on success `UPDATE jobs SET
   * state='completed'`, on failure `retry_job`.
   */
  method FinishJob(db: Storage.Database, id: string, succeeded: bool, now: int)
    requires db.Valid()
    modifies db
    ensures db.Valid() && db.rows == old(db.rows) && db.config == old(db.config)
    ensures id !in old(db.jobs) ==> db.jobs == old(db.jobs)
    ensures id in old(db.jobs) ==> db.jobs == old(db.jobs)[id := FinishedRow(old(db.jobs)[id], succeeded, now)]
  {
    if succeeded {
      // an UPDATE whose WHERE matches no row changes nothing
      if id in db.jobs {
        var row := CompletedRow(db.jobs[id], now);
        StampedRowUnaffected(row, now);
        var _ := db.Update(id, row, None, now);
      }
    } else {
      // retry_job's "not found" error is caught and only reported
      var _ := JobManager.RetryJob(db, id, now);
    }
  }

  /**
   * What one pass of the loop sees from outside: the time of the claim, the
   * time the command finished, whether it succeeded (exit status 0), and
   * whether a stop signal arrived during the pass.
   */
  datatype Tick = Tick(claimAt: int, finishAt: int, succeeded: bool, signalled: bool)

  /**
   * One pass of `run_worker_loop` after the shutdown check: claim a job; if
   * there is none, only sleep. Otherwise run it and record the outcome.
   */
  method RunIteration(db: Storage.Database, tick: Tick) returns (claimed: Option<Job>)
    requires db.Valid()
    modifies db
    ensures db.Valid() && db.rows == old(db.rows) && db.config == old(db.config)
    ensures claimed == Claim(PendingQueue(old(db.jobs), old(db.rows)), old(db.config), tick.claimAt)
    ensures db.jobs == Pass(old(db.jobs), old(db.rows), old(db.config), tick)
  {
    ghost var jobs := db.jobs;
    claimed := FetchNextJob(db, tick.claimAt);
    if claimed.Some? {
      var j := claimed.value;
      ghost var claimedRow := ClaimedRow(j, tick.claimAt);
      ghost var row := FinishedRow(claimedRow, tick.succeeded, tick.finishAt);
      FinishJob(db, j.id, tick.succeeded, tick.finishAt);
      OverwriteTwice(jobs, j.id, claimedRow, row);
    }
    // otherwise: sleep for the poll interval
  }

  /**
   * One pass as a change of the jobs table: the claim's pick, if any, is
   * claimed and then finished with the command's outcome; nothing else
   * changes, and only a pending job can change.
   */
  function Pass(jobs: map<string, Job>, rows: seq<string>, config: map<string, string>, tick: Tick): (r: map<string, Job>)
    requires Storage.WellFormed(jobs, rows)
    ensures Storage.WellFormed(r, rows)
    ensures Touched(jobs, r)
  {
    match Claim(PendingQueue(jobs, rows), config, tick.claimAt)
    case None => jobs
    case Some(j) =>
      var row := FinishedRow(ClaimedRow(j, tick.claimAt), tick.succeeded, tick.finishAt);
      PendingQueueMembers(jobs, rows);
      PassTouches(jobs, j, row);
      jobs[j.id := row]
  }

  /** The passes for `ticks`, one after the other. */
  function Passes(jobs: map<string, Job>, rows: seq<string>, config: map<string, string>, ticks: seq<Tick>): (r: map<string, Job>)
    requires Storage.WellFormed(jobs, rows)
    ensures Storage.WellFormed(r, rows)
    ensures Touched(jobs, r)
    decreases |ticks|
  {
    if ticks == [] then jobs
    else
      var before := Passes(jobs, rows, config, ticks[..|ticks| - 1]);
      TouchedTransitive(jobs, before, Pass(before, rows, config, ticks[|ticks| - 1]));
      Pass(before, rows, config, ticks[|ticks| - 1])
  }

  lemma PassesStep(jobs: map<string, Job>, rows: seq<string>, config: map<string, string>, ticks: seq<Tick>, i: nat)
    requires Storage.WellFormed(jobs, rows) && i < |ticks|
    ensures Passes(jobs, rows, config, ticks[..i + 1]) == Pass(Passes(jobs, rows, config, ticks[..i]), rows, config, ticks[i])
  {
    assert ticks[..i + 1][..i] == ticks[..i];
  }

  /**
   * The number of passes the loop makes: none if SHUTDOWN is already set,
   * otherwise passes continue until the one during which the signal arrives,
   * or until the ticks run out.
   */
  function RunLength(ticks: seq<Tick>, shutdown: bool): (n: nat)
    ensures n <= |ticks|
    ensures shutdown ==> n == 0
    ensures !shutdown && ticks != [] ==> n > 0
    ensures !shutdown ==> forall k :: 0 <= k < n - 1 ==> !ticks[k].signalled
    ensures !shutdown && 0 < n < |ticks| ==> ticks[n - 1].signalled
  {
    if shutdown || ticks == [] then 0
    else 1 + RunLength(ticks[1..], ticks[0].signalled)
  }

  /** One more pass: the passes from `i` on are this one and those from `i + 1` on. */
  lemma RunLengthStep(ticks: seq<Tick>, i: nat)
    requires i < |ticks|
    ensures RunLength(ticks[i..], false) == 1 + RunLength(ticks[i + 1..], ticks[i].signalled)
  {
    assert ticks[i..][1..] == ticks[i + 1..];
  }

  /** What the worker may change about a job: its state and times, and its attempt count only upwards. */
  predicate Evolved(before: Job, after: Job) {
    && after.id == before.id
    && after.command == before.command
    && after.maxRetries == before.maxRetries
    && after.createdAt == before.createdAt
    && after.attempts >= before.attempts
  }

  /**
   * How the job table may differ after worker passes: the same ids, every job
   * `Evolved`, and jobs that were not pending left as they were.
   */
  predicate Touched(before: map<string, Job>, after: map<string, Job>) {
    && after.Keys == before.Keys
    && (forall id :: id in before ==> Evolved(before[id], after[id]))
    && (forall id :: id in before && before[id].state != Pending ==> after[id] == before[id])
  }

  /** Rewriting one pending job into a row that `Evolved` from it is `Touched`. */
  lemma PassTouches(jobs: map<string, Job>, j: Job, row: Job)
    requires Storage.Stored(jobs, j) && j.state == Pending && Evolved(j, row)
    ensures Touched(jobs, jobs[j.id := row])
  {
  }

  lemma OverwriteTwice<K, V>(m: map<K, V>, k: K, a: V, b: V)
    ensures m[k := a][k := b] == m[k := b]
  {
  }

  lemma TouchedTransitive(a: map<string, Job>, b: map<string, Job>, c: map<string, Job>)
    requires Touched(a, b) && Touched(b, c)
    ensures Touched(a, c)
  {
  }

  /**
   * The largest number of seconds `time.sleep` accepts: CPython converts the
   * interval to nanoseconds in a signed 64-bit integer, (2^63 - 1) / 10^9.
   */
  const MaxSleepSeconds := 9223372036

  /** `time.sleep(seconds)` raises: a negative interval, or one too large to convert. */
  predicate SleepRaises(seconds: int) {
    seconds < 0 || seconds > MaxSleepSeconds
  }

  /** Pass `k` of a run over `ticks` from the table `jobs` claims nothing, so the worker sleeps. */
  predicate IdlePass(jobs: map<string, Job>, rows: seq<string>, config: map<string, string>, ticks: seq<Tick>, k: nat)
    requires Storage.WellFormed(jobs, rows) && k < |ticks|
  {
    Claim(PendingQueue(Passes(jobs, rows, config, ticks[..k]), rows), config, ticks[k].claimAt).None?
  }

  /**
   * `run_worker_loop`: reads `poll_interval` (a missing or non-integer value
   * is raised before any pass; `or 2` only turns 0 into 2, which sleeps
   * fine), then makes passes while SHUTDOWN is unset, checking it before each
   * claim and after each job. A pass that claims nothing sleeps for the
   * interval; if `time.sleep` rejects it, the error ends the worker at the
   * first such pass. Jobs that were not pending when the loop started are
   * never touched; no job is added or removed; attempts never decrease.
   */
  method RunWorkerLoop(db: Storage.Database, ticks: seq<Tick>, shutdown: bool) returns (r: Result<nat>)
    requires db.Valid()
    modifies db
    ensures db.Valid() && db.rows == old(db.rows) && db.config == old(db.config)
    ensures Storage.GetConfigValue(old(db.config), "poll_interval").Err? ==>
      r == Err(Storage.GetConfigValue(old(db.config), "poll_interval").error) && db.jobs == old(db.jobs)
    ensures Storage.GetConfigValue(old(db.config), "poll_interval").Ok? && r.Ok? ==>
      && r.value == RunLength(ticks, shutdown)
      && db.jobs == Passes(old(db.jobs), old(db.rows), old(db.config), ticks[..RunLength(ticks, shutdown)])
      && (SleepRaises(Storage.GetConfigValue(old(db.config), "poll_interval").value) ==>
            forall k :: 0 <= k < RunLength(ticks, shutdown) ==> !IdlePass(old(db.jobs), old(db.rows), old(db.config), ticks, k))
    ensures Storage.GetConfigValue(old(db.config), "poll_interval").Ok? && r.Err? ==>
      && SleepRaises(Storage.GetConfigValue(old(db.config), "poll_interval").value)
      && r.error == SleepRejected(Storage.GetConfigValue(old(db.config), "poll_interval").value)
      && exists k :: FirstIdlePass(old(db.jobs), old(db.rows), old(db.config), ticks, shutdown, k)
           && db.jobs == Passes(old(db.jobs), old(db.rows), old(db.config), ticks[..k + 1])
    ensures shutdown ==> db.jobs == old(db.jobs)
    ensures shutdown && Storage.GetConfigValue(old(db.config), "poll_interval").Ok? ==> r == Ok(0)
    ensures Touched(old(db.jobs), db.jobs)
  {
    var pollInterval := Storage.GetConfigValue(db.config, "poll_interval");
    if pollInterval.Err? {
      return Err(pollInterval.error);
    }
    var raises := SleepRaises(pollInterval.value);
    ghost var jobs, rows, config := db.jobs, db.rows, db.config;
    var stop := shutdown;
    var i := 0;
    while !stop && i < |ticks|
      invariant 0 <= i <= |ticks|
      invariant db.Valid() && db.rows == rows && db.config == config
      invariant RunLength(ticks, shutdown) == i + RunLength(ticks[i..], stop)
      invariant db.jobs == Passes(jobs, rows, config, ticks[..i])
      invariant raises ==> forall k :: 0 <= k < i ==> !IdlePass(jobs, rows, config, ticks, k)
      invariant shutdown ==> i == 0
    {
      RunLengthStep(ticks, i);
      var idle := NextPass(db, jobs, ticks, i);
      if idle && raises {
        // time.sleep raises, and nothing catches it
        assert FirstIdlePass(jobs, rows, config, ticks, shutdown, i);
        return Err(SleepRejected(pollInterval.value));
      }
      if raises {
        NoIdleStep(jobs, rows, config, ticks, i);
      }
      stop := ticks[i].signalled;
      i := i + 1;
    }
    assert i == RunLength(ticks, shutdown);
    assert ticks[..0] == [];
    r := Ok(i);
  }

  /** Pass `i` of a run from `jobs`, made on the table the earlier passes left; `idle` tells whether it claimed nothing. */
  method NextPass(db: Storage.Database, ghost jobs: map<string, Job>, ticks: seq<Tick>, i: nat) returns (idle: bool)
    requires db.Valid() && Storage.WellFormed(jobs, db.rows) && i < |ticks|
    requires db.jobs == Passes(jobs, db.rows, db.config, ticks[..i])
    modifies db
    ensures db.Valid() && db.rows == old(db.rows) && db.config == old(db.config)
    ensures db.jobs == Passes(jobs, db.rows, db.config, ticks[..i + 1])
    ensures idle == IdlePass(jobs, db.rows, db.config, ticks, i)
  {
    PassesStep(jobs, db.rows, db.config, ticks, i);
    var claimed := RunIteration(db, ticks[i]);
    idle := claimed.None?;
  }

  lemma NoIdleStep(jobs: map<string, Job>, rows: seq<string>, config: map<string, string>, ticks: seq<Tick>, i: nat)
    requires Storage.WellFormed(jobs, rows) && i < |ticks|
    requires forall k :: 0 <= k < i ==> !IdlePass(jobs, rows, config, ticks, k)
    requires !IdlePass(jobs, rows, config, ticks, i)
    ensures forall k :: 0 <= k < i + 1 ==> !IdlePass(jobs, rows, config, ticks, k)
  {
  }

  /** Pass `k` is among those the loop makes, claims nothing, and every earlier pass claimed a job. */
  predicate FirstIdlePass(jobs: map<string, Job>, rows: seq<string>, config: map<string, string>, ticks: seq<Tick>, shutdown: bool, k: nat)
    requires Storage.WellFormed(jobs, rows)
  {
    && k < RunLength(ticks, shutdown)
    && IdlePass(jobs, rows, config, ticks, k)
    && forall k' :: 0 <= k' < k ==> !IdlePass(jobs, rows, config, ticks, k')
  }

  /**
   * Failing a claimed job `n` times in a row (claim, fail, claim, fail, ...)
   * from the row `j`.
   */
  function AfterFailures(j: Job, n: nat, now: int): Job {
    if n == 0 then j
    else JobManager.RetriedRow(ClaimedRow(AfterFailures(j, n - 1, now), now), now)
  }

  /**
   * A freshly enqueued job with `max_retries` = m >= 1 is back in pending
   * after each of its first m - 1 failures and in the DLQ after the m-th, with
   * one attempt counted per failure.
   */
  lemma {:induction false} FreshJobLifecycle(j: Job, n: nat, now: int)
    requires j.attempts == 0 && 1 <= n <= j.maxRetries
    ensures AfterFailures(j, n, now).attempts == n
    ensures AfterFailures(j, n, now).maxRetries == j.maxRetries
    ensures AfterFailures(j, n, now).state == (if n == j.maxRetries then Dead else Pending)
  {
    if n > 1 {
      FreshJobLifecycle(j, n - 1, now);
    }
  }
}
