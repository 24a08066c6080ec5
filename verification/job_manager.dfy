/**
 * Enqueueing, listing, state changes, the retry policy and the dead letter
 * queue (DLQ): the operations the command line calls on the job table.
 */
module JobManager {
  import opened Wrappers
  import opened Schema
  import Storage

  /** The only keys an enqueue payload may carry. */
  const AllowedKeys: set<string> := {"id", "command"}

  /** A payload that passes `enqueue_job`'s own checks and is handed to `insert_job`. */
  predicate PassesEnqueueChecks(payload: Option<Storage.Json>) {
    payload.Some? && payload.value.Object? && payload.value.fields.Keys <= AllowedKeys
  }

  /**
   * `enqueue_job`: rejects text that is not JSON, a value that is not an
   * object and an object with keys other than `id` and `command` without
   * touching the tables; everything else is exactly `insert_job`.
   */
  method EnqueueJob(db: Storage.Database, payload: Option<Storage.Json>, now: int) returns (r: Result<string>)
    requires db.Valid()
    modifies db
    ensures db.Valid() && db.config == old(db.config)
    ensures payload.None? ==> r == Err(InvalidJson)
    ensures payload == Some(Storage.NonObject) ==> r == Err(NotAnObject)
    ensures payload.Some? && payload.value.Object? && !(payload.value.fields.Keys <= AllowedKeys) ==>
      r == Err(InvalidFields(payload.value.fields.Keys - AllowedKeys))
    ensures !PassesEnqueueChecks(payload) ==> db.jobs == old(db.jobs) && db.rows == old(db.rows)
    ensures PassesEnqueueChecks(payload) ==>
      var outcome := Storage.InsertOutcome(old(db.jobs), old(db.config), payload.value, now);
      && (outcome.Err? ==> r == Err(outcome.error) && db.jobs == old(db.jobs) && db.rows == old(db.rows))
      && (outcome.Ok? ==> r == Ok(outcome.value.id)
                          && db.jobs == old(db.jobs)[outcome.value.id := outcome.value]
                          && db.rows == old(db.rows) + [outcome.value.id])
  {
    if payload.None? {
      return Err(InvalidJson);
    }
    var data := payload.value;
    if data.NonObject? {
      return Err(NotAnObject);
    }
    var extra := data.fields.Keys - AllowedKeys;
    if extra != {} {
      return Err(InvalidFields(extra));
    }
    r := Storage.InsertJob(db, data, now);
  }

  /**
   * `list_jobs` of the job manager: a non-empty filter that names no valid
   * state is rejected; otherwise the storage listing.
   */
  function ListJobs(db: Storage.Database, state: Option<string>): (r: Result<seq<Job>>)
    reads db
    requires db.Valid()
    ensures r.Err? <==> state.Some? && state.value != "" && ParseState(state.value).None?
    ensures r.Err? ==> r.error == InvalidState(state.value)
    ensures r.Ok? ==> Storage.SortedByCreation(r.value)
    ensures r.Ok? ==> multiset(r.value) == multiset(Storage.Where(db.Table(), state))
    ensures r.Ok? ==> forall j :: multiset(r.value)[j] <= 1
    ensures r.Ok? && state.Some? && state.value != "" ==>
      forall j :: j in r.value <==> Storage.Stored(db.jobs, j) && j.state == ParseState(state.value).value
    ensures r.Ok? && (state.None? || state.value == "") ==>
      forall j :: j in r.value <==> Storage.Stored(db.jobs, j)
  {
    if state.Some? && state.value != "" && ParseState(state.value).None? then
      Err(InvalidState(state.value))
    else
      var rows := Storage.ListJobs(db, state);
      if state.Some? && state.value != "" then
        forall j ensures Storage.Selected(j, state) <==> j.state == ParseState(state.value).value {
          Storage.SelectedByName(j, state.value);
        }
        Ok(rows)
      else
        Ok(rows)
  }

  /**
   * `update_job_state`: an invalid state is rejected before the table is
   * read, an unknown id next; otherwise only that row's state changes, and
   * the trigger stamps `updated_at` unless the new state is pending.
   */
  method UpdateJobState(db: Storage.Database, id: string, newState: string, now: int) returns (r: Result<State>)
    requires db.Valid()
    modifies db
    ensures db.Valid() && db.rows == old(db.rows) && db.config == old(db.config)
    ensures ParseState(newState).None? ==> r == Err(InvalidState(newState)) && db.jobs == old(db.jobs)
    ensures ParseState(newState).Some? && id !in old(db.jobs) ==> r == Err(JobNotFound(id)) && db.jobs == old(db.jobs)
    ensures ParseState(newState).Some? && id in old(db.jobs) ==>
      var s := ParseState(newState).value;
      && r == Ok(s)
      && db.jobs == old(db.jobs)[id := AfterStateUpdate(old(db.jobs)[id].(state := s), now)]
  {
    var s := ParseState(newState);
    if s.None? {
      return Err(InvalidState(newState));
    }
    if id !in db.jobs {
      return Err(JobNotFound(id));
    }
    var _ := db.Update(id, db.jobs[id].(state := s.value), None, now);
    r := Ok(s.value);
  }

  /**
   * The row `retry_job` writes for a failed job: one more attempt, then the
   * DLQ (`dead`) once the attempts reach `max_retries`, otherwise back to
   * pending; `updated_at` restarts the backoff clock. Nothing else changes,
   * whatever state the job was in.
   */
  function RetriedRow(j: Job, now: int): (r: Job)
    ensures r.attempts == j.attempts + 1
    ensures r.state == Dead <==> j.attempts + 1 >= j.maxRetries
    ensures r.state == Pending <==> j.attempts + 1 < j.maxRetries
    ensures r.updatedAt == Some(now)
    ensures r.(state := j.state, attempts := j.attempts, updatedAt := j.updatedAt) == j
  {
    var attempts := j.attempts + 1;
    if attempts >= j.maxRetries then j.(state := Dead, attempts := attempts, updatedAt := Some(now))
    else j.(state := Pending, attempts := attempts, updatedAt := Some(now))
  }

  /** What `retry_job` reports: the job, its new attempt count, and whether it went to the DLQ. */
  datatype RetryReply = RetryReply(id: string, attempts: nat, movedToDlq: bool)

  /** `retry_job`: an unknown id raises and changes nothing; otherwise the row becomes `RetriedRow`. */
  method RetryJob(db: Storage.Database, id: string, now: int) returns (r: Result<RetryReply>)
    requires db.Valid()
    modifies db
    ensures db.Valid() && db.rows == old(db.rows) && db.config == old(db.config)
    ensures id !in old(db.jobs) ==> r == Err(JobNotFound(id)) && db.jobs == old(db.jobs)
    ensures id in old(db.jobs) ==>
      var j := old(db.jobs)[id];
      && db.jobs == old(db.jobs)[id := RetriedRow(j, now)]
      && r == Ok(RetryReply(id, j.attempts + 1, j.attempts + 1 >= j.maxRetries))
  {
    if id !in db.jobs {
      return Err(JobNotFound(id));
    }
    var j := db.jobs[id];
    var attempts := j.attempts + 1;
    var row := RetriedRow(j, now);
    StampedRowUnaffected(row, now);
    var _ := db.Update(id, row, None, now);
    r := Ok(RetryReply(id, attempts, attempts >= j.maxRetries));
  }

  // ----- status summary -----

  /** The number of rows in `state` (SELECT COUNT(*) ... GROUP BY state). */
  function CountState(table: seq<Job>, state: State): (n: nat)
    ensures n <= |table|
    ensures n > 0 <==> exists j :: j in table && j.state == state
  {
    if table == [] then 0
    else CountState(table[..|table| - 1], state) + (if table[|table| - 1].state == state then 1 else 0)
  }

  /**
   * `SELECT state, COUNT(*) FROM jobs GROUP BY state`: one entry per state
   * that occurs in the table, holding its number of rows.
   */
  function GroupByState(table: seq<Job>): (m: map<State, nat>)
    ensures forall s :: s in m ==> m[s] == CountState(table, s) && m[s] > 0
    ensures forall s :: s !in m ==> CountState(table, s) == 0
  {
    if table == [] then map[]
    else
      var m := GroupByState(table[..|table| - 1]);
      var s := table[|table| - 1].state;
      m[s := if s in m then m[s] + 1 else 1]
  }

  /**
   * `get_status_summary`: the GROUP BY counts, then `setdefault(s, 0)` for
   * each valid state; every state is reported with the number of its rows.
   */
  method GetStatusSummary(db: Storage.Database) returns (summary: map<State, nat>)
    requires db.Valid()
    ensures forall s :: s in summary
    ensures forall s :: s in summary ==> summary[s] == CountState(db.Table(), s)
  {
    var table := db.Table();
    summary := GroupByState(table);
    for i := 0 to |AllStates|
      invariant forall s :: s in summary ==> summary[s] == CountState(table, s)
      invariant forall s :: s !in summary ==> CountState(table, s) == 0
      invariant forall s :: s in AllStates[..i] ==> s in summary
    {
      var s := AllStates[i];
      if s !in summary {
        summary := summary[s := 0];
      }
    }
    assert AllStates[..|AllStates|] == AllStates;
    forall s ensures s in summary {
      EveryStateListed(s);
    }
  }

  /** The five counts of a summary add up to the number of jobs. */
  lemma {:induction false} SummaryTotal(table: seq<Job>)
    ensures CountState(table, Pending) + CountState(table, Processing) + CountState(table, Completed)
            + CountState(table, Failed) + CountState(table, Dead) == |table|
  {
    if table != [] {
      SummaryTotal(table[..|table| - 1]);
    }
  }

  // ----- dead letter queue -----

  /** `list_dlq`: the jobs in the DLQ, ordered by creation time. */
  function ListDlq(db: Storage.Database): (r: seq<Job>)
    reads db
    requires db.Valid()
    ensures Storage.SortedByCreation(r)
    ensures multiset(r) == multiset(Storage.Where(db.Table(), Some("dead")))
    ensures forall j :: multiset(r)[j] <= 1
    ensures forall j :: j in r <==> Storage.Stored(db.jobs, j) && j.state == Dead
  {
    forall j ensures Storage.Selected(j, Some("dead")) <==> j.state == Dead {
      Storage.SelectedByName(j, "dead");
    }
    Storage.ListJobs(db, Some("dead"))
  }

  /**
   * The row `retry_dlq` writes: back to pending with `force_retry` set and
   * `updated_at` stamped. The attempt count is kept, not reset.
   */
  function RevivedRow(j: Job, now: int): (r: Job)
    ensures r.state == Pending && r.forceRetry && r.updatedAt == Some(now)
    ensures r.attempts == j.attempts && r.maxRetries == j.maxRetries
    ensures r.(state := j.state, forceRetry := j.forceRetry, updatedAt := j.updatedAt) == j
  {
    j.(state := Pending, forceRetry := true, updatedAt := Some(now))
  }

  /**
   * `retry_dlq`: only a job that exists and is dead can be revived; anything
   * else raises and changes nothing.
   */
  method RetryDlq(db: Storage.Database, id: string, now: int) returns (r: Result<string>)
    requires db.Valid()
    modifies db
    ensures db.Valid() && db.rows == old(db.rows) && db.config == old(db.config)
    ensures r.Ok? <==> id in old(db.jobs) && old(db.jobs)[id].state == Dead
    ensures r.Err? ==> r == Err(DlqJobNotFound(id)) && db.jobs == old(db.jobs)
    ensures r.Ok? ==> r.value == id && db.jobs == old(db.jobs)[id := RevivedRow(old(db.jobs)[id], now)]
  {
    if !(id in db.jobs && db.jobs[id].state == Dead) {
      return Err(DlqJobNotFound(id));
    }
    var _ := db.Update(id, RevivedRow(db.jobs[id], now), Some(Dead), now);
    r := Ok(id);
  }

  /**
   * Because reviving keeps the attempt count, a job that reached the DLQ by
   * exhausting its retries goes straight back there on its next failure.
   */
  lemma RevivedExhaustedJobDiesOnNextFailure(j: Job, revivedAt: int, failedAt: int)
    requires j.state == Dead && j.attempts >= j.maxRetries
    ensures RetriedRow(RevivedRow(j, revivedAt), failedAt).state == Dead
    ensures RetriedRow(RevivedRow(j, revivedAt), failedAt).attempts == j.attempts + 1
  {
  }
}
