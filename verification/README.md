# queuectl job queue — a Dafny model

queuectl is a command-line job queue backed by one SQLite file. Jobs are shell
commands that move through five states (`pending`, `processing`, `completed`,
`failed`, `dead`); worker processes claim pending jobs under an exponential
backoff, run them, and either complete them or hand them to the retry policy,
which eventually moves them to the dead letter queue (DLQ). An operator can
revive a dead job, list and update jobs, and read and change the
configuration (`max_retries`, `exp_backoff_base`, `poll_interval`).

This project models the job table, the configuration table and every rule that
changes them, and proves what each operation promises.

- `wrappers.dfy`: `Option`.
- `decimal.dfy` (module `Decimal`): Python's `int()` on stored configuration
  text and `str()` back. Proved: reading back the model's decimal rendering of an
  integer gives that integer. CPython's 4300-digit limit on both conversions is
  not part of the model (see "## Left out").
- `schema.dfy` (module `Schema`): the five states and their stored names, the job
  row, the errors, and the `trg_update_timestamp` trigger as a function on rows.
- `storage.dfy` (module `Storage`): the database file as a class `Database`.
  - Fields: `jobs` (a map from primary key to row), `rows` (the ids in rowid order)
    and `config`.
  - Every SQL `UPDATE` is one call of `Database.Update`, which also applies the trigger.
  - `INSERT` is `Database.Insert`.
  - `ORDER BY created_at` is a stable insertion sort over rowid order.
  - Also here: `insert_job`, `list_jobs`, `get_config_value` and the seeding part of `init_db`.
- `config_manager.dfy` (module `ConfigManager`): `list_config`, `get_config` and
  `set_config`.
- `job_manager.dfy` (module `JobManager`): `enqueue_job`, `list_jobs`,
  `update_job_state`, `retry_job`, `get_status_summary`, `list_dlq` and `retry_dlq`.
- `worker.dfy` (module `Worker`): the backoff eligibility rule, `fetch_next_job`
  (the scan as a `while` loop with `break`, then the guarded update), one pass of
  `run_worker_loop`, and the loop itself.
  - The loop consumes one `Tick` per pass: the claim time, the finish time,
    whether the command exited with status 0, and whether a stop signal arrived.

Time is an integer number of seconds, passed to each operation as `now`.
Each SQL statement is one atomic step.

Where the design documentation and the code disagree, the model follows the code:

- A failure moves a job to the DLQ when `attempts + 1 >= max_retries`.
  - So with `max_retries = 2` the job is dead after its second failure, not its third.
  - `FreshJobLifecycle` proves the general case: a fresh job dies on failure number `max_retries`.
- `retry_dlq` sets `force_retry` and keeps the attempt count.
  - Nothing reads `force_retry`, and nothing clears it.
  - A revived job still waits out its backoff (`RevivedJobStillWaits`).
  - If it had exhausted its retries, its next failure sends it straight back to the DLQ
    (`RevivedExhaustedJobDiesOnNextFailure`).
- The worker reads only the in-process shutdown flag. It never polls the stop-flag file.
- `retry_job` does not look at the job's current state.
- A missing or non-integer `poll_interval` raises before the loop's first pass.
- A negative `poll_interval`, or one above 9223372036 seconds, is accepted at start-up. `time.sleep` then raises at the first pass that claims nothing. Nothing catches that error, so the worker ends there (`Worker.RunWorkerLoop`).
- A configuration error during a claim is caught, and the claim returns no job.

## Model

| member | source | states |
|---|---|---|
| Decimal.ParseInt | queuectl/storage/db.py:92 | `int()` on plain decimal text: an optional sign and digits; text of digits always parses, empty text never does, and a negative value needs a leading `-` |
| Decimal.NatRoundTrip | queuectl/storage/db.py:92 | the digits written for a natural number read back as that number |
| Decimal.IntRoundTrip | queuectl/storage/db.py:92 | the model's parse of the model's decimal rendering of `n` is `n` for every integer, signs included |
| Schema.ParseState | queuectl/constants.py:5-11 | a text is a valid state exactly when some state has it as its stored name, and then it names that state |
| Schema.StateNameInjective | queuectl/constants.py:5-11 | distinct states have distinct stored names |
| Schema.AfterStateUpdate | queuectl/storage/db.py:55-65 | after a state update, a row whose new state is not pending has `updated_at` = now; a pending row keeps its `updated_at`; no other column changes |
| Schema.StampedRowUnaffected | queuectl/storage/db.py:55-65 | an update that already stamps `updated_at` with now is left as it is by the trigger |
| Storage.Database.constructor | queuectl/storage/db.py:22-52 | a new database file has empty tables and is well formed |
| Storage.Database.Table | queuectl/storage/db.py:139 | `SELECT * FROM jobs` yields one row per rowid entry, each the stored row |
| Storage.Database.Insert | queuectl/storage/db.py:120-126 | an insert succeeds exactly when the primary key is free, appending the row in rowid order; a taken key changes nothing |
| Storage.Database.Update | queuectl/core/worker.py:72-81 | `UPDATE ... WHERE id = ? [AND state = ?]` changes one row exactly when the id exists and the guard holds, reports the row count, applies the trigger, and changes nothing else |
| Storage.InRows | queuectl/storage/db.py:139 | a row is in the table exactly when it is the row stored under its id |
| Storage.InitDb | queuectl/storage/db.py:29-38 | an empty configuration table is seeded with the three defaults; a non-empty one and the jobs are left unchanged |
| Storage.DefaultConfigValues | queuectl/storage/db.py:33-38 | the seeded defaults read back as the integers 3, 2 and 2 |
| Storage.GetConfigValue | queuectl/storage/db.py:83-92 | a missing key raises; a value `int()` rejects raises; otherwise the result is the integer the text denotes |
| Storage.ConfigValueRoundTrip | queuectl/storage/db.py:83-92 | an integer stored as text is read back as that integer |
| Storage.InsertOutcome | queuectl/storage/db.py:95-129 | errors in the code's order: not a dictionary, missing `id`/`command` (naming the missing ones), config lookup error, duplicate id; otherwise a pending row with 0 attempts, the configured `max_retries`, created now, NULL `updated_at`, `force_retry` 0 |
| Storage.InsertJob | queuectl/storage/db.py:95-129 | on an error the tables are unchanged; otherwise exactly the new row is added, last in rowid order |
| Storage.Selected | queuectl/storage/db.py:136-139 | the `WHERE state = ?` filter: a non-empty name that is not one of the five states selects no row |
| Storage.SelectedByName | queuectl/storage/db.py:136-139 | a non-empty filter naming a valid state selects exactly the rows in that state |
| Storage.Where | queuectl/storage/db.py:136-139 | the filtered rows are exactly the table rows the filter selects |
| Storage.InsertByCreationPermutes | queuectl/storage/db.py:137-139 | inserting into the ordered rows adds exactly that row |
| Storage.InsertByCreationSorts | queuectl/storage/db.py:137-139 | inserting into rows ordered by `created_at` keeps them ordered |
| Storage.SortByCreation | queuectl/storage/db.py:137-139 | `ORDER BY created_at`: the sorted rows are a permutation of the input rows |
| Storage.SortByCreationSorts | queuectl/storage/db.py:137-139 | `ORDER BY created_at` yields a permutation of its input with non-decreasing creation times |
| Storage.ListingSpec | queuectl/storage/db.py:132-142 | the listing of a table's contents is ordered by creation time, is a permutation of the selected rows, and holds exactly the stored rows the filter selects |
| Storage.ListingOnce | queuectl/storage/db.py:132-142 | the listing holds each row at most once, since the table's rows carry distinct ids |
| Storage.ListJobs | queuectl/storage/db.py:132-142 | the result is ordered by creation time and is a permutation of the selected rows; it holds exactly the stored rows the filter selects (all rows for a missing or empty filter), each once |
| ConfigManager.ListConfig | queuectl/core/config_manager.py:7-13 | the returned map has the table's keys and values |
| ConfigManager.GetConfig | queuectl/core/config_manager.py:15-23 | a stored key yields its text; a missing key raises |
| ConfigManager.SetConfig | queuectl/core/config_manager.py:25-39 | afterwards `get_config(key)` yields the value (overwriting an existing entry); every other key reads as before; at most one key is added; jobs are untouched; the reply echoes key and value |
| JobManager.EnqueueJob | queuectl/core/job_manager.py:22-37 | text that is not JSON, a non-object and extra keys are rejected with the tables unchanged; any other payload has exactly `insert_job`'s outcome |
| JobManager.ListJobs | queuectl/core/job_manager.py:41-44 | a non-empty filter that is not a valid state raises; otherwise the rows are ordered by creation time, are a permutation of the selected table rows (each job once), and are exactly the stored jobs in that state, or all jobs for a missing or empty filter |
| JobManager.UpdateJobState | queuectl/core/job_manager.py:48-63 | an invalid state raises before the table is read; an unknown id raises; otherwise only that job's state changes, and `updated_at` is stamped through the trigger unless the new state is pending |
| JobManager.RetriedRow | queuectl/core/job_manager.py:77-100 | one more attempt; dead if and only if the attempts reach `max_retries`, pending otherwise; `updated_at` = now; nothing else changes |
| JobManager.RetryJob | queuectl/core/job_manager.py:67-105 | an unknown id raises and changes nothing; otherwise only that row becomes the retried row, whatever its state, and the reply gives the new attempt count and whether it went to the DLQ |
| JobManager.CountState | queuectl/core/job_manager.py:112 | `COUNT(*)` for one state: at most the number of rows, and positive exactly when some row is in that state |
| JobManager.GroupByState | queuectl/core/job_manager.py:112-116 | one entry per state present in the table, holding its positive count; absent states have count 0 |
| JobManager.GetStatusSummary | queuectl/core/job_manager.py:109-119 | every one of the five states is reported, each with the number of jobs in it (0 when there are none) |
| JobManager.SummaryTotal | queuectl/core/job_manager.py:109-119 | the five counts add up to the number of jobs |
| JobManager.ListDlq | queuectl/core/job_manager.py:124-125 | exactly the dead jobs, each once (a permutation of the dead table rows), ordered by creation time |
| JobManager.RevivedRow | queuectl/core/job_manager.py:143-149 | pending, `force_retry` 1, `updated_at` = now; attempts and `max_retries` kept; nothing else changes |
| JobManager.RetryDlq | queuectl/core/job_manager.py:131-151 | succeeds exactly for an existing dead job, which becomes the revived row; anything else raises with no change |
| JobManager.RevivedExhaustedJobDiesOnNextFailure | queuectl/core/job_manager.py:78-87 | a job that died by exhausting its retries and is revived goes back to the DLQ on its next failure |
| Worker.BackoffBase | queuectl/core/worker.py:39 | the configured base, 0 replaced by 2; a configuration error is passed on |
| Worker.Pow | queuectl/core/worker.py:58 | `base ** attempts`; a positive base to any power is at least 1 |
| Worker.Delay | queuectl/core/worker.py:58 | the backoff delay: 0 for a job with no attempts, at least 1 second for one with attempts under a positive base |
| Worker.Eligible | queuectl/core/worker.py:55-62 | a job with no failures is claimable once its `updated_at` (if any) is reached; under a positive base a job with failures is claimable only if it has an `updated_at`, and only strictly after it |
| Worker.BackoffDoubles | queuectl/core/worker.py:58 | with a base of at least 2, each further attempt at least doubles the delay |
| Worker.NeverUpdatedJob | queuectl/core/worker.py:58-62 | a job with NULL `updated_at` is eligible exactly when its delay is not positive, so for a positive base exactly when it has no attempts |
| Worker.RetriedJobWaits | queuectl/core/worker.py:55-62 | a job sent back to pending at `t` is claimable exactly from `t + base^attempts` on, and not at `t` |
| Worker.RevivedJobStillWaits | queuectl/core/worker.py:44-62 | a job revived at `t` with attempts behind it still waits `base^attempts` seconds |
| Worker.EligibilityIgnoresForceRetry | queuectl/core/worker.py:44-62 | eligibility is the same whatever `force_retry` holds |
| Worker.FirstEligibleJobSpec | queuectl/core/worker.py:54-64 | the scan finds nothing exactly when no queued job is eligible, and otherwise finds the first eligible one |
| Worker.FirstEligibleJob | queuectl/core/worker.py:54-64 | the scan's pick, when there is one, is a job of the queue that is eligible |
| Worker.Claim | queuectl/core/worker.py:39-69 | the claim's pick, when there is one, is a queued job that is eligible under a readable backoff base |
| Worker.ClaimSpec | queuectl/core/worker.py:39-69 | the claim picks a job exactly when that job is the first eligible one in the queue, and finds nothing exactly when the base cannot be read or no job is eligible |
| Worker.PendingQueue | queuectl/core/worker.py:43-49 | the scanned queue, computed from the table's contents, is ordered by creation time and holds only pending jobs |
| Worker.PendingQueueMembers | queuectl/core/worker.py:43-49 | the queue is ordered by creation time and holds exactly the stored pending rows |
| Worker.SelectJob | queuectl/core/worker.py:51-64 | the loop returns the index of the first eligible job, skipping ineligible earlier ones, or none when no job is eligible |
| Worker.ClaimedRow | queuectl/core/worker.py:72-76 | processing, `updated_at` = now, attempts unchanged, nothing else changes |
| Worker.FetchNextJob | queuectl/core/worker.py:35-91 | the result is the claim's pick from the pending queue as it was; with no pick nothing changes; otherwise it is a stored pending row and only that row becomes the claimed row |
| Worker.CompletedRow | queuectl/core/worker.py:130-133 | completed, `updated_at` = now, `force_retry` and attempts kept |
| Worker.FinishedRow | queuectl/core/worker.py:125-148 | success gives a completed row; failure gives `retry_job`'s row (pending or dead, one more attempt); identity, command, `max_retries` and `created_at` are kept, and `force_retry` is not cleared |
| Worker.FinishJob | queuectl/core/worker.py:125-148 | only the finished job's row changes, to the finished row; an unknown id changes nothing |
| Worker.RunIteration | queuectl/core/worker.py:113-148 | the job claimed is the claim's pick, and the table afterwards is exactly `Pass` of the table before |
| Worker.Pass | queuectl/core/worker.py:113-148 | one pass as a change of the table: the claim's pick is claimed and finished with the command's outcome, nothing else changes; the table stays well formed, no job is added or removed, attempts never decrease, only a pending job changes |
| Worker.Passes | queuectl/core/worker.py:112-153 | a run of passes one after the other keeps the table well formed, and every job only evolves as a single pass allows |
| Worker.RunLength | queuectl/core/worker.py:112-153 | no pass when shutdown is already set; otherwise passes continue until the one during which the signal arrives, and none after it |
| Worker.RunWorkerLoop | queuectl/core/worker.py:106-155 | a missing or non-integer `poll_interval` raises with no change. If `time.sleep` accepts the interval, the loop makes `RunLength` passes, and the table afterwards is exactly `Passes` over the ticks of those passes, so no job is claimed after the pass during which the stop signal arrives. If `time.sleep` rejects the interval, the loop ends with `SleepRejected` right after the first of those passes that claims nothing, with the table as `Passes` left it; it ends normally only when every pass claimed a job; with shutdown already set nothing changes; no job is added or removed, attempts never decrease, and jobs that were not pending at the start are untouched |
| Worker.FreshJobLifecycle | queuectl/core/job_manager.py:78-100 | a fresh job that is claimed and fails `n` times has `n` attempts and is pending until failure number `max_retries`, when it is dead |

## Left out

- Running the command (`subprocess.run`) is an input: each pass is told whether the command succeeded.
- Concurrency between workers is not modelled. This covers `BEGIN IMMEDIATE`, rollback, and the race in which the guarded claim update matches no row.
  - Each statement is one atomic step.
  - In a sequential run the guard always matches.
  - `Storage.Database.Update` states what the guard does when it fails.
- Connections, and the `ALTER TABLE` migration in `init_db`, are not modelled. Creating the tables and the trigger appears only as the empty `Database` and `Schema.AfterStateUpdate`.
- Clock values and timestamp formats are abstracted to integer seconds. The model does not capture:
  - `DATETIME('now')` versus `isoformat()` text;
  - sub-second precision;
  - `timedelta` overflow for a huge delay (next line).
- Worker.Eligible, Worker.SelectJob, Worker.ClaimSpec: once `updated_at + base^attempts` passes the year 9999, the eligibility test raises. The claim's `except` then returns no job. So a pending job with such a delay blocks every job behind it in the queue, on every claim. The model instead treats that job as not yet eligible and moves on to the jobs behind it.
- Decoding JSON is not modelled: the payload arrives already parsed. JSON values other than strings for `id` and `command` are not modelled.
- Decimal.ParseInt: accepts only ASCII digits; Python's `int()` also accepts surrounding whitespace, digit-group underscores and other Unicode decimal digits (fullwidth, Arabic-Indic and so on), which the model rejects as not an integer. It also parses digit strings of any length. Since Python 3.11 (and the 3.8.14, 3.9.14 and 3.10.7 security releases), `int()` raises `ValueError` on decimal text of more than 4300 digits by default, and `str()` raises on such integers. So `Decimal.IntRoundTrip` and `Storage.ConfigValueRoundTrip` describe the model's conversions, not those interpreters, for integers of more than 4300 digits.
- Storage.GetConfigValue: for the same reasons reports `ConfigNotAnInteger` for stored text that Python reads as an integer only through whitespace, underscores or non-ASCII decimal digits. It returns an integer for stored digit text of more than 4300 digits, where those interpreters raise.
- Storage.ListJobs: the order of rows created in the same second is fixed to rowid order. SQLite leaves that order unspecified. `Worker.PendingQueue` uses the same order. So when several eligible jobs were created in the same second, the job that `Worker.FetchNextJob` and `Worker.ClaimSpec` pick is fixed by the model but not by SQLite.
- Signal handlers, the stop-flag file, and the time the polling `sleep` waits are not modelled. Whether `sleep` rejects its interval is modelled. The shutdown flag enters through `Tick.signalled`.
- Worker.RunWorkerLoop: the bound above which `time.sleep` rejects an interval is `Worker.MaxSleepSeconds`. That is CPython's bound from converting seconds to signed 64-bit nanoseconds; older interpreters or other platforms may draw the line elsewhere.
- Printed and logged messages are not modelled. This includes the `retry_dlq` message that depends on the stop-flag file; replies carry their data fields only.
- Worker process management (`worker_manager.py`) and the command-line front end (`main.py`) are not part of this model.
