/**
 * The SQLite file behind the queue: the `jobs` table, the `config` table, and
 * the storage functions that read and write them. Each SQL statement is one
 * atomic step on a `Database` object.
 */
module Storage {
  import opened Wrappers
  import opened Schema
  import Decimal

  /** The rows `init_db` seeds into an empty `config` table. */
  const DefaultConfig: map<string, string> :=
    map["max_retries" := "3", "exp_backoff_base" := "2", "poll_interval" := "2"]

  /** The keys a job must carry to be inserted. */
  const RequiredKeys: set<string> := {"id", "command"}

  /** An already-decoded job payload: a JSON object with text fields, or any other JSON value. */
  datatype Json = NonObject | Object(fields: map<string, string>)

  /**
   * The database file. `jobs` is the jobs table keyed by its primary key,
   * `rows` the job ids in the order they were inserted (SQLite's rowid order),
   * and `config` the key/value configuration table.
   */
  class Database {
    var jobs: map<string, Job>
    var rows: seq<string>
    var config: map<string, string>

    ghost predicate Valid()
      reads this
    {
      WellFormed(jobs, rows)
    }

    /** A database file that has just been created: both tables are empty. */
    constructor ()
      ensures Valid()
      ensures jobs == map[] && rows == [] && config == map[]
    {
      jobs, rows, config := map[], [], map[];
    }

    /** `SELECT * FROM jobs`, in rowid order. */
    function Table(): (t: seq<Job>)
      reads this
      requires Valid()
      ensures |t| == |rows|
      ensures forall i :: 0 <= i < |rows| ==> t[i] == jobs[rows[i]]
    {
      RowsOf(jobs, rows)
    }

    /**
     * `INSERT INTO jobs`: adds the row, or fails with an integrity error
     * (`inserted == false`) when the primary key is taken.
     */
    method Insert(row: Job) returns (inserted: bool)
      requires Valid()
      modifies this
      ensures Valid() && config == old(config)
      ensures inserted == (row.id !in old(jobs))
      ensures inserted ==> jobs == old(jobs)[row.id := row] && rows == old(rows) + [row.id]
      ensures !inserted ==> jobs == old(jobs) && rows == old(rows)
    {
      inserted := row.id !in jobs;
      if inserted {
        jobs := jobs[row.id := row];
        rows := rows + [row.id];
      }
    }

    /**
     * `UPDATE jobs SET ... WHERE id = ? [AND state = guard]` with the new
     * column values `newRow`, followed by `trg_update_timestamp`. Returns the
     * number of rows changed.
     */
    method Update(id: string, newRow: Job, guard: Option<State>, now: int) returns (rowcount: nat)
      requires Valid() && newRow.id == id
      modifies this
      ensures Valid() && rows == old(rows) && config == old(config)
      ensures rowcount == (if id in old(jobs) && (guard.None? || old(jobs)[id].state == guard.value) then 1 else 0)
      ensures rowcount == 1 ==> jobs == old(jobs)[id := AfterStateUpdate(newRow, now)]
      ensures rowcount == 0 ==> jobs == old(jobs)
    {
      if id in jobs && (guard.None? || jobs[id].state == guard.value) {
        jobs := jobs[id := AfterStateUpdate(newRow, now)];
        rowcount := 1;
      } else {
        rowcount := 0;
      }
    }
  }

  /**
   * The two views of the jobs table agree: every row is keyed by its own id,
   * and the rowid order lists each key exactly once.
   */
  ghost predicate WellFormed(jobs: map<string, Job>, rows: seq<string>) {
    && (forall id :: id in jobs ==> jobs[id].id == id)
    && (forall i :: 0 <= i < |rows| ==> rows[i] in jobs)
    && (forall id :: id in jobs ==> id in rows)
    && (forall i, k :: 0 <= i < k < |rows| ==> rows[i] != rows[k])
  }

  function RowsOf(jobs: map<string, Job>, ids: seq<string>): (t: seq<Job>)
    requires forall i :: 0 <= i < |ids| ==> ids[i] in jobs
    ensures |t| == |ids|
    ensures forall i :: 0 <= i < |ids| ==> t[i] == jobs[ids[i]]
  {
    if ids == [] then [] else RowsOf(jobs, ids[..|ids| - 1]) + [jobs[ids[|ids| - 1]]]
  }

  /** `j` is the row stored under its id. */
  predicate Stored(jobs: map<string, Job>, j: Job) {
    j.id in jobs && jobs[j.id] == j
  }

  /** A row is in the table exactly when it is the row stored under its id. */
  lemma InRows(jobs: map<string, Job>, rows: seq<string>, j: Job)
    requires WellFormed(jobs, rows)
    ensures j in RowsOf(jobs, rows) <==> Stored(jobs, j)
  {
    var t := RowsOf(jobs, rows);
    if Stored(jobs, j) {
      var i :| 0 <= i < |rows| && rows[i] == j.id;
      assert t[i] == j;
    }
  }

  /** `init_db`: creates the tables if needed and seeds the defaults into an empty `config` table. */
  method InitDb(db: Database)
    requires db.Valid()
    modifies db
    ensures db.Valid() && db.jobs == old(db.jobs) && db.rows == old(db.rows)
    ensures old(db.config) == map[] ==> db.config == DefaultConfig
    ensures old(db.config) != map[] ==> db.config == old(db.config)
  {
    // SELECT COUNT(*) FROM config
    if db.config == map[] {
      db.config := DefaultConfig;
    }
  }

  /** `get_config_value`: the stored text under `key`, converted with `int()`. */
  function GetConfigValue(config: map<string, string>, key: string): (r: Result<int>)
    ensures key !in config ==> r == Err(ConfigKeyNotFound(key))
    ensures key in config && Decimal.ParseInt(config[key]).None? ==> r == Err(ConfigNotAnInteger(key))
    ensures key in config && Decimal.ParseInt(config[key]).Some? ==> r == Ok(Decimal.ParseInt(config[key]).value)
  {
    if key !in config then Err(ConfigKeyNotFound(key))
    else
      match Decimal.ParseInt(config[key])
      case None => Err(ConfigNotAnInteger(key))
      case Some(n) => Ok(n)
  }

  /** An integer written into the configuration as `str(n)` is read back as `n`. */
  lemma ConfigValueRoundTrip(config: map<string, string>, key: string, n: int)
    ensures GetConfigValue(config[key := Decimal.IntToString(n)], key) == Ok(n)
  {
    Decimal.IntRoundTrip(n);
  }

  /** The seeded defaults read back as the integers 3, 2 and 2. */
  lemma DefaultConfigValues()
    ensures GetConfigValue(DefaultConfig, "max_retries") == Ok(3)
    ensures GetConfigValue(DefaultConfig, "exp_backoff_base") == Ok(2)
    ensures GetConfigValue(DefaultConfig, "poll_interval") == Ok(2)
  {
    ConfigValueRoundTrip(map[], "max_retries", 3);
    assert DefaultConfig["max_retries"] == Decimal.IntToString(3);
    assert DefaultConfig["exp_backoff_base"] == Decimal.IntToString(2);
  }

  /**
   * What `insert_job` decides for a payload against the current tables: the
   * error it raises, or the row it adds. The checks come in the source's order:
   * not a dictionary, missing keys, the `max_retries` lookup, the primary key.
   */
  function InsertOutcome(jobs: map<string, Job>, config: map<string, string>, data: Json, now: int): (r: Result<Job>)
    ensures data.NonObject? ==> r == Err(NotADictionary)
    ensures data.Object? && !(RequiredKeys <= data.fields.Keys) ==>
      r == Err(MissingFields(RequiredKeys - data.fields.Keys))
    ensures data.Object? && RequiredKeys <= data.fields.Keys && GetConfigValue(config, "max_retries").Err? ==>
      r == Err(GetConfigValue(config, "max_retries").error)
    ensures (data.Object? && RequiredKeys <= data.fields.Keys && GetConfigValue(config, "max_retries").Ok?
             && data.fields["id"] in jobs) ==> r == Err(DuplicateId(data.fields["id"]))
    ensures r.Ok? ==>
      && data.Object? && r.value.id == data.fields["id"] && r.value.id !in jobs
      && r.value.command == data.fields["command"]
      && r.value.state == Pending && r.value.attempts == 0
      && GetConfigValue(config, "max_retries") == Ok(r.value.maxRetries)
      && r.value.createdAt == now && r.value.updatedAt == None && !r.value.forceRetry
  {
    match data
    case NonObject => Err(NotADictionary)
    case Object(fields) =>
      if !(RequiredKeys <= fields.Keys) then Err(MissingFields(RequiredKeys - fields.Keys))
      else
        match GetConfigValue(config, "max_retries")
        case Err(e) => Err(e)
        case Ok(maxRetries) =>
          if fields["id"] in jobs then Err(DuplicateId(fields["id"]))
          else Ok(Job(fields["id"], fields["command"], Pending, 0, maxRetries, now, None, false))
  }

  /**
   * `insert_job`: validates the payload, reads the default retry ceiling and
   * inserts a pending row; on any error the tables are left as they were.
   */
  method InsertJob(db: Database, data: Json, now: int) returns (r: Result<string>)
    requires db.Valid()
    modifies db
    ensures db.Valid() && db.config == old(db.config)
    ensures var outcome := InsertOutcome(old(db.jobs), old(db.config), data, now);
      && (outcome.Err? ==> r == Err(outcome.error) && db.jobs == old(db.jobs) && db.rows == old(db.rows))
      && (outcome.Ok? ==> r == Ok(outcome.value.id)
                          && db.jobs == old(db.jobs)[outcome.value.id := outcome.value]
                          && db.rows == old(db.rows) + [outcome.value.id])
  {
    if data.NonObject? {
      return Err(NotADictionary);
    }
    var missing := RequiredKeys - data.fields.Keys;
    if missing != {} {
      return Err(MissingFields(missing));
    }
    assert "id" !in missing && "command" !in missing;
    var id := data.fields["id"];
    var maxRetries := GetConfigValue(db.config, "max_retries");
    if maxRetries.Err? {
      return Err(maxRetries.error);
    }
    var inserted := db.Insert(Job(id, data.fields["command"], Pending, 0, maxRetries.value, now, None, false));
    if !inserted {
      return Err(DuplicateId(id));
    }
    r := Ok(id);
  }

  // ----- list_jobs: WHERE state = ? ORDER BY created_at -----

  /**
   * The `state` argument of `list_jobs` selects a row; a missing or empty
   * filter selects every row, and a name that is not a state selects none.
   */
  function Selected(j: Job, state: Option<string>): (b: bool)
    ensures state.Some? && state.value != "" && ParseState(state.value).None? ==> !b
  {
    state.None? || state.value == "" || StateName(j.state) == state.value
  }

  /** A non-empty filter that names a valid state selects exactly the rows in that state. */
  lemma SelectedByName(j: Job, name: string)
    requires ParseState(name).Some?
    ensures Selected(j, Some(name)) <==> j.state == ParseState(name).value
  {
    StateNameInjective(j.state, ParseState(name).value);
  }

  function Where(table: seq<Job>, state: Option<string>): (r: seq<Job>)
    ensures forall j :: j in r <==> j in table && Selected(j, state)
  {
    if table == [] then []
    else (if Selected(table[0], state) then [table[0]] else []) + Where(table[1..], state)
  }

  predicate SortedByCreation(s: seq<Job>) {
    forall i, k :: 0 <= i < k < |s| ==> s[i].createdAt <= s[k].createdAt
  }

  /** Places `j` before the first row of `s` created no earlier than it. */
  function InsertByCreation(j: Job, s: seq<Job>): seq<Job> {
    if s == [] || j.createdAt <= s[0].createdAt then [j] + s
    else [s[0]] + InsertByCreation(j, s[1..])
  }

  lemma {:induction false} InsertByCreationPermutes(j: Job, s: seq<Job>)
    ensures multiset(InsertByCreation(j, s)) == multiset(s) + multiset{j}
  {
    if s != [] && j.createdAt > s[0].createdAt {
      InsertByCreationPermutes(j, s[1..]);
      assert s == [s[0]] + s[1..];
    }
  }

  /** Every row of `s` was created at `t` or later. */
  predicate CreatedFrom(t: int, s: seq<Job>) {
    forall k :: 0 <= k < |s| ==> t <= s[k].createdAt
  }

  lemma ConsSorted(x: Job, s: seq<Job>)
    requires SortedByCreation(s) && CreatedFrom(x.createdAt, s)
    ensures SortedByCreation([x] + s)
  {
    var r := [x] + s;
    forall i, k | 0 <= i < k < |r| ensures r[i].createdAt <= r[k].createdAt {
      if i > 0 {
        assert r[i] == s[i - 1] && r[k] == s[k - 1];
      } else {
        assert r[k] == s[k - 1];
      }
    }
  }

  lemma {:induction false} InsertByCreationFrom(t: int, j: Job, s: seq<Job>)
    requires t <= j.createdAt && CreatedFrom(t, s)
    ensures CreatedFrom(t, InsertByCreation(j, s))
  {
    if s != [] && j.createdAt > s[0].createdAt {
      InsertByCreationFrom(t, j, s[1..]);
      var rest := InsertByCreation(j, s[1..]);
      assert forall k :: 0 <= k < |rest| ==> ([s[0]] + rest)[k + 1] == rest[k];
    }
  }

  lemma {:induction false} InsertByCreationSorts(j: Job, s: seq<Job>)
    requires SortedByCreation(s)
    ensures SortedByCreation(InsertByCreation(j, s))
  {
    if s == [] || j.createdAt <= s[0].createdAt {
      ConsSorted(j, s);
    } else {
      assert SortedByCreation(s[1..]);
      InsertByCreationSorts(j, s[1..]);
      assert CreatedFrom(s[0].createdAt, s[1..]);
      InsertByCreationFrom(s[0].createdAt, j, s[1..]);
      ConsSorted(s[0], InsertByCreation(j, s[1..]));
    }
  }

  /** ORDER BY created_at: an insertion sort, so rows created at the same time keep their row order. */
  function SortByCreation(s: seq<Job>): (r: seq<Job>)
    ensures multiset(r) == multiset(s)
  {
    if s == [] then []
    else
      InsertByCreationPermutes(s[0], SortByCreation(s[1..]));
      assert s == [s[0]] + s[1..];
      InsertByCreation(s[0], SortByCreation(s[1..]))
  }

  /** The sorted rows are a permutation of the input with non-decreasing creation times. */
  lemma {:induction false} SortByCreationSorts(s: seq<Job>)
    ensures SortedByCreation(SortByCreation(s))
    ensures multiset(SortByCreation(s)) == multiset(s)
  {
    if s != [] {
      SortByCreationSorts(s[1..]);
      InsertByCreationSorts(s[0], SortByCreation(s[1..]));
    }
  }

  /** `SELECT * FROM jobs [WHERE state = ?] ORDER BY created_at` on the table's contents. */
  function Listing(jobs: map<string, Job>, rows: seq<string>, state: Option<string>): seq<Job>
    requires WellFormed(jobs, rows)
  {
    SortByCreation(Where(RowsOf(jobs, rows), state))
  }

  /** Filtering never repeats a row more often than the table holds it. */
  lemma {:induction false} WhereCount(table: seq<Job>, state: Option<string>, j: Job)
    ensures multiset(Where(table, state))[j] <= multiset(table)[j]
  {
    if table != [] {
      WhereCount(table[1..], state, j);
      assert table == [table[0]] + table[1..];
    }
  }

  /** A sequence without repeated elements holds each element at most once. */
  lemma {:induction false} DistinctCount(s: seq<Job>, j: Job)
    requires forall i, k :: 0 <= i < k < |s| ==> s[i] != s[k]
    ensures multiset(s)[j] <= 1
  {
    if s != [] {
      DistinctCount(s[1..], j);
      assert s == [s[0]] + s[1..];
      if s[0] == j {
        assert j !in s[1..];
      }
    }
  }

  /** The table holds each row once: its rows carry the distinct ids of the rowid order. */
  lemma RowsOfDistinct(jobs: map<string, Job>, rows: seq<string>)
    requires WellFormed(jobs, rows)
    ensures forall i, k :: 0 <= i < k < |rows| ==> RowsOf(jobs, rows)[i] != RowsOf(jobs, rows)[k]
  {
    var t := RowsOf(jobs, rows);
    forall i, k | 0 <= i < k < |rows| ensures t[i] != t[k] {
      assert t[i].id == rows[i] && t[k].id == rows[k];
    }
  }

  /** The listing is ordered by creation time, a permutation of the selected rows, and holds exactly the stored rows the filter selects. */
  lemma ListingSpec(jobs: map<string, Job>, rows: seq<string>, state: Option<string>)
    requires WellFormed(jobs, rows)
    ensures SortedByCreation(Listing(jobs, rows, state))
    ensures multiset(Listing(jobs, rows, state)) == multiset(Where(RowsOf(jobs, rows), state))
    ensures forall j :: j in Listing(jobs, rows, state) <==> Stored(jobs, j) && Selected(j, state)
  {
    var w := Where(RowsOf(jobs, rows), state);
    var r := SortByCreation(w);
    SortByCreationSorts(w);
    forall j ensures j in r <==> Stored(jobs, j) && Selected(j, state) {
      InRows(jobs, rows, j);
      assert j in r <==> j in multiset(r);
      assert j in w <==> j in multiset(w);
    }
  }

  /** The listing holds each row at most once. */
  lemma ListingOnce(jobs: map<string, Job>, rows: seq<string>, state: Option<string>)
    requires WellFormed(jobs, rows)
    ensures forall j :: multiset(Listing(jobs, rows, state))[j] <= 1
  {
    RowsOfDistinct(jobs, rows);
    forall j ensures multiset(Listing(jobs, rows, state))[j] <= 1 {
      WhereCount(RowsOf(jobs, rows), state, j);
      DistinctCount(RowsOf(jobs, rows), j);
    }
  }

  /**
   * `list_jobs(state)` of the storage layer: the rows in `state` (every row
   * when the filter is absent or empty), ordered by creation time.
   */
  function ListJobs(db: Database, state: Option<string>): (r: seq<Job>)
    reads db
    requires db.Valid()
    ensures SortedByCreation(r)
    ensures multiset(r) == multiset(Where(db.Table(), state))
    ensures forall j :: j in r <==> Stored(db.jobs, j) && Selected(j, state)
    ensures forall j :: multiset(r)[j] <= 1
  {
    ListingSpec(db.jobs, db.rows, state);
    ListingOnce(db.jobs, db.rows, state);
    Listing(db.jobs, db.rows, state)
  }
}
