/**
 * The vocabulary shared by every part of the queue: the five job states, the
 * row of the `jobs` table, the errors the operations raise, and the
 * `trg_update_timestamp` rule that the database applies to every state update.
 */
module Schema {
  import opened Wrappers

  /** The job life cycle; VALID_STATES lists exactly these five. */
  datatype State = Pending | Processing | Completed | Failed | Dead

  /** VALID_STATES, in the order the constants module lists them. */
  const AllStates: seq<State> := [Pending, Processing, Completed, Failed, Dead]

  lemma EveryStateListed(s: State)
    ensures s in AllStates
  {
  }

  /** The text stored in the `state` column. */
  function StateName(s: State): string {
    match s
    case Pending => "pending"
    case Processing => "processing"
    case Completed => "completed"
    case Failed => "failed"
    case Dead => "dead"
  }

  /** Membership of a text in VALID_STATES, and the state it names. */
  function ParseState(name: string): (r: Option<State>)
    ensures r.Some? ==> StateName(r.value) == name
    ensures r.None? ==> forall s: State :: StateName(s) != name
  {
    if name == "pending" then Some(Pending)
    else if name == "processing" then Some(Processing)
    else if name == "completed" then Some(Completed)
    else if name == "failed" then Some(Failed)
    else if name == "dead" then Some(Dead)
    else None
  }

  /** Distinct states are stored as distinct texts. */
  lemma StateNameInjective(s: State, t: State)
    ensures StateName(s) == StateName(t) ==> s == t
  {
    if StateName(s) == StateName(t) {
      var a, b := StateName(s), StateName(t);
      assert a[0] == b[0] && a[1] == b[1];
    }
  }

  /**
   * One row of the `jobs` table. Times are whole seconds; `updatedAt` is
   * NULL (`None`) until the first state change away from pending.
   */
  datatype Job = Job(
    id: string,
    command: string,
    state: State,
    attempts: nat,
    maxRetries: int,
    createdAt: int,
    updatedAt: Option<int>,
    forceRetry: bool)

  /** The exceptions the queue raises, one constructor per distinct cause. */
  datatype Error =
    | InvalidJson                        // the payload is not JSON
    | NotAnObject                        // enqueue: the payload is not a JSON object
    | NotADictionary                     // insert: the job is not a dictionary
    | InvalidFields(extra: set<string>)  // enqueue: keys other than id and command
    | MissingFields(missing: set<string>)
    | DuplicateId(id: string)
    | ConfigKeyNotFound(key: string)
    | ConfigNotAnInteger(key: string)    // int() failed on the stored text
    | InvalidState(name: string)
    | JobNotFound(id: string)
    | DlqJobNotFound(id: string)
    | SleepRejected(seconds: int)        // time.sleep: a negative or too-large interval

  datatype Result<+T> = Ok(value: T) | Err(error: Error)

  /**
   * `trg_update_timestamp`: after an UPDATE that sets the `state` column, a
   * row whose new state is not pending gets `updated_at` = the statement's
   * time; a row set to pending keeps whatever the UPDATE left there.
   */
  function AfterStateUpdate(row: Job, now: int): (r: Job)
    ensures r.state != Pending ==> r.updatedAt == Some(now)
    ensures r.state == Pending ==> r.updatedAt == row.updatedAt
    ensures r.(updatedAt := row.updatedAt) == row
  {
    if row.state != Pending then row.(updatedAt := Some(now)) else row
  }

  /** An UPDATE that already stamps `updated_at` with the current time is not altered by the trigger. */
  lemma StampedRowUnaffected(row: Job, now: int)
    requires row.updatedAt == Some(now)
    ensures AfterStateUpdate(row, now) == row
  {
  }
}
