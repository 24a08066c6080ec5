/** Listing, reading and setting configuration entries (the `config` table). */
module ConfigManager {
  import opened Schema
  import Storage

  /** What `set_config` returns: status "updated" with its arguments echoed. */
  datatype SetConfigReply = Updated(key: string, value: string)

  /** `list_config`: every key/value pair of the `config` table. */
  function ListConfig(db: Storage.Database): (r: map<string, string>)
    reads db
    ensures r.Keys == db.config.Keys
    ensures forall k :: k in r ==> r[k] == db.config[k]
  {
    map k | k in db.config :: db.config[k]
  }

  /** `get_config`: the stored text under `key`, or an error when there is none. */
  function GetConfig(db: Storage.Database, key: string): (r: Result<string>)
    reads db
    ensures key in db.config ==> r == Ok(db.config[key])
    ensures key !in db.config ==> r == Err(ConfigKeyNotFound(key))
  {
    if key in db.config then Ok(db.config[key]) else Err(ConfigKeyNotFound(key))
  }

  /**
   * `set_config`: INSERT ... ON CONFLICT(key) DO UPDATE. A new key is added,
   * an existing one overwritten; no other entry and no job changes.
   */
  method SetConfig(db: Storage.Database, key: string, value: string) returns (reply: SetConfigReply)
    requires db.Valid()
    modifies db
    ensures db.Valid()
    ensures reply == Updated(key, value)
    ensures GetConfig(db, key) == Ok(value)
    ensures forall k :: k != key ==> GetConfig(db, k) == old(GetConfig(db, k))
    ensures db.config.Keys == old(db.config.Keys) + {key}
    ensures |db.config| <= |old(db.config)| + 1
    ensures db.jobs == old(db.jobs) && db.rows == old(db.rows)
  {
    db.config := db.config[key := value];
    reply := Updated(key, value);
  }
}
