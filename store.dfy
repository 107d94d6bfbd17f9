/** The part of Redis the route mirror uses: string-keyed values that are
    hashes or plain strings, a time-to-live per key, and the commands DEL,
    HSET, EXPIRE, KEYS, EXISTS, TYPE and HGETALL, run one at a time or as a
    pipeline. */
module RedisStore {
  import opened Text

  datatype Value = Hash(fields: map<string, string>) | Scalar(text: string)

  /** What the TYPE command answers. */
  datatype KeyType = HashType | StringType | NoKey

  /** The whole keyspace: values, and a time-to-live in seconds for the keys
      that have one. */
  datatype Db = Db(data: map<string, Value>, ttl: map<string, nat>) {
    /** Only live keys carry a time-to-live. */
    predicate Valid() {
      ttl.Keys <= data.Keys
    }
  }

  /** A queued command. */
  datatype Op =
    | Del(keys: set<string>)
    | HSet(key: string, mapping: map<string, string>)
    | Expire(key: string, seconds: nat)

  /** The keyspace after some commands, and whether none of them answered
      with an error. */
  datatype Outcome = Outcome(db: Db, ok: bool)

  /** KEYS `prefix*`: the live keys that start with `prefix`. */
  function KeysWithPrefix(db: Db, prefix: string): set<string> {
    set k | k in db.data && StartsWith(k, prefix)
  }

  function TypeOf(db: Db, key: string): KeyType {
    if key !in db.data then NoKey
    else if db.data[key].Hash? then HashType
    else StringType
  }

  /** One command. DEL drops the keys and their time-to-live; HSET merges the
      mapping into the hash at `key`, creating it when absent, and answers
      WRONGTYPE on a string; EXPIRE sets the time-to-live of a live key and
      does nothing to an absent one, and a time-to-live of 0 deletes the key. */
  function Step(db: Db, op: Op): (r: Outcome)
    ensures db.Valid() ==> r.db.Valid()
    ensures !r.ok ==> r.db == db
    ensures !r.ok <==> op.HSet? && TypeOf(db, op.key) == StringType
  {
    match op
    case Del(keys) => Outcome(Db(db.data - keys, db.ttl - keys), true)
    case HSet(key, mapping) =>
      if key !in db.data then Outcome(Db(db.data[key := Hash(mapping)], db.ttl), true)
      else if db.data[key].Hash? then Outcome(Db(db.data[key := Hash(db.data[key].fields + mapping)], db.ttl), true)
      else Outcome(db, false)
    case Expire(key, seconds) =>
      if key !in db.data then Outcome(db, true)
      else if seconds == 0 then Outcome(Db(db.data - {key}, db.ttl - {key}), true)
      else Outcome(Db(db.data, db.ttl[key := seconds]), true)
  }

  /** The keys a command may touch. */
  function OpKeys(op: Op): set<string> {
    match op
    case Del(keys) => keys
    case HSet(key, _) => {key}
    case Expire(key, _) => {key}
  }

  /** A command leaves every key it does not name as it was. */
  lemma StepFrame(db: Db, op: Op, k: string)
    requires k !in OpKeys(op)
    ensures var r := Step(db, op).db;
      && (k in r.data <==> k in db.data) && (k in db.data ==> r.data[k] == db.data[k])
      && (k in r.ttl <==> k in db.ttl) && (k in db.ttl ==> r.ttl[k] == db.ttl[k])
  {
  }

  /** EXEC of a pipeline: every command runs, in order, whether or not an
      earlier one answered with an error; `ok` says that none did. */
  function RunOps(db: Db, ops: seq<Op>): Outcome
    decreases |ops|
  {
    if ops == [] then Outcome(db, true)
    else
      var before := RunOps(db, ops[..|ops| - 1]);
      var last := Step(before.db, ops[|ops| - 1]);
      Outcome(last.db, before.ok && last.ok)
  }

  /** Running two pipelines in a row is running their concatenation. */
  lemma {:induction false} RunOpsAppend(db: Db, a: seq<Op>, b: seq<Op>)
    ensures RunOps(db, a + b).db == RunOps(RunOps(db, a).db, b).db
    ensures RunOps(db, a + b).ok == (RunOps(db, a).ok && RunOps(RunOps(db, a).db, b).ok)
    decreases |b|
  {
    if b == [] {
      assert a + b == a;
    } else {
      var n := |b| - 1;
      assert (a + b)[..|a + b| - 1] == a + b[..n];
      assert (a + b)[|a + b| - 1] == b[n];
      RunOpsAppend(db, a, b[..n]);
    }
  }

  /** A pipeline keeps the store well formed. */
  lemma {:induction false} RunOpsValid(db: Db, ops: seq<Op>)
    requires db.Valid()
    ensures RunOps(db, ops).db.Valid()
    decreases |ops|
  {
    if ops != [] {
      RunOpsValid(db, ops[..|ops| - 1]);
    }
  }

  /** The answer of HGETALL: the fields of a hash (none for an absent
      key), or WRONGTYPE for a string. */
  datatype Fetched = Fetched(fields: map<string, string>) | WrongType

  function HGetAll(db: Db, key: string): (r: Fetched)
    ensures r.WrongType? <==> TypeOf(db, key) == StringType
    ensures r.Fetched? && r.fields != map[] ==> TypeOf(db, key) == HashType
  {
    if key !in db.data then Fetched(map[])
    else match db.data[key]
      case Hash(fields) => Fetched(fields)
      case Scalar(_) => WrongType
  }

  /** A connection to the Redis server, as the state it changes. */
  class Store {
    var data: map<string, Value>
    var ttl: map<string, nat>

    function Snapshot(): Db
      reads this
    {
      Db(data, ttl)
    }

    constructor (db: Db)
      ensures Snapshot() == db
    {
      data := db.data;
      ttl := db.ttl;
    }

    method Keys(prefix: string) returns (ks: set<string>)
      ensures ks == KeysWithPrefix(Snapshot(), prefix)
    {
      ks := set k | k in data && StartsWith(k, prefix);
    }

    method Exists(key: string) returns (b: bool)
      ensures b <==> key in Snapshot().data
    {
      b := key in data;
    }

    method Type(key: string) returns (t: KeyType)
      ensures t == TypeOf(Snapshot(), key)
    {
      if key !in data {
        t := NoKey;
      } else if data[key].Hash? {
        t := HashType;
      } else {
        t := StringType;
      }
    }

    method GetAll(key: string) returns (r: Fetched)
      ensures r == HGetAll(Snapshot(), key)
    {
      r := Fetched(map[]);
      if key in data {
        match data[key]
        case Hash(fields) => r := Fetched(fields);
        case Scalar(_) => r := WrongType;
      }
    }

    /** DEL: the number of keys removed, and the keyspace without them. */
    method Delete(keys: set<string>) returns (removed: nat)
      modifies this
      ensures removed == |keys * old(data).Keys|
      ensures Snapshot() == Step(old(Snapshot()), Del(keys)).db
    {
      removed := |keys * data.Keys|;
      data := data - keys;
      ttl := ttl - keys;
    }

    /** HSET key mapping; false for WRONGTYPE. */
    method HashSet(key: string, mapping: map<string, string>) returns (ok: bool)
      modifies this
      ensures Outcome(Snapshot(), ok) == Step(old(Snapshot()), HSet(key, mapping))
    {
      if key !in data {
        data := data[key := Hash(mapping)];
        ok := true;
      } else if data[key].Hash? {
        data := data[key := Hash(data[key].fields + mapping)];
        ok := true;
      } else {
        ok := false;
      }
    }

    /** EXPIRE key seconds; true when the key was live. */
    method SetExpiry(key: string, seconds: nat) returns (live: bool)
      modifies this
      ensures live <==> key in old(data)
      ensures Snapshot() == Step(old(Snapshot()), Expire(key, seconds)).db
    {
      live := key in data;
      if live {
        if seconds == 0 {
          data := data - {key};
          ttl := ttl - {key};
        } else {
          ttl := ttl[key := seconds];
        }
      }
    }

    method Apply(op: Op) returns (ok: bool)
      modifies this
      ensures Outcome(Snapshot(), ok) == Step(old(Snapshot()), op)
    {
      match op
      case Del(keys) =>
        var _ := Delete(keys);
        ok := true;
      case HSet(key, mapping) =>
        ok := HashSet(key, mapping);
      case Expire(key, seconds) =>
        var _ := SetExpiry(key, seconds);
        ok := true;
    }

    /** pipeline.execute(): run the queued commands in order. */
    method Execute(ops: seq<Op>) returns (ok: bool)
      modifies this
      ensures Outcome(Snapshot(), ok) == RunOps(old(Snapshot()), ops)
    {
      ok := true;
      var i := 0;
      while i < |ops|
        invariant i <= |ops|
        invariant Outcome(Snapshot(), ok) == RunOps(old(Snapshot()), ops[..i])
      {
        assert ops[..i + 1][..i] == ops[..i];
        var stepOk := Apply(ops[i]);
        ok := ok && stepOk;
        i := i + 1;
      }
      assert ops[..i] == ops;
    }
  }
}
