/** The Redis-backed store (src/stores/redis.rs), over Redis seen as a map with deadlines. */
module RedisStores {
  import opened Wrappers
  import opened Entries
  import opened Keys

  /** A Redis string and the millisecond at which Redis drops it, if any. */
  datatype Cell = Cell(json: string, deadline: Option<int>)

  type Db = map<string, Cell>

  predicate Live(db: Db, ck: string, now: int) {
    ck in db && (db[ck].deadline.None? || now < db[ck].deadline.value)
  }

  /** `calculate_ttl_seconds`: the operands of the division are positive, so truncation is `/`. */
  function CalculateTtlSeconds(staleUntil: int, now: int): (ttl: nat)
    ensures ttl >= 1
    ensures staleUntil - now >= 1000 ==> 1000 * ttl <= staleUntil - now < 1000 * ttl + 1000
    ensures staleUntil - now < 1000 ==> ttl == 1
  {
    if staleUntil <= now then 1 else
    var seconds := (staleUntil - now) / 1000;
    if seconds < 1 then 1 else seconds
  }

  /** What a reachable Redis answers to a `get`; `expired` says that a delete was spawned. */
  datatype Answer = Answer(reply: Result<Option<StoredEntry>, CacheError>, expired: bool)

  function GetSpec(codec: Codec, db: Db, ck: string, now: int, disableExpiration: bool): Answer {
    if !Live(db, ck, now) then Answer(Ok(None), false) else
    match codec.metadata(db[ck].json)
    case None => Answer(Err(OperationError), false)
    case Some(meta) =>
      if now >= meta.staleUntil && !disableExpiration then Answer(Ok(None), true)
      else Answer(Ok(Some(Serialized(db[ck].json, meta.freshUntil, meta.staleUntil))), false)
  }

  /** The cell a `set` writes; `at` is when it computes the ttl, `now` when Redis executes it. */
  function NewCell(json: string, staleUntil: int, at: int, now: int, disableExpiration: bool): Cell {
    Cell(json, if disableExpiration then None else Some(now + 1000 * CalculateTtlSeconds(staleUntil, at)))
  }

  class RedisStore {
    var db: Db
    /** Deletes spawned by reads of expired entries, not yet executed. */
    var deletes: multiset<string>
    const codec: Codec
    const disableExpiration: bool

    constructor (codec: Codec, disableExpiration: bool)
      ensures db == map[] && deletes == multiset{}
      ensures this.codec == codec && this.disableExpiration == disableExpiration
    {
      db := map[];
      deletes := multiset{};
      this.codec := codec;
      this.disableExpiration := disableExpiration;
    }

    /** `reachable` is false when the connection fails. */
    method Get(ns: string, key: string, now: int, reachable: bool)
      returns (reply: Result<Option<StoredEntry>, CacheError>)
      modifies this`deletes
      ensures var ck := BuildCacheKey(ns, key);
        var answer := GetSpec(codec, db, ck, now, disableExpiration);
        if !reachable then reply == Err(OperationError) && deletes == old(deletes)
        else reply == answer.reply && deletes == old(deletes) + (if answer.expired then multiset{ck} else multiset{})
    {
      var ck := BuildCacheKey(ns, key);
      if !reachable {
        return Err(OperationError);
      }
      if !Live(db, ck, now) {
        return Ok(None);
      }
      var json := db[ck].json;
      var meta := codec.metadata(json);
      if meta.None? {
        return Err(OperationError);
      }
      if now >= meta.value.staleUntil {
        if !disableExpiration {
          deletes := deletes + multiset{ck};
          return Ok(None);
        }
      }
      return Ok(Some(Serialized(json, meta.value.freshUntil, meta.value.staleUntil)));
    }

    /** A typed entry is refused whether or not Redis can be reached. */
    method Set(ns: string, key: string, entry: StoredEntry, at: int, now: int, reachable: bool)
      returns (done: Result<(), CacheError>)
      modifies this`db
      ensures var ck := BuildCacheKey(ns, key);
        && (entry.Typed? ==> done == Err(SerializationError) && db == old(db))
        && (entry.Serialized? && !reachable ==> done == Err(OperationError) && db == old(db))
        && (entry.Serialized? && reachable ==>
            done == Ok(()) && db == old(db)[ck := NewCell(entry.data, entry.staleUntil, at, now, disableExpiration)])
    {
      if entry.Typed? {
        return Err(SerializationError);
      }
      if !reachable {
        return Err(OperationError);
      }
      var deadline: Option<int> := None;
      if !disableExpiration {
        var ttlSeconds := CalculateTtlSeconds(entry.staleUntil, at);
        deadline := Some(now + 1000 * ttlSeconds);
      }
      db := db[BuildCacheKey(ns, key) := Cell(entry.data, deadline)];
      return Ok(());
    }

    method Remove(ns: string, keys: seq<string>, reachable: bool) returns (done: Result<(), CacheError>)
      modifies this`db
      ensures keys == [] ==> done == Ok(()) && db == old(db)
      ensures keys != [] && !reachable ==> done == Err(OperationError) && db == old(db)
      ensures reachable ==> done == Ok(()) && db == old(db) - set i | 0 <= i < |keys| :: BuildCacheKey(ns, keys[i])
    {
      if keys == [] {
        return Ok(());
      }
      if !reachable {
        return Err(OperationError);
      }
      var doomed: set<string> := {};
      for n := 0 to |keys|
        invariant doomed == set i | 0 <= i < n :: BuildCacheKey(ns, keys[i])
      {
        doomed := doomed + {BuildCacheKey(ns, keys[n])};
      }
      db := db - doomed;
      return Ok(());
    }

    /** One of the spawned deletes runs. */
    method RunDelete(ck: string)
      requires ck in deletes
      modifies this
      ensures db == old(db) - {ck} && deletes == old(deletes) - multiset{ck}
    {
      db := db - {ck};
      deletes := deletes - multiset{ck};
    }
  }

  // ---------------------------------------------------------------- runs

  /** What reaches Redis, and when. */
  datatype Command =
    | SetCommand(ck: string, entry: StoredEntry, at: int, now: int)
    | RemoveCommand(cks: set<string>, now: int)
    | DeleteCommand(ck: string, now: int)
    | GetCommand(ck: string, now: int)

  function After(db: Db, c: Command, disableExpiration: bool): Db {
    match c
    case SetCommand(ck, Serialized(data, _, staleUntil), at, now) =>
      db[ck := NewCell(data, staleUntil, at, now, disableExpiration)]
    case SetCommand(_, Typed(_, _, _, _), _, _) => db
    case RemoveCommand(cks, _) => db - cks
    case DeleteCommand(ck, _) => db - {ck}
    case GetCommand(_, _) => db
  }

  function Run(db: Db, commands: seq<Command>, disableExpiration: bool): Db
    decreases |commands|
  {
    if commands == [] then db else Run(After(db, commands[0], disableExpiration), commands[1..], disableExpiration)
  }

  /** The command neither overwrites nor deletes `ck`. */
  predicate Spares(c: Command, ck: string) {
    match c
    case SetCommand(k, _, _, _) => k != ck
    case RemoveCommand(cks, _) => ck !in cks
    case DeleteCommand(k, _) => k != ck
    case GetCommand(_, _) => true
  }

  lemma {:induction false} SparedCellStays(db: Db, commands: seq<Command>, disableExpiration: bool, ck: string)
    requires forall c :: c in commands ==> Spares(c, ck)
    ensures var db' := Run(db, commands, disableExpiration);
      (ck in db' <==> ck in db) && (ck in db ==> db'[ck] == db[ck])
    decreases |commands|
  {
    if commands == [] {
    } else {
      assert Spares(commands[0], ck);
      SparedCellStays(After(db, commands[0], disableExpiration), commands[1..], disableExpiration, ck);
    }
  }

  /** A read answers nothing exactly when Redis has dropped the cell or its entry has expired, and only in the second
      case, with expiration on, is a delete spawned; it fails exactly when a cell is there that cannot be read;
      and otherwise it answers the cell's own data, with the timestamps found in it. */
  lemma AnswersExactly(codec: Codec, db: Db, ck: string, now: int, disableExpiration: bool)
    ensures var answer := GetSpec(codec, db, ck, now, disableExpiration);
      var there := ck in db && !(db[ck].deadline.Some? && db[ck].deadline.value <= now);
      var meta := if ck in db then codec.metadata(db[ck].json) else None;
      var expired := there && !disableExpiration && meta.Some? && meta.value.staleUntil <= now;
      && (answer.expired <==> expired)
      && (answer.reply == Ok(None) <==> !there || expired)
      && (answer.reply.Err? <==> there && meta.None?)
      && (answer.reply.Ok? && answer.reply.value.Some? ==>
            answer.reply.value.value == Serialized(db[ck].json, meta.value.freshUntil, meta.value.staleUntil))
  {
  }

  /** When Redis will stop showing an entry set at `at` and executed at `now`. */
  function VisibleUntil(entry: Entry, at: int, now: int): int {
    var deadline := now + 1000 * CalculateTtlSeconds(entry.staleUntil, at);
    if deadline < entry.staleUntil then deadline else entry.staleUntil
  }

  /** With expiration on, an entry that nothing overwrites, removes or deletes is returned, unchanged, at
      exactly the times before `VisibleUntil`. */
  lemma VisibleExactly(codec: Codec, db: Db, ck: string, stored: StoredEntry, entry: Entry, at: int, now: int,
      commands: seq<Command>, t: int)
    requires codec.RoundTrips() && stored.Serialized? && Represents(codec, stored, entry)
    requires forall c :: c in commands ==> Spares(c, ck)
    ensures var db' := Run(After(db, SetCommand(ck, stored, at, now), false), commands, false);
      GetSpec(codec, db', ck, t, false).reply == if t < VisibleUntil(entry, at, now) then Ok(Some(stored)) else Ok(None)
  {
    SparedCellStays(After(db, SetCommand(ck, stored, at, now), false), commands, false, ck);
  }

  /** That moment is never after the entry expires, and less than a second before it; an entry set with
      under a second left stays to the end; so does one that reaches Redis with the time to spare that
      truncation took off. */
  lemma VisibilityBounds(entry: Entry, at: int, now: int)
    requires at <= now && at < entry.staleUntil
    ensures entry.staleUntil - 999 <= VisibleUntil(entry, at, now) <= entry.staleUntil
    ensures entry.staleUntil - at < 1000 ==> VisibleUntil(entry, at, now) == entry.staleUntil
    ensures VisibleUntil(entry, at, now) == entry.staleUntil <==>
      entry.staleUntil - at < 1000 || (entry.staleUntil - at) % 1000 <= now - at
  {
  }

  /** With expiration disabled, the entry is returned for as long as nothing touches it. */
  lemma PersistsWithoutExpiration(codec: Codec, db: Db, ck: string, stored: StoredEntry, entry: Entry, at: int,
      now: int, commands: seq<Command>, t: int)
    requires codec.RoundTrips() && stored.Serialized? && Represents(codec, stored, entry)
    requires forall c :: c in commands ==> Spares(c, ck)
    ensures var db' := Run(After(db, SetCommand(ck, stored, at, now), true), commands, true);
      GetSpec(codec, db', ck, t, true).reply == Ok(Some(stored))
  {
    SparedCellStays(After(db, SetCommand(ck, stored, at, now), true), commands, true, ck);
  }
}
