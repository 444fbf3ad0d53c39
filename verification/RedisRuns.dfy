/** Redis with the deletes that reads spawn: when one can be due, and when it takes a newer entry with it. */
module RedisRuns {
  import opened Wrappers
  import opened Entries
  import opened RedisStores

  /** `ideal` has the cell written last under every key not removed since; `deletes` are the spawned deletes that
      have yet to reach Redis. */
  datatype Cache = Cache(db: Db, ideal: Db, deletes: multiset<string>)

  const NOTHING := Cache(map[], map[], multiset{})

  /** What every entry the cache hands over is: serialized with its own timestamps. */
  predicate WellFormed(codec: Codec, c: Command) {
    c.SetCommand? && c.entry.Serialized? ==>
      codec.metadata(c.entry.data) == Some(Metadata(c.entry.freshUntil, c.entry.staleUntil))
  }

  predicate Open(m: Cache, c: Command) {
    c.DeleteCommand? ==> c.ck in m.deletes
  }

  function Exec(codec: Codec, m: Cache, c: Command, disableExpiration: bool): Cache {
    match c
    case SetCommand(_, _, _, _) =>
      Cache(After(m.db, c, disableExpiration), After(m.ideal, c, disableExpiration), m.deletes)
    case RemoveCommand(cks, _) => Cache(m.db - cks, m.ideal - cks, m.deletes)
    case DeleteCommand(ck, _) => Cache(m.db - {ck}, m.ideal, m.deletes - multiset{ck})
    case GetCommand(ck, now) =>
      var expired := GetSpec(codec, m.db, ck, now, disableExpiration).expired;
      m.(deletes := m.deletes + if expired then multiset{ck} else multiset{})
  }

  function ExecAll(codec: Codec, m: Cache, commands: seq<Command>, disableExpiration: bool): Cache
    decreases |commands|
  {
    if commands == [] then m
    else ExecAll(codec, Exec(codec, m, commands[0], disableExpiration), commands[1..], disableExpiration)
  }

  /** The commands can follow one another, under a clock that does not run backwards. */
  predicate Possible(codec: Codec, m: Cache, commands: seq<Command>, disableExpiration: bool, t: int)
    decreases |commands|
  {
    commands != [] ==>
      && Open(m, commands[0]) && WellFormed(codec, commands[0]) && t <= commands[0].now
      && Possible(codec, Exec(codec, m, commands[0], disableExpiration), commands[1..], disableExpiration,
        commands[0].now)
  }

  function Until(t: int, commands: seq<Command>): int
    decreases |commands|
  {
    if commands == [] then t else Until(commands[0].now, commands[1..])
  }

  // ---------------------------------------------------------------- when a delete can be due

  /** Redis drops the cell no later than its entry expires. */
  predicate Timely(c: Command) {
    c.SetCommand? && c.entry.Serialized? ==>
      c.now + 1000 * CalculateTtlSeconds(c.entry.staleUntil, c.at) <= c.entry.staleUntil
  }

  /** A read of a cell can spawn a delete, at some time after it is written, if and only if the deadline lies after
      the expiry of the entry: with the one-second minimum, or when the write is late. */
  lemma DeleteSpawnsExactly(codec: Codec, db: Db, ck: string, stored: StoredEntry, at: int, now: int)
    requires stored.Serialized? && WellFormed(codec, SetCommand(ck, stored, at, now))
    ensures (exists t ::
      now <= t && GetSpec(codec, After(db, SetCommand(ck, stored, at, now), false), ck, t, false).expired)
       <==> now + 1000 * CalculateTtlSeconds(stored.staleUntil, at) > stored.staleUntil
  {
    var after := After(db, SetCommand(ck, stored, at, now), false);
    if now + 1000 * CalculateTtlSeconds(stored.staleUntil, at) > stored.staleUntil {
      var t := if now < stored.staleUntil then stored.staleUntil else now;
      assert GetSpec(codec, after, ck, t, false).expired;
    }
  }

  /** Whatever is under `ck` is gone by the time it expires, and no delete is due there. */
  predicate NeverStale(codec: Codec, m: Cache, ck: string) {
    && ck !in m.deletes
    && (ck in m.db ==>
          && codec.metadata(m.db[ck].json).Some? && m.db[ck].deadline.Some?
          && m.db[ck].deadline.value <= codec.metadata(m.db[ck].json).value.staleUntil)
  }

  /** If every write under `ck` is timely, no delete of `ck` is ever due. */
  lemma {:induction false} TimelyWritesSpawnNoDelete(codec: Codec, m: Cache, commands: seq<Command>, ck: string, t: int)
    requires NeverStale(codec, m, ck) && Possible(codec, m, commands, false, t)
    requires forall c :: c in commands && c.SetCommand? && c.ck == ck ==> Timely(c)
    ensures ck !in ExecAll(codec, m, commands, false).deletes
    decreases |commands|
  {
    if commands == [] {
    } else {
      var m' := Exec(codec, m, commands[0], false);
      assert commands[0] in commands;
      assert NeverStale(codec, m', ck);
      TimelyWritesSpawnNoDelete(codec, m', commands[1..], ck, commands[0].now);
    }
  }

  /** With expiration disabled no delete is ever due. */
  lemma {:induction false} NoDeleteWithoutExpiration(codec: Codec, m: Cache, commands: seq<Command>, t: int)
    requires m.deletes == multiset{} && Possible(codec, m, commands, true, t)
    ensures ExecAll(codec, m, commands, true).deletes == multiset{}
    decreases |commands|
  {
    if commands == [] {
    } else {
      NoDeleteWithoutExpiration(codec, Exec(codec, m, commands[0], true), commands[1..], commands[0].now);
    }
  }

  // ---------------------------------------------------------------- when a write is lost

  /** Some read at `t` returns what is under `ck`. */
  predicate Shows(codec: Codec, db: Db, ck: string, t: int) {
    var answer := GetSpec(codec, db, ck, t, false);
    answer.reply.Ok? && answer.reply.value.Some?
  }

  /** What was written last under `ck` was not removed and would still be returned, but is gone. */
  predicate Lost(codec: Codec, m: Cache, ck: string, t: int) {
    Shows(codec, m.ideal, ck, t) && !Shows(codec, m.db, ck, t)
  }

  predicate NoSet(commands: seq<Command>, ck: string) {
    forall c :: c in commands && c.SetCommand? ==> c.ck != ck
  }

  ghost predicate CanLose(codec: Codec, m: Cache, ck: string, t: int) {
    exists commands ::
      Possible(codec, m, commands, false, t) && NoSet(commands, ck)
      && Lost(codec, ExecAll(codec, m, commands, false), ck, Until(t, commands))
  }

  /** Nothing is lost under `ck`, and no delete is due for anything that is still returned. */
  predicate Keeps(codec: Codec, m: Cache, ck: string, t: int) {
    && (ck in m.db ==> ck in m.ideal && m.db[ck] == m.ideal[ck])
    && !Lost(codec, m, ck, t)
    && (ck in m.deletes ==> !Shows(codec, m.ideal, ck, t))
  }

  /** What is returned now was returned before. */
  lemma ShowsEarlier(codec: Codec, db: Db, ck: string, t: int, later: int)
    requires t <= later && Shows(codec, db, ck, later)
    ensures Shows(codec, db, ck, t)
  {
  }

  /** The command leaves what is under `ck` as it is. */
  lemma OtherKeys(codec: Codec, m: Cache, c: Command, ck: string)
    requires Spares(c, ck)
    ensures var m' := Exec(codec, m, c, false);
      && (ck in m'.db <==> ck in m.db) && (ck in m.db ==> m'.db[ck] == m.db[ck])
      && (ck in m'.ideal <==> ck in m.ideal) && (ck in m.ideal ==> m'.ideal[ck] == m.ideal[ck])
      && (ck in m'.deletes ==>
        ck in m.deletes || (c.GetCommand? && c.ck == ck && GetSpec(codec, m.db, ck, c.now, false).expired))
  {
  }

  lemma CommandKeeps(codec: Codec, m: Cache, c: Command, ck: string, t: int)
    requires Keeps(codec, m, ck, t) && Open(m, c) && t <= c.now && (c.SetCommand? ==> c.ck != ck)
    ensures Keeps(codec, Exec(codec, m, c, false), ck, c.now)
  {
    if Shows(codec, m.ideal, ck, c.now) {
      ShowsEarlier(codec, m.ideal, ck, t, c.now);
    }
    if Spares(c, ck) {
      OtherKeys(codec, m, c, ck);
    }
  }

  lemma {:induction false} CommandsKeep(codec: Codec, m: Cache, commands: seq<Command>, ck: string, t: int)
    requires Keeps(codec, m, ck, t) && Possible(codec, m, commands, false, t) && NoSet(commands, ck)
    ensures Keeps(codec, ExecAll(codec, m, commands, false), ck, Until(t, commands))
    decreases |commands|
  {
    if commands == [] {
    } else {
      assert commands[0] in commands;
      CommandKeeps(codec, m, commands[0], ck, t);
      CommandsKeep(codec, Exec(codec, m, commands[0], false), commands[1..], ck, commands[0].now);
    }
  }

  lemma DeleteLoses(codec: Codec, m: Cache, ck: string, t: int)
    requires ck in m.deletes && Shows(codec, m.ideal, ck, t)
    ensures CanLose(codec, m, ck, t)
  {
    var delete := DeleteCommand(ck, t);
    var m' := Exec(codec, m, delete, false);
    assert [delete][1..] == [] && ExecAll(codec, m', [], false) == m' && Until(t, []) == t;
    assert Possible(codec, m', [], false, t);
    assert Possible(codec, m, [delete], false, t) && ExecAll(codec, m, [delete], false) == m'
      && Until(t, [delete]) == t;
    assert Lost(codec, m', ck, t);
  }

  /** After any run, a write can be lost, other than to its expiry, a removal or a later write, if and only if a delete
      spawned by a read of that key is due and the entry is returned at all. */
  lemma WriteLostExactly(codec: Codec, before: seq<Command>, start: int, ck: string, stored: StoredEntry, at: int,
      now: int)
    requires Possible(codec, NOTHING, before, false, start) && Until(start, before) <= now
    requires stored.Serialized? && WellFormed(codec, SetCommand(ck, stored, at, now))
    ensures var m := ExecAll(codec, NOTHING, before, false);
      CanLose(codec, Exec(codec, m, SetCommand(ck, stored, at, now), false), ck, now)
      <==> ck in m.deletes && now < stored.staleUntil
  {
    var m := ExecAll(codec, NOTHING, before, false);
    var m' := Exec(codec, m, SetCommand(ck, stored, at, now), false);
    assert Shows(codec, m'.ideal, ck, now) <==> now < stored.staleUntil;
    if ck in m.deletes && now < stored.staleUntil {
      DeleteLoses(codec, m', ck, now);
    } else {
      forall commands | Possible(codec, m', commands, false, now) && NoSet(commands, ck)
        ensures !Lost(codec, ExecAll(codec, m', commands, false), ck, Until(now, commands))
      {
        CommandsKeep(codec, m', commands, ck, now);
      }
    }
  }

  /** So it does happen: Redis keeps an entry written with under a second left past its expiry; reading it then spawns a
      delete, and the delete takes with it whatever has been set in the meantime. */
  lemma LateDeleteLosesEntry(codec: Codec, ck: string, expired: StoredEntry, renewed: StoredEntry, now: int)
    requires expired.Serialized? && WellFormed(codec, SetCommand(ck, expired, now, now)) && expired.staleUntil <= now
    requires renewed.Serialized? && WellFormed(codec, SetCommand(ck, renewed, now, now)) && now < renewed.staleUntil
    ensures var before := [SetCommand(ck, expired, now, now), GetCommand(ck, now)];
      && Possible(codec, NOTHING, before, false, now)
      && CanLose(codec, Exec(codec, ExecAll(codec, NOTHING, before, false), SetCommand(ck, renewed, now, now), false),
        ck, now)
  {
    var first, second := SetCommand(ck, expired, now, now), GetCommand(ck, now);
    var m1 := Exec(codec, NOTHING, first, false);
    var m2 := Exec(codec, m1, second, false);
    assert [first, second][1..] == [second] && [second][1..] == [];
    assert ExecAll(codec, m2, [], false) == m2 && Possible(codec, m2, [], false, now) && Until(now, []) == now;
    assert ExecAll(codec, m1, [second], false) == m2 && Possible(codec, m1, [second], false, now);
    assert ExecAll(codec, NOTHING, [first, second], false) == m2 && Until(now, [second]) == now;
    WriteLostExactly(codec, [first, second], now, ck, renewed, now, now);
  }
}
