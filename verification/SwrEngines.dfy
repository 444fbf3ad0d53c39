/** The engine of src/swr.rs as an object: the marker map, the tiers and the tasks are changed in place, one
    lock section, tier operation or clock reading per method. Each method takes exactly the step that the protocol
    takes from the old state, and `Valid` says that the object is in a reachable state of the protocol: what is
    proved of those holds of the object between any two calls. */
module SwrEngines {
  import opened Wrappers
  import opened Entries
  import opened SwrProtocol
  import opened SwrRuns
  import SwrDrain
  import SwrProvenance
  import SwrReplies

  class SwrEngine {
    const cfg: Config
    var clock: int
    var tiers: seq<Store>
    var revalidating: set<string>
    var tasks: seq<Task>
    var log: seq<Event>

    constructor (cfg: Config, now: int)
      ensures Valid() && this.cfg == cfg && Snapshot() == Init(cfg, now)
    {
      this.cfg := cfg;
      clock := now;
      tiers := seq(|cfg.modes|, _ => map[]);
      revalidating := {};
      tasks := [];
      log := [];
      new;
      InitIsReachable(cfg, now);
    }

    function Snapshot(): Sys
      reads this
    {
      Sys(clock, tiers, revalidating, tasks, log)
    }

    ghost predicate Valid()
      reads this
    {
      |tiers| == |cfg.modes| && Reachable(cfg, Snapshot())
    }

    /** `a` is the action that leads from `before` to now. */
    ghost predicate Took(before: Sys, a: Action)
      reads this
    {
      Next(cfg, before, a) == Some(Snapshot())
    }

    lemma StaysValid(before: Sys, a: Action)
      requires Reachable(cfg, before) && Took(before, a)
      ensures Valid()
    {
      ReachNext(cfg, before, a);
      SwrDrain.ReachableSized(cfg, Snapshot());
    }

    /** Call `id` has returned: an `swr` never with an error, and neither it nor a `get` with a value that was not given
        or loaded under its key. */
    ghost predicate Answers(id: nat)
      reads this
    {
      && id < |tasks| && tasks[id].Done?
      && (cfg.codec.RoundTrips() ==>
            && (tasks[id].kind.SwrCall? ==> tasks[id].ret.Ok?)
            && (tasks[id].ret.Ok? && tasks[id].ret.value.Some? ==>
                  SwrProvenance.Traced(log, tasks[id].name.Ck(), tasks[id].ret.value.value)))
    }

    lemma AnswersAreTraced(id: nat)
      requires Valid() && id < |tasks| && tasks[id].Done? && (tasks[id].kind.GetCall? || tasks[id].kind.SwrCall?)
      ensures Answers(id)
    {
      if cfg.codec.RoundTrips() {
        SwrProvenance.Provenance(cfg, Snapshot());
        if tasks[id].kind.SwrCall? {
          var found, at, settled := SwrReplies.SwrIsTotal(cfg, Snapshot(), id);
        }
      }
    }

    // -------------------------------------------------------------- calls

    method Get(name: Name) returns (id: nat)
      requires Valid()
      modifies this
      ensures Valid() && Took(old(Snapshot()), Call(GetRequest(name))) && id == old(|tasks|)
    {
      assert log + [] == log;
      id := |tasks|;
      tasks := tasks + [Reading(id, name, ForGet, 0)];
      StaysValid(old(Snapshot()), Call(GetRequest(name)));
    }

    method Swr(name: Name) returns (id: nat)
      requires Valid()
      modifies this
      ensures Valid() && Took(old(Snapshot()), Call(SwrRequest(name))) && id == old(|tasks|)
    {
      assert log + [] == log;
      id := |tasks|;
      tasks := tasks + [Reading(id, name, ForSwr, 0)];
      StaysValid(old(Snapshot()), Call(SwrRequest(name)));
    }

    method Remove(name: Name) returns (id: nat)
      requires Valid()
      modifies this
      ensures Valid() && Took(old(Snapshot()), Call(RemoveRequest(name))) && id == old(|tasks|)
    {
      id := |tasks|;
      log := log + [Cleared(name)];
      tasks := tasks + [Removing(id, name, AllTiers(|cfg.modes|), false)];
      StaysValid(old(Snapshot()), Call(RemoveRequest(name)));
    }

    method Set(name: Name, value: Value, opts: Option<Timing>) returns (id: nat)
      requires Valid()
      modifies this
      ensures Valid() && Took(old(Snapshot()), Call(SetRequest(name, value, opts))) && id == old(|tasks|)
    {
      assert log + [] == log;
      id := |tasks|;
      var now := clock;
      var freshMs, staleMs := cfg.freshMs, cfg.staleMs;
      if opts.Some? {
        freshMs, staleMs := opts.value.freshMs, opts.value.staleMs;
      }
      var entry := Entry(value, now + freshMs, now + staleMs);
      var stored := BuildStored(cfg.codec, entry, cfg.StoreMode());
      if stored.Err? {
        tasks := tasks + [Done(id, name, SetCall, Err(stored.error))];
        StaysValid(old(Snapshot()), Call(SetRequest(name, value, opts)));
        return;
      }
      log := log + [Given(id, name, value, now), Stamped(id, name, entry, now, freshMs, staleMs, opts.Some?)];
      tasks := tasks + [Writing(id, name, BySet, stored.value, AllTiers(|cfg.modes|), false)];
      StaysValid(old(Snapshot()), Call(SetRequest(name, value, opts)));
    }

    // -------------------------------------------------------------- reading

    /** One tier answers a read: with a hit, a miss or an error. */
    method ReadTier(id: nat, answer: Choice)
      requires Valid() && id < |tasks| && tasks[id].Reading? && tasks[id].tier < |tiers|
      requires answer.Miss? || answer.Fail? || (answer.Hit? && tasks[id].name.Ck() in tiers[tasks[id].tier])
      modifies this
      ensures Valid() && Took(old(Snapshot()), Step(id, answer))
    {
      assert log + [] == log;
      var t := tasks[id];
      match answer {
        case Hit =>
          var stored := tiers[t.tier][t.name.Ck()];
          tasks := tasks[id := Answered(t.call, t.name, t.purpose, Ok(Some(stored)))];
          if t.tier > 0 {
            tasks := tasks + [Filling(t.call, t.name, stored, 0, t.tier)];
          }
        case Miss => tasks := tasks[id := Reading(t.call, t.name, t.purpose, t.tier + 1)];
        case Fail => tasks := tasks[id := Answered(t.call, t.name, t.purpose, Err(OperationError))];
      }
      StaysValid(old(Snapshot()), Step(id, answer));
    }

    /** No tier is left. */
    method MissAll(id: nat)
      requires Valid() && id < |tasks| && tasks[id].Reading? && tasks[id].tier >= |tiers|
      modifies this
      ensures Valid() && Took(old(Snapshot()), Step(id, Go))
    {
      assert log + [] == log;
      var t := tasks[id];
      tasks := tasks[id := Answered(t.call, t.name, t.purpose, Ok(None))];
      StaysValid(old(Snapshot()), Step(id, Go));
    }

    /** `get` returns. */
    method FinishGet(id: nat)
      requires Valid() && id < |tasks| && tasks[id].Answered? && tasks[id].purpose.ForGet?
      modifies this
      ensures Valid() && Took(old(Snapshot()), Step(id, Go))
      ensures Answers(id)
    {
      assert log + [] == log;
      var t := tasks[id];
      var result := GetInternal(cfg.codec, t.reply, clock);
      if result.Err? {
        tasks := tasks[id := Done(t.call, t.name, GetCall, Err(result.error))];
      } else {
        tasks := tasks[id := Done(t.call, t.name, GetCall, Ok(result.value.value))];
      }
      StaysValid(old(Snapshot()), Step(id, Go));
      AnswersAreTraced(id);
    }

    /** `swr` after its first read: serve, serve and revalidate, or load. */
    method Dispatch(id: nat)
      requires Valid() && id < |tasks| && tasks[id].Answered? && tasks[id].purpose.ForSwr?
      modifies this
      ensures Valid() && Took(old(Snapshot()), Step(id, Go))
      ensures tasks[id].Done? ==> Answers(id)
    {
      var t := tasks[id];
      log := log + [FirstRead(t.call, t.name, Decoded(cfg.codec, t.reply), clock)];
      var arm := SwrArm(GetInternal(cfg.codec, t.reply, clock));
      if arm.ServeStale? {
        tasks := tasks[id := Done(t.call, t.name, SwrCall, Ok(Some(arm.value)))]
          + [Checking(t.call, t.name, Background)];
      } else if arm.LoadOrFallBack? {
        tasks := tasks[id := Checking(t.call, t.name, Foreground(Some(arm.value)))];
      } else if arm.ServeFresh? {
        tasks := tasks[id := Done(t.call, t.name, SwrCall, Ok(Some(arm.value)))];
      } else {
        tasks := tasks[id := Checking(t.call, t.name, Foreground(None))];
      }
      StaysValid(old(Snapshot()), Step(id, Go));
      if tasks[id].Done? {
        AnswersAreTraced(id);
      }
    }

    // -------------------------------------------------------------- loading

    /** The read-lock section that looks for a marker. */
    method CheckMarker(id: nat)
      requires Valid() && id < |tasks| && tasks[id].Checking?
      modifies this
      ensures Valid() && Took(old(Snapshot()), Step(id, Go))
    {
      assert log + [] == log;
      var t := tasks[id];
      if t.name.Ck() in revalidating {
        match t.loader {
          case Foreground(fallback) => tasks := tasks[id := Waiting(t.call, t.name, fallback)];
          case Background =>
            log := log + [FoundMarker(t.call)];
            tasks := tasks[id := Done(t.call, t.name, Spawned, Ok(None))];
        }
      } else {
        tasks := tasks[id := Marking(t.call, t.name, t.loader, SawFree(|log|))];
      }
      StaysValid(old(Snapshot()), Step(id, Go));
    }

    /** The 100 ms are over: a foreground waiter tries the cache again. */
    method WakeUp(id: nat)
      requires Valid() && id < |tasks| && tasks[id].Waiting?
      modifies this
      ensures Valid() && Took(old(Snapshot()), Step(id, Go))
    {
      assert log + [] == log;
      var t := tasks[id];
      tasks := tasks[id := Reading(t.call, t.name, ForRetry(t.fallback), 0)];
      StaysValid(old(Snapshot()), Step(id, Go));
    }

    /** Its retry is answered: whatever decodes is taken, expired or not; otherwise it goes on to load. */
    method FinishRetry(id: nat)
      requires Valid() && id < |tasks| && tasks[id].Answered? && tasks[id].purpose.ForRetry?
      modifies this
      ensures Valid() && Took(old(Snapshot()), Step(id, Go))
    {
      assert log + [] == log;
      var t := tasks[id];
      if t.reply.Ok? && t.reply.value.Some? {
        var entry := IntoTyped(cfg.codec, t.reply.value.value);
        if entry.Ok? {
          log := log + [RetryHit(t.call, t.name, entry.value.value)];
          tasks := tasks[id := Finishing(t.call, t.name, t.purpose.fallback, Ok(Some(entry.value.value)))];
          StaysValid(old(Snapshot()), Step(id, Go));
          return;
        }
      }
      tasks := tasks[id := Marking(t.call, t.name, Foreground(t.purpose.fallback), RetryMissed)];
      StaysValid(old(Snapshot()), Step(id, Go));
    }

    /** The write-lock section that marks; it does not look again. */
    method Mark(id: nat)
      requires Valid() && id < |tasks| && tasks[id].Marking?
      modifies this
      ensures Valid() && Took(old(Snapshot()), Step(id, Go))
    {
      var t := tasks[id];
      log := log + [Marked(id, t.call, t.name, t.name.Ck() in revalidating, t.saw)];
      revalidating := revalidating + {t.name.Ck()};
      tasks := tasks[id := Loading(t.call, t.name, t.loader)];
      StaysValid(old(Snapshot()), Step(id, Go));
    }

    /** The origin answers. A background task stamps the value and starts to write it. */
    method LoadReturns(id: nat, result: Option<Value>)
      requires Valid() && id < |tasks| && tasks[id].Loading?
      modifies this
      ensures Valid() && Took(old(Snapshot()), Step(id, Origin(result)))
    {
      var t := tasks[id];
      log := log + [Loaded(t.call, t.name, result, clock)];
      if t.loader.Background? && result.Some? {
        var now := clock;
        var entry := Entry(result.value, now + cfg.freshMs, now + cfg.staleMs);
        var stored := BuildStored(cfg.codec, entry, cfg.StoreMode());
        if stored.Ok? {
          log := log + [Stamped(t.call, t.name, entry, now, cfg.freshMs, cfg.staleMs, false)];
          tasks := tasks[id := Writing(t.call, t.name, ByRevalidation, stored.value, AllTiers(|cfg.modes|), false)];
          assert log == old(log)
            + [Loaded(t.call, t.name, result, clock), StampedNow(cfg, t.call, t.name, result.value, now)];
          StaysValid(old(Snapshot()), Step(id, Origin(result)));
          return;
        }
      }
      tasks := tasks[id := Unmarking(t.call, t.name, t.loader, result)];
      StaysValid(old(Snapshot()), Step(id, Origin(result)));
    }

    /** The write-lock section that unmarks, whoever marked last. */
    method Unmark(id: nat)
      requires Valid() && id < |tasks| && tasks[id].Unmarking?
      modifies this
      ensures Valid() && Took(old(Snapshot()), Step(id, Go))
    {
      assert log + [] == log;
      var t := tasks[id];
      revalidating := revalidating - {t.name.Ck()};
      match t.loader {
        case Foreground(fallback) => tasks := tasks[id := Finishing(t.call, t.name, fallback, Ok(t.loaded))];
        case Background => tasks := tasks[id := Done(t.call, t.name, Spawned, Ok(None))];
      }
      StaysValid(old(Snapshot()), Step(id, Go));
    }

    /** `swr` has its outcome: it caches a value in the background and returns, or falls back. */
    method Finish(id: nat)
      requires Valid() && id < |tasks| && tasks[id].Finishing?
      modifies this
      ensures Valid() && Took(old(Snapshot()), Step(id, Go))
      ensures Answers(id)
    {
      assert log + [] == log;
      var t := tasks[id];
      if t.outcome.Ok? && t.outcome.value.Some? {
        var v := t.outcome.value.value;
        tasks := tasks[id := Done(t.call, t.name, SwrCall, Ok(Some(v)))];
        CacheValue(t.call, t.name, v);
      } else if t.outcome.Ok? || t.fallback.Some? {
        tasks := tasks[id := Done(t.call, t.name, SwrCall, Ok(t.fallback))];
      } else {
        tasks := tasks[id := Done(t.call, t.name, SwrCall, Err(OperationError))];
      }
      StaysValid(old(Snapshot()), Step(id, Go));
      AnswersAreTraced(id);
    }

    /** `cache_value`. */
    method CacheValue(call: nat, name: Name, value: Value)
      modifies this`tasks, this`log
      ensures var (writer, stamp) := SwrProtocol.CacheValue(cfg, call, name, value, clock);
        tasks == Spawn(old(tasks), writer) && log == old(log) + stamp
    {
      assert log + [] == log;
      var now := clock;
      var entry := Entry(value, now + cfg.freshMs, now + cfg.staleMs);
      var stored := BuildStored(cfg.codec, entry, cfg.StoreMode());
      if stored.Ok? {
        log := log + [Stamped(call, name, entry, now, cfg.freshMs, cfg.staleMs, false)];
        tasks := tasks + [Writing(call, name, ByCache, stored.value, AllTiers(|cfg.modes|), false)];
      }
    }

    // -------------------------------------------------------------- writing

    /** One tier's part of a write; `ok` is false when the tier fails. */
    method WriteTier(id: nat, tier: nat, ok: bool)
      requires Valid() && id < |tasks| && tasks[id].Writing? && tier in tasks[id].pending && tier < |tiers|
      modifies this
      ensures Valid() && Took(old(Snapshot()), Step(id, Tier(tier, ok)))
    {
      assert log + [] == log;
      var t := tasks[id];
      var converted := ConvertForMode(cfg.codec, t.stored, cfg.modes[tier]);
      var failed := t.failed;
      if converted.Ok? && ok {
        tiers := tiers[tier := tiers[tier][t.name.Ck() := converted.value]];
      } else {
        failed := true;
      }
      tasks := tasks[id := Writing(t.call, t.name, t.writer, t.stored, t.pending - {tier}, failed)];
      StaysValid(old(Snapshot()), Step(id, Tier(tier, ok)));
    }

    /** All tiers have answered. */
    method FinishWrite(id: nat)
      requires Valid() && id < |tasks| && tasks[id].Writing? && tasks[id].pending == {}
      modifies this
      ensures Valid() && Took(old(Snapshot()), Step(id, Go))
    {
      assert log + [] == log;
      var t := tasks[id];
      match t.writer {
        case BySet =>
          tasks := tasks[id := Done(t.call, t.name, SetCall, if t.failed then Err(OperationError) else Ok(None))];
        case ByCache => tasks := tasks[id := Done(t.call, t.name, Spawned, Ok(None))];
        case ByRevalidation => tasks := tasks[id := Unmarking(t.call, t.name, Background, None)];
      }
      StaysValid(old(Snapshot()), Step(id, Go));
    }

    /** The next tier of a backfill; a tier that refuses is passed over. */
    method FillTier(id: nat, ok: bool)
      requires Valid() && id < |tasks| && tasks[id].Filling? && tasks[id].tier < tasks[id].upTo
        && tasks[id].tier < |tiers|
      modifies this
      ensures Valid() && Took(old(Snapshot()), Step(id, Tier(old(tasks[id].tier), ok)))
    {
      assert log + [] == log;
      var t := tasks[id];
      var converted := ConvertForMode(cfg.codec, t.stored, cfg.modes[t.tier]);
      if converted.Ok? && ok {
        tiers := tiers[t.tier := tiers[t.tier][t.name.Ck() := converted.value]];
      }
      if t.tier + 1 < t.upTo {
        tasks := tasks[id := Filling(t.call, t.name, t.stored, t.tier + 1, t.upTo)];
      } else {
        tasks := tasks[id := Done(t.call, t.name, Spawned, Ok(None))];
      }
      StaysValid(old(Snapshot()), Step(id, Tier(old(tasks[id].tier), ok)));
    }

    method RemoveTier(id: nat, tier: nat, ok: bool)
      requires Valid() && id < |tasks| && tasks[id].Removing? && tier in tasks[id].pending && tier < |tiers|
      modifies this
      ensures Valid() && Took(old(Snapshot()), Step(id, Tier(tier, ok)))
    {
      assert log + [] == log;
      var t := tasks[id];
      if ok {
        tiers := tiers[tier := tiers[tier] - {t.name.Ck()}];
      }
      tasks := tasks[id := Removing(t.call, t.name, t.pending - {tier}, t.failed || !ok)];
      StaysValid(old(Snapshot()), Step(id, Tier(tier, ok)));
    }

    method FinishRemove(id: nat)
      requires Valid() && id < |tasks| && tasks[id].Removing? && tasks[id].pending == {}
      modifies this
      ensures Valid() && Took(old(Snapshot()), Step(id, Go))
    {
      assert log + [] == log;
      var t := tasks[id];
      tasks := tasks[id := Done(t.call, t.name, RemoveCall, if t.failed then Err(OperationError) else Ok(None))];
      StaysValid(old(Snapshot()), Step(id, Go));
    }

    // -------------------------------------------------------------- environment

    method Tick(now: int)
      requires Valid() && clock <= now
      modifies this`clock
      ensures Valid() && Took(old(Snapshot()), Action.Tick(now))
    {
      clock := now;
      StaysValid(old(Snapshot()), Action.Tick(now));
    }

    /** A tier drops an entry: evicted, expired, or deleted by a read. */
    method Lose(tier: nat, ck: string)
      requires Valid() && tier < |tiers|
      modifies this`tiers
      ensures Valid() && Took(old(Snapshot()), Action.Lose(tier, ck))
    {
      tiers := tiers[tier := tiers[tier] - {ck}];
      StaysValid(old(Snapshot()), Action.Lose(tier, ck));
    }

    // -------------------------------------------------------------- schedules

    method AdvanceRead(id: nat, c: Choice) returns (moved: bool)
      requires Valid() && id < |tasks| && tasks[id].Reading?
      modifies this
      ensures Valid() && (moved <==> Next(cfg, old(Snapshot()), Step(id, c)).Some?)
      ensures if moved then Took(old(Snapshot()), Step(id, c)) else Snapshot() == old(Snapshot())
    {
      var t := tasks[id];
      if t.tier >= |tiers| {
        moved := c.Go?;
        if moved { MissAll(id); }
      } else {
        moved := c.Miss? || c.Fail? || (c.Hit? && t.name.Ck() in tiers[t.tier]);
        if moved { ReadTier(id, c); }
      }
    }

    method AdvanceWrite(id: nat, c: Choice) returns (moved: bool)
      requires Valid() && id < |tasks| && tasks[id].Writing?
      modifies this
      ensures Valid() && (moved <==> Next(cfg, old(Snapshot()), Step(id, c)).Some?)
      ensures if moved then Took(old(Snapshot()), Step(id, c)) else Snapshot() == old(Snapshot())
    {
      moved := true;
      if c.Tier? && c.tier in tasks[id].pending && c.tier < |tiers| {
        WriteTier(id, c.tier, c.ok);
      } else if c.Go? && tasks[id].pending == {} {
        FinishWrite(id);
      } else {
        moved := false;
      }
    }

    /** The steps that depend on nothing but the task and the marker map. */
    method AdvanceLocked(id: nat)
      requires Valid() && id < |tasks|
      requires var t := tasks[id];
        t.Answered? || t.Checking? || t.Waiting? || t.Marking? || t.Unmarking? || t.Finishing?
      modifies this
      ensures Valid() && Took(old(Snapshot()), Step(id, Go))
    {
      match tasks[id] {
        case Answered(_, _, purpose, _) =>
          match purpose {
            case ForGet => FinishGet(id);
            case ForSwr => Dispatch(id);
            case ForRetry(_) => FinishRetry(id);
          }
        case Checking(_, _, _) => CheckMarker(id);
        case Waiting(_, _, _) => WakeUp(id);
        case Marking(_, _, _, _) => Mark(id);
        case Unmarking(_, _, _, _) => Unmark(id);
        case Finishing(_, _, _, _) => Finish(id);
      }
    }

    /** Task `id` takes the step that `c` stands for, by the one method that takes it, if that step is open. */
    method Advance(id: nat, c: Choice) returns (moved: bool)
      requires Valid()
      modifies this
      ensures Valid() && (moved <==> Next(cfg, old(Snapshot()), Step(id, c)).Some?)
      ensures if moved then Took(old(Snapshot()), Step(id, c)) else Snapshot() == old(Snapshot())
    {
      if id >= |tasks| {
        return false;
      }
      var t := tasks[id];
      moved := true;
      match t {
        case Reading(_, _, _, tier) =>
          moved := AdvanceRead(id, c);
        case Writing(_, _, _, _, _, _) =>
          moved := AdvanceWrite(id, c);
        case Filling(_, _, _, tier, upTo) =>
          moved := c.Tier? && c.tier == tier && tier < upTo && tier < |tiers|;
          if moved { FillTier(id, c.ok); }
        case Removing(_, _, pending, _) =>
          if c.Tier? && c.tier in pending && c.tier < |tiers| {
            RemoveTier(id, c.tier, c.ok);
          } else if c.Go? && pending == {} {
            FinishRemove(id);
          } else {
            moved := false;
          }
        case Loading(_, _, _) =>
          moved := c.Origin?;
          if moved { LoadReturns(id, c.result); }
        case Done(_, _, _, _) => moved := false;
        case _ =>
          moved := c.Go?;
          if moved { AdvanceLocked(id); }
      }
    }

    /** Any one action of the protocol. */
    method Act(a: Action) returns (moved: bool)
      requires Valid()
      modifies this
      ensures Valid() && (moved <==> Next(cfg, old(Snapshot()), a).Some?)
      ensures if moved then Took(old(Snapshot()), a) else Snapshot() == old(Snapshot())
    {
      moved := true;
      match a {
        case Step(id, c) => moved := Advance(id, c);
        case Call(GetRequest(name)) => var _ := Get(name);
        case Call(SwrRequest(name)) => var _ := Swr(name);
        case Call(RemoveRequest(name)) => var _ := Remove(name);
        case Call(SetRequest(name, value, opts)) => var _ := Set(name, value, opts);
        case Tick(to) =>
          moved := clock <= to;
          if moved { Tick(to); }
        case Lose(tier, ck) =>
          moved := tier < |tiers|;
          if moved { Lose(tier, ck); }
      }
    }

    /** The object can be driven through every run of the protocol, and a run is possible exactly when every call goes
        through: sequences of method calls and runs are the same thing. */
    method Execute(actions: seq<Action>) returns (done: bool)
      requires Valid()
      modifies this
      ensures Valid() && (done <==> Run(cfg, old(Snapshot()), actions).Some?)
      ensures done ==> Run(cfg, old(Snapshot()), actions) == Some(Snapshot())
    {
      for i := 0 to |actions|
        invariant Valid()
        invariant Run(cfg, Snapshot(), actions[i..]) == Run(cfg, old(Snapshot()), actions)
      {
        assert actions[i..][1..] == actions[i + 1..];
        done := Act(actions[i]);
        if !done {
          return;
        }
      }
      done := true;
    }
  }
}
