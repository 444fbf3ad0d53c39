/** What `set` and `remove` do and return, from the request on; and what `swr` then makes of what was set. */
module SwrCalls {
  import opened Wrappers
  import opened Entries
  import opened SwrProtocol
  import opened SwrRuns
  import opened SwrShares
  import opened SwrLookups

  // ---------------------------------------------------------------- `set`

  /** The entry a request asks for: its own timings if it has any, otherwise the cache's. */
  function Asked(cfg: Config, value: Value, opts: Option<Timing>, now: int): Entry {
    match opts
    case Some(timing) => Entry(value, now + timing.freshMs, now + timing.staleMs)
    case None => Entry(value, now + cfg.freshMs, now + cfg.staleMs)
  }

  /** The stack wants serialized entries, and this one does not serialize. */
  predicate Refuses(cfg: Config, entry: Entry) {
    (cfg.modes == [] || cfg.modes[0].SerializedMode?) && cfg.codec.encode(entry).None?
  }

  /** The tier did not fail, and it takes typed entries or this one serializes. */
  predicate Takes(cfg: Config, entry: Entry, share: Share) {
    share.ok && share.tier < |cfg.modes| && (cfg.modes[share.tier].TypedMode? || cfg.codec.encode(entry).Some?)
  }

  lemma RefusesExactly(cfg: Config, entry: Entry)
    ensures Refuses(cfg, entry) <==> BuildStored(cfg.codec, entry, cfg.StoreMode()) == Err(SerializationError)
    ensures Refuses(cfg, entry) <==> BuildStored(cfg.codec, entry, cfg.StoreMode()).Err?
  {
  }

  /** `t` has just begun to write `entry` to every tier, for the call of `set` with number `id`. */
  ghost predicate Starts(cfg: Config, t: Task, id: nat, name: Name, entry: Entry) {
    && t.Writing? && t == Writing(id, name, BySet, t.stored, AllTiers(|cfg.modes|), false)
    && Represents(cfg.codec, t.stored, entry)
    && (t.stored.Serialized? ==> cfg.codec.encode(entry).Some?)
  }

  /** What a `set` builds is a representation of the entry that was asked for, in the mode of the stack. */
  lemma SetBuilds(cfg: Config, entry: Entry)
    requires cfg.codec.RoundTrips() && !Refuses(cfg, entry)
    ensures var stored := BuildStored(cfg.codec, entry, cfg.StoreMode());
      && stored.Ok? && Represents(cfg.codec, stored.value, entry)
      && (stored.value.Serialized? ==> cfg.codec.encode(entry).Some?)
  {
    RefusesExactly(cfg, entry);
    BuiltRepresents(cfg.codec, entry, cfg.StoreMode());
  }

  lemma SetBegins(cfg: Config, call: nat, name: Name, value: Value, opts: Option<Timing>, now: int)
    ensures var stored := BuildStored(cfg.codec, Asked(cfg, value, opts, now), cfg.StoreMode());
      var (task, events) := Arrive(cfg, call, SetRequest(name, value, opts), now);
      && (stored.Ok? ==> task == Writing(call, name, BySet, stored.value, AllTiers(|cfg.modes|), false))
      && (stored.Err? ==> task == Done(call, name, SetCall, Err(stored.error)) && events == [])
  {
  }

  lemma SetArrivesWith(cfg: Config, call: nat, name: Name, value: Value, opts: Option<Timing>, now: int)
    requires cfg.codec.RoundTrips()
    ensures var entry := Asked(cfg, value, opts, now);
      var (task, events) := Arrive(cfg, call, SetRequest(name, value, opts), now);
      if Refuses(cfg, entry) then task == Done(call, name, SetCall, Err(SerializationError)) && events == []
      else Starts(cfg, task, call, name, entry)
  {
    var entry := Asked(cfg, value, opts, now);
    RefusesExactly(cfg, entry);
    SetBegins(cfg, call, name, value, opts, now);
    if !Refuses(cfg, entry) {
      SetBuilds(cfg, entry);
    }
  }

  /** A `set` is refused, with nothing done, if and only if the stack wants serialized entries and this one does not
      serialize; otherwise it starts to write, to every tier, exactly the entry that was asked for. */
  lemma SetArrives(cfg: Config, s: Sys, name: Name, value: Value, opts: Option<Timing>)
    requires cfg.codec.RoundTrips()
    ensures var id, entry := |s.tasks|, Asked(cfg, value, opts, s.clock);
      var s' := Next(cfg, s, Call(SetRequest(name, value, opts))).value;
      && |s'.tasks| == id + 1 && s'.tiers == s.tiers && s'.marked == s.marked && s'.clock == s.clock
      && if Refuses(cfg, entry) then s'.tasks[id] == Done(id, name, SetCall, Err(SerializationError)) && s'.log == s.log
         else Starts(cfg, s'.tasks[id], id, name, entry)
  {
    SetArrivesWith(cfg, |s.tasks|, name, value, opts, s.clock);
    assert s.log + [] == s.log;
  }

  lemma TakenIsAccepted(cfg: Config, t: Task, entry: Entry, share: Share)
    requires cfg.codec.RoundTrips() && t.Writing? && Represents(cfg.codec, t.stored, entry)
    requires !Refuses(cfg, entry) && (t.stored.Serialized? ==> cfg.codec.encode(entry).Some?)
    ensures Accepted(cfg, t, share) <==> Takes(cfg, entry, share)
  {
    if share.tier < |cfg.modes| {
      ConvertedRepresents(cfg.codec, t.stored, entry, cfg.modes[share.tier]);
    }
  }

  /** The tier holds the entry after its share, and is otherwise, as are all others, what it was before. */
  ghost predicate Wrote(cfg: Config, name: Name, entry: Entry, share: Share) {
    && share.tier < |share.before.tiers| == |share.after.tiers|
    && (forall i :: 0 <= i < |share.before.tiers| && i != share.tier ==> share.after.tiers[i] == share.before.tiers[i])
    && name.Ck() in share.after.tiers[share.tier]
    && share.after.tiers[share.tier] - {name.Ck()} == share.before.tiers[share.tier] - {name.Ck()}
    && Represents(cfg.codec, share.after.tiers[share.tier][name.Ck()], entry)
  }

  lemma TakenIsWritten(cfg: Config, t: Task, entry: Entry, share: Share)
    requires cfg.codec.RoundTrips() && t.Writing? && Represents(cfg.codec, t.stored, entry)
    requires DoesItsPart(cfg, t, share)
    ensures Accepted(cfg, t, share) ==> Wrote(cfg, t.name, entry, share)
    ensures !Accepted(cfg, t, share) ==> share.after.tiers == share.before.tiers
  {
    if Accepted(cfg, t, share) {
      ConvertedRepresents(cfg.codec, t.stored, entry, cfg.modes[share.tier]);
    }
  }

  lemma SharesTaken(cfg: Config, t: Task, entry: Entry, shares: seq<Share>)
    requires cfg.codec.RoundTrips() && t.Writing? && Represents(cfg.codec, t.stored, entry)
    requires !Refuses(cfg, entry) && (t.stored.Serialized? ==> cfg.codec.encode(entry).Some?)
    requires AllDoTheirPart(cfg, t, shares)
    ensures AllAccepted(cfg, t, shares) <==> forall i :: 0 <= i < |shares| ==> Takes(cfg, entry, shares[i])
    ensures forall i :: 0 <= i < |shares| ==>
      if Takes(cfg, entry, shares[i]) then Wrote(cfg, t.name, entry, shares[i])
      else shares[i].after.tiers == shares[i].before.tiers
  {
    forall i | 0 <= i < |shares|
      ensures Accepted(cfg, t, shares[i]) <==> Takes(cfg, entry, shares[i])
      ensures if Takes(cfg, entry, shares[i]) then Wrote(cfg, t.name, entry, shares[i])
              else shares[i].after.tiers == shares[i].before.tiers
    {
      TakenIsAccepted(cfg, t, entry, shares[i]);
      TakenIsWritten(cfg, t, entry, shares[i]);
    }
  }

  /** The shares of the call that arrives in `s`, along a run from its arrival. */
  function CallShares(cfg: Config, s: Sys, req: Request, actions: seq<Action>): seq<Share> {
    Shares(cfg, Next(cfg, s, Call(req)).value, actions, |s.tasks|)
  }

  /** The run, from the arrival of the call, finishes it. */
  predicate Finishes(cfg: Config, s: Sys, req: Request, actions: seq<Action>) {
    var r := Run(cfg, Next(cfg, s, Call(req)).value, actions);
    r.Some? && |s.tasks| < |r.value.tasks| && r.value.tasks[|s.tasks|].Done?
  }

  function Finished(cfg: Config, s: Sys, req: Request, actions: seq<Action>): Sys
    requires Finishes(cfg, s, req, actions)
  {
    Run(cfg, Next(cfg, s, Call(req)).value, actions).value
  }

  /** In every run that finishes a `set` that is not refused, from any state: every tier was asked exactly once; the
      reply is Ok if and only if every tier took the entry, and an operation error otherwise; a tier that took it held,
      after that step of the call, an entry with exactly the value and the timestamps that were asked for, and
      one that did not was left as it was. */
  lemma SetTold(cfg: Config, s: Sys, name: Name, value: Value, opts: Option<Timing>, actions: seq<Action>)
    requires cfg.codec.RoundTrips() && |s.tiers| == |cfg.modes| && !Refuses(cfg, Asked(cfg, value, opts, s.clock))
    requires Finishes(cfg, s, SetRequest(name, value, opts), actions)
    ensures var req, entry := SetRequest(name, value, opts), Asked(cfg, value, opts, s.clock);
      var shares, done := CallShares(cfg, s, req, actions), Finished(cfg, s, req, actions).tasks[|s.tasks|];
      && OncePerTier(shares, AllTiers(|cfg.modes|))
      && done.name == name && done.kind == SetCall
      && (done.ret == Ok(None) <==> forall i :: 0 <= i < |shares| ==> Takes(cfg, entry, shares[i]))
      && (done.ret == Ok(None) || done.ret == Err(OperationError))
      && forall i :: 0 <= i < |shares| ==>
           if Takes(cfg, entry, shares[i]) then Wrote(cfg, name, entry, shares[i])
           else shares[i].after.tiers == shares[i].before.tiers
  {
    var req, entry := SetRequest(name, value, opts), Asked(cfg, value, opts, s.clock);
    var s1, shares := Next(cfg, s, Call(req)).value, CallShares(cfg, s, req, actions);
    var t := s1.tasks[|s.tasks|];
    SetArrives(cfg, s, name, value, opts);
    WorkFollowed(cfg, s1, actions, |s.tasks|);
    SharesTaken(cfg, t, entry, shares);
  }

  /** If a `set` is told Ok, and nothing else touched the key meanwhile, then every tier ends holding an entry that
      decodes to exactly the value that was set, with the timestamps that were asked for. */
  lemma SetLeaves(cfg: Config, s: Sys, name: Name, value: Value, opts: Option<Timing>, actions: seq<Action>)
    requires cfg.codec.RoundTrips() && |s.tiers| == |cfg.modes|
    requires Finishes(cfg, s, SetRequest(name, value, opts), actions)
    requires Finished(cfg, s, SetRequest(name, value, opts), actions).tasks[|s.tasks|].ret == Ok(None)
    requires Untouched(cfg, Next(cfg, s, Call(SetRequest(name, value, opts))).value, actions, |s.tasks|, name.Ck())
    ensures var s' := Finished(cfg, s, SetRequest(name, value, opts), actions);
      && |s'.tiers| == |cfg.modes|
      && forall i :: 0 <= i < |cfg.modes| ==>
           && name.Ck() in s'.tiers[i]
           && IntoTyped(cfg.codec, s'.tiers[i][name.Ck()]) == Ok(Asked(cfg, value, opts, s.clock))
  {
    var req, entry := SetRequest(name, value, opts), Asked(cfg, value, opts, s.clock);
    var s1, id := Next(cfg, s, Call(req)).value, |s.tasks|;
    SetArrives(cfg, s, name, value, opts);
    if Refuses(cfg, entry) {
      DoneStays(cfg, s1, actions, id);
    }
    var t, s' := s1.tasks[id], Finished(cfg, s, req, actions);
    WorkFollowed(cfg, s1, actions, id);
    WorkLeaves(cfg, s1, actions, id);
    RunTiers(cfg, s1, actions);
    forall i | 0 <= i < |cfg.modes|
      ensures name.Ck() in s'.tiers[i] && IntoTyped(cfg.codec, s'.tiers[i][name.Ck()]) == Ok(entry)
    {
      assert CellAs(cfg, t, s', i);
      ConvertedRepresents(cfg.codec, t.stored, entry, cfg.modes[i]);
    }
  }

  // ---------------------------------------------------------------- `remove`

  /** The tier no longer holds the key, and is otherwise, as are all others, what it was before. */
  ghost predicate Deleted(name: Name, share: Share) {
    && share.tier < |share.before.tiers|
    && share.after.tiers == share.before.tiers[share.tier := share.before.tiers[share.tier] - {name.Ck()}]
  }

  /** In every run that finishes a `remove`, from any state: every tier was asked exactly once; the reply is Ok if and
      only if none failed, and an operation error otherwise; a tier that did not fail no longer held the key after
      that step of the call, and one that did was left as it was. */
  lemma RemoveTold(cfg: Config, s: Sys, name: Name, actions: seq<Action>)
    requires |s.tiers| == |cfg.modes| && Finishes(cfg, s, RemoveRequest(name), actions)
    ensures var shares := CallShares(cfg, s, RemoveRequest(name), actions);
      var done := Finished(cfg, s, RemoveRequest(name), actions).tasks[|s.tasks|];
      && OncePerTier(shares, AllTiers(|cfg.modes|))
      && done.name == name && done.kind == RemoveCall
      && (done.ret == Ok(None) <==> forall i :: 0 <= i < |shares| ==> shares[i].ok)
      && (done.ret == Ok(None) || done.ret == Err(OperationError))
      && forall i :: 0 <= i < |shares| ==>
           if shares[i].ok then Deleted(name, shares[i]) else shares[i].after.tiers == shares[i].before.tiers
  {
    var s1 := Next(cfg, s, Call(RemoveRequest(name))).value;
    var t, shares := s1.tasks[|s.tasks|], CallShares(cfg, s, RemoveRequest(name), actions);
    WorkFollowed(cfg, s1, actions, |s.tasks|);
    forall i | 0 <= i < |shares|
      ensures Accepted(cfg, t, shares[i]) <==> shares[i].ok
      ensures if shares[i].ok then Deleted(name, shares[i]) else shares[i].after.tiers == shares[i].before.tiers
    {
      assert DoesItsPart(cfg, t, shares[i]);
    }
  }

  /** If a `remove` is told Ok, and nothing else touched the key meanwhile, then no tier ends holding it. */
  lemma RemoveLeaves(cfg: Config, s: Sys, name: Name, actions: seq<Action>)
    requires |s.tiers| == |cfg.modes| && Finishes(cfg, s, RemoveRequest(name), actions)
    requires Finished(cfg, s, RemoveRequest(name), actions).tasks[|s.tasks|].ret == Ok(None)
    requires Untouched(cfg, Next(cfg, s, Call(RemoveRequest(name))).value, actions, |s.tasks|, name.Ck())
    ensures var s' := Finished(cfg, s, RemoveRequest(name), actions);
      |s'.tiers| == |cfg.modes| && forall i :: 0 <= i < |cfg.modes| ==> name.Ck() !in s'.tiers[i]
  {
    var s1, id := Next(cfg, s, Call(RemoveRequest(name))).value, |s.tasks|;
    var t, s' := s1.tasks[id], Finished(cfg, s, RemoveRequest(name), actions);
    WorkFollowed(cfg, s1, actions, id);
    WorkLeaves(cfg, s1, actions, id);
    RunTiers(cfg, s1, actions);
    forall i | 0 <= i < |cfg.modes| ensures name.Ck() !in s'.tiers[i] {
      assert CellAs(cfg, t, s', i);
    }
  }

  // ---------------------------------------------------------------- what `swr` makes of it

  /** The call of `swr`, the answers of the tiers by what they hold, and its decision. */
  function SwrSchedule(s: Sys, n: nat, name: Name): seq<Action> {
    var id := |s.tasks|;
    [Call(SwrRequest(name))] + (Answers(id, FirstHolder(s.tiers, name.Ck(), 0), n) + [Step(id, Go)])
  }

  /** What an `swr` does whose first read gave `found` at `now`. An unexpired entry it serves, and has it revalidated
      once it is no longer fresh; otherwise it goes to load, with the expired value, if any, to fall back on. */
  function Decision(id: nat, name: Name, found: Option<Entry>, now: int): (Task, seq<Task>) {
    match found
    case None => (Checking(id, name, Foreground(None)), [])
    case Some(entry) =>
      if now >= entry.staleUntil then (Checking(id, name, Foreground(Some(entry.value))), [])
      else
        (Done(id, name, SwrCall, Ok(Some(entry.value))),
         if now >= entry.freshUntil then [Checking(id, name, Background)] else [])
  }

  /** What the stack holds first under `ck`, decoded. */
  function HeldEntry(codec: Codec, tiers: seq<Store>, ck: string): Option<Entry> {
    var held := Held(tiers, ck);
    if held.Some? && IntoTyped(codec, held.value).Ok? then Some(IntoTyped(codec, held.value).value) else None
  }

  lemma SwrDecided(cfg: Config, s: Sys, name: Name, reply: Reply, more: seq<Task>) returns (s': Sys)
    requires reply.Ok?
    ensures var id := |s.tasks|;
      Next(cfg, s.(tasks := s.tasks + [Answered(id, name, ForSwr, reply)] + more), Step(id, Go)) == Some(s')
    ensures var (task, spawned) := Decision(|s.tasks|, name, Decoded(cfg.codec, reply), s.clock);
      s'.tiers == s.tiers && s'.marked == s.marked && s'.tasks == s.tasks + [task] + more + spawned
  {
    var id := |s.tasks|;
    var answered := s.(tasks := s.tasks + [Answered(id, name, ForSwr, reply)] + more);
    s' := Next(cfg, answered, Step(id, Go)).value;
    var task := SwrStep(cfg, id, name, reply, s.clock).next;
    assert answered.tasks[id := task] == s.tasks + [task] + more;
  }

  /** From any state, when every tier answers by what it holds, `swr` decides by the first cell there is. */
  lemma SwrDecides(cfg: Config, s: Sys, name: Name) returns (s': Sys)
    requires |s.tiers| == |cfg.modes|
    ensures Run(cfg, s, SwrSchedule(s, |cfg.modes|, name)) == Some(s') && s'.tiers == s.tiers && s'.marked == s.marked
    ensures var id, held := |s.tasks|, Held(s.tiers, name.Ck());
      var (task, spawned) := Decision(id, name, HeldEntry(cfg.codec, s.tiers, name.Ck()), s.clock);
      s'.tasks == s.tasks + [task] + Backfills(task, held, FirstHolder(s.tiers, name.Ck(), 0)) + spawned
  {
    var id, call := |s.tasks|, Call(SwrRequest(name));
    var i, held := FirstHolder(s.tiers, name.Ck(), 0), Held(s.tiers, name.Ck());
    var s1 := Next(cfg, s, call).value;
    assert s.log + [] == s.log;
    assert s1 == s.(tasks := s.tasks + [Reading(id, name, ForSwr, 0)]);
    var s2 := ReadAnswers(cfg, s1, id);
    var more := Backfills(s1.tasks[id], held, i);
    assert s2 == s.(tasks := s.tasks + [Answered(id, name, ForSwr, Ok(held))] + more);
    s' := SwrDecided(cfg, s, name, Ok(held), more);
    RunOne(cfg, s2, Step(id, Go));
    RunConcat(cfg, s1, Answers(id, i, |cfg.modes|), [Step(id, Go)]);
    RunOne(cfg, s, call);
    RunConcat(cfg, s, [call], Answers(id, i, |cfg.modes|) + [Step(id, Go)]);
  }

  /** After a `set` that was told Ok, with nothing else touching the key, at any later time: an `swr` serves the value
      that was set if and only if the time is before the expiry that was asked for, and from then on goes to load. */
  lemma SetThenSwr(cfg: Config, s: Sys, name: Name, value: Value, opts: Option<Timing>, actions: seq<Action>,
      later: int)
    returns (now: Sys, s': Sys)
    requires cfg.codec.RoundTrips() && |s.tiers| == |cfg.modes| > 0
    requires Finishes(cfg, s, SetRequest(name, value, opts), actions)
    requires Finished(cfg, s, SetRequest(name, value, opts), actions).tasks[|s.tasks|].ret == Ok(None)
    requires Untouched(cfg, Next(cfg, s, Call(SetRequest(name, value, opts))).value, actions, |s.tasks|, name.Ck())
    requires Finished(cfg, s, SetRequest(name, value, opts), actions).clock <= later
    ensures Next(cfg, Finished(cfg, s, SetRequest(name, value, opts), actions), Tick(later)) == Some(now)
    ensures Run(cfg, now, SwrSchedule(now, |cfg.modes|, name)) == Some(s') && |now.tasks| < |s'.tasks|
    ensures var id := |now.tasks|;
      var expiry := s.clock + if opts.Some? then opts.value.staleMs else cfg.staleMs;
      if later < expiry then s'.tasks[id] == Done(id, name, SwrCall, Ok(Some(value)))
      else s'.tasks[id] == Checking(id, name, Foreground(Some(value)))
  {
    SetLeaves(cfg, s, name, value, opts, actions);
    var finished := Finished(cfg, s, SetRequest(name, value, opts), actions);
    now := Next(cfg, finished, Tick(later)).value;
    assert now.tiers == finished.tiers && name.Ck() in now.tiers[0];
    assert FirstHolder(now.tiers, name.Ck(), 0) == 0;
    assert HeldEntry(cfg.codec, now.tiers, name.Ck()) == Some(Asked(cfg, value, opts, s.clock));
    s' := SwrDecides(cfg, now, name);
  }

  // ---------------------------------------------------------------- loading

  /** A write of `value`, stamped `now`, to every tier; none if the stack wants serialized entries and it does not
      serialize. */
  ghost predicate CachesIt(cfg: Config, spawned: seq<Task>, writer: Writer, call: nat, name: Name, value: Value,
      now: int) {
    var entry := Entry(value, now + cfg.freshMs, now + cfg.staleMs);
    if Refuses(cfg, entry) then spawned == []
    else
      && |spawned| == 1 && spawned[0].Writing? && spawned[0].writer == writer
      && spawned[0].call == call && spawned[0].name == name && spawned[0].pending == AllTiers(|cfg.modes|)
      && Represents(cfg.codec, spawned[0].stored, entry)
  }

  /** What the call returns that `t` loads for. */
  function Returns(t: Task, result: Option<Value>): Task
    requires t.Checking? && t.loader.Foreground?
  {
    Done(t.call, t.name, SwrCall, Ok(if result.Some? then result else t.loader.fallback))
  }

  function LoadSchedule(id: nat, result: Option<Value>): seq<Action> {
    [Step(id, Go), Step(id, Go), Step(id, Origin(result)), Step(id, Go), Step(id, Go)]
  }

  lemma RunFive(cfg: Config, s: Sys, a1: Action, a2: Action, a3: Action, a4: Action, a5: Action, s1: Sys, s2: Sys,
      s3: Sys, s4: Sys, s5: Sys)
    requires Next(cfg, s, a1) == Some(s1) && Next(cfg, s1, a2) == Some(s2) && Next(cfg, s2, a3) == Some(s3)
    requires Next(cfg, s3, a4) == Some(s4) && Next(cfg, s4, a5) == Some(s5)
    ensures Run(cfg, s, [a1, a2, a3, a4, a5]) == Some(s5)
  {
    RunOne(cfg, s4, a5);
    assert [a4, a5][1..] == [a5] && [a3, a4, a5][1..] == [a4, a5];
    assert Run(cfg, s3, [a4, a5]) == Some(s5) && Run(cfg, s2, [a3, a4, a5]) == Some(s5);
    assert [a2, a3, a4, a5][1..] == [a3, a4, a5] && [a1, a2, a3, a4, a5][1..] == [a2, a3, a4, a5];
    assert Run(cfg, s1, [a2, a3, a4, a5]) == Some(s5);
  }

  lemma LoadsAndUnmarks(cfg: Config, s: Sys, id: nat, result: Option<Value>)
    returns (s1: Sys, s2: Sys, s3: Sys, s4: Sys)
    requires id < |s.tasks| && s.tasks[id].Checking? && s.tasks[id].loader.Foreground?
      && s.tasks[id].name.Ck() !in s.marked
    ensures Next(cfg, s, Step(id, Go)) == Some(s1) && Next(cfg, s1, Step(id, Go)) == Some(s2)
    ensures Next(cfg, s2, Step(id, Origin(result))) == Some(s3) && Next(cfg, s3, Step(id, Go)) == Some(s4)
    ensures var t := s.tasks[id];
      && s2.marked == s.marked + {t.name.Ck()} && s3.marked == s2.marked && s4.marked == s.marked
      && s4.tiers == s.tiers && s4.clock == s.clock
      && s4.tasks == s.tasks[id := Finishing(t.call, t.name, t.loader.fallback, Ok(result))]
  {
    var t := s.tasks[id];
    s1 := Next(cfg, s, Step(id, Go)).value;
    assert s1.tasks[id] == Marking(t.call, t.name, t.loader, SawFree(|s.log|));
    s2 := Next(cfg, s1, Step(id, Go)).value;
    assert s2.tasks[id] == Loading(t.call, t.name, t.loader);
    s3 := Next(cfg, s2, Step(id, Origin(result))).value;
    assert s3.tasks[id] == Unmarking(t.call, t.name, t.loader, result);
    s4 := Next(cfg, s3, Step(id, Go)).value;
    var last := Finishing(t.call, t.name, t.loader.fallback, Ok(result));
    assert s4.tasks == s.tasks[id := last];
  }

  lemma CachesLoaded(cfg: Config, call: nat, name: Name, value: Value, now: int)
    requires cfg.codec.RoundTrips()
    ensures CachesIt(cfg, Spawn([], CacheValue(cfg, call, name, value, now).0), ByCache, call, name, value, now)
  {
    var entry := Restamp(cfg, value, now);
    RefusesExactly(cfg, entry);
    if !Refuses(cfg, entry) {
      SetBuilds(cfg, entry);
    }
  }

  /** From any state, a foreground call that finds its key free and loads alone: it marks, loads, unmarks, returns what
      it loaded, with one write of it, stamped then, to every tier under way; or, when that is nothing, what it had
      to fall back on, with nothing under way. The markers and the tiers are as before. */
  lemma ForegroundLoads(cfg: Config, s: Sys, id: nat, result: Option<Value>) returns (s': Sys, spawned: seq<Task>)
    requires cfg.codec.RoundTrips()
    requires id < |s.tasks| && s.tasks[id].Checking? && s.tasks[id].loader.Foreground?
      && s.tasks[id].name.Ck() !in s.marked
    ensures Run(cfg, s, LoadSchedule(id, result)) == Some(s') && s'.marked == s.marked && s'.tiers == s.tiers
    ensures var t := s.tasks[id];
      && s'.tasks == s.tasks[id := Returns(t, result)] + spawned
      && if result.Some? then CachesIt(cfg, spawned, ByCache, t.call, t.name, result.value, s.clock) else spawned == []
  {
    var t, go := s.tasks[id], Step(id, Go);
    var s1, s2, s3, s4 := LoadsAndUnmarks(cfg, s, id, result);
    s' := Next(cfg, s4, go).value;
    RunFive(cfg, s, go, go, Step(id, Origin(result)), go, go, s1, s2, s3, s4, s');
    spawned := [];
    var done := Returns(t, result);
    assert s4.tasks[id := done] == s.tasks[id := done];
    if result.Some? {
      spawned := Spawn([], CacheValue(cfg, t.call, t.name, result.value, s.clock).0);
      CachesLoaded(cfg, t.call, t.name, result.value, s.clock);
    }
  }

  lemma BackgroundWrites(cfg: Config, t: Task, result: Option<Value>, now: int)
    requires cfg.codec.RoundTrips() && t.Loading? && t.loader.Background?
    ensures var next := LoadStep(cfg, t, result, now).next;
      && (next.Unmarking? <==> result.None? || Refuses(cfg, Entry(result.value, now + cfg.freshMs, now + cfg.staleMs)))
      && (next.Unmarking? ==> next == Unmarking(t.call, t.name, Background, result))
      && (!next.Unmarking? ==> CachesIt(cfg, [next], ByRevalidation, t.call, t.name, result.value, now))
  {
    if result.Some? {
      var entry := Restamp(cfg, result.value, now);
      RefusesExactly(cfg, entry);
      if !Refuses(cfg, entry) {
        SetBuilds(cfg, entry);
      }
    }
  }

  /** From any state, a background revalidation that finds its key marked ends there; one that finds it free marks,
      loads, and has one write of what it loaded, stamped then, to every tier under way, still holding the marker; or,
      when there is nothing to write, it has nothing left to do but to unmark. */
  lemma BackgroundLoads(cfg: Config, s: Sys, id: nat, result: Option<Value>) returns (s1: Sys, s2: Sys, s3: Sys)
    requires cfg.codec.RoundTrips() && id < |s.tasks| && s.tasks[id].Checking? && s.tasks[id].loader.Background?
    ensures Next(cfg, s, Step(id, Go)) == Some(s1) && s1.marked == s.marked && s1.tiers == s.tiers
    ensures var t := s.tasks[id];
      t.name.Ck() in s.marked ==> s1.tasks == s.tasks[id := Done(t.call, t.name, Spawned, Ok(None))]
    ensures var t := s.tasks[id];
      t.name.Ck() !in s.marked ==>
        && Next(cfg, s1, Step(id, Go)) == Some(s2) && Next(cfg, s2, Step(id, Origin(result))) == Some(s3)
        && s3.marked == s.marked + {t.name.Ck()} && s3.tiers == s.tiers && |s3.tasks| == |s.tasks|
        && s3.tasks == s.tasks[id := s3.tasks[id]]
        && (s3.tasks[id] == Unmarking(t.call, t.name, Background, result)
            || (result.Some?
                && CachesIt(cfg, [s3.tasks[id]], ByRevalidation, t.call, t.name, result.value, s.clock)))
        && (s3.tasks[id].Unmarking? <==>
              result.None? || Refuses(cfg, Entry(result.value, s.clock + cfg.freshMs, s.clock + cfg.staleMs)))
  {
    var t := s.tasks[id];
    s1 := Next(cfg, s, Step(id, Go)).value;
    s2, s3 := s1, s1;
    if t.name.Ck() !in s.marked {
      assert s1.tasks[id] == Marking(t.call, t.name, t.loader, SawFree(|s.log|));
      s2 := Next(cfg, s1, Step(id, Go)).value;
      assert s2.tasks[id] == Loading(t.call, t.name, t.loader);
      s3 := Next(cfg, s2, Step(id, Origin(result))).value;
      BackgroundWrites(cfg, s2.tasks[id], result, s.clock);
      assert s3.tasks == s.tasks[id := s3.tasks[id]];
    }
  }
}
