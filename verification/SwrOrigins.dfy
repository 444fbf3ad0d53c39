/** Where each stamp's value comes from, and so how old a served value can be. */
module SwrOrigins {
  import opened Wrappers
  import opened Entries
  import opened SwrProtocol
  import opened SwrRuns
  import opened SwrProvenance
  import opened SwrReplies

  /** The loader of `call` returned `result` no later than `until`. */
  ghost predicate LoadedBy(log: seq<Event>, call: nat, name: Name, result: Option<Value>, until: int) {
    exists at :: at <= until && Loaded(call, name, result, at) in log
  }

  /** A stamp marks a value that its own call was given just then, loaded before, or found in its retry. */
  ghost predicate Sourced(cfg: Config, log: seq<Event>, ev: Event)
    requires ev.Stamped?
  {
    && BuildStored(cfg.codec, ev.entry, cfg.StoreMode()).Ok?
    && (|| Given(ev.call, ev.name, ev.entry.value, ev.at) in log
        || (ev.entry == Restamp(cfg, ev.entry.value, ev.at)
            && (|| LoadedBy(log, ev.call, ev.name, Some(ev.entry.value), ev.at)
                || RetryHit(ev.call, ev.name, ev.entry.value) in log)))
  }

  ghost predicate Backed(log: seq<Event>, clock: int, t: Task) {
    && (t.Unmarking? && t.loader.Foreground? ==> LoadedBy(log, t.call, t.name, t.loaded, clock))
    && (t.Finishing? && t.outcome.Ok? && t.outcome.value.Some? ==>
          || LoadedBy(log, t.call, t.name, t.outcome.value, clock)
          || RetryHit(t.call, t.name, t.outcome.value.value) in log)
  }

  ghost predicate AllSourced(cfg: Config, s: Sys) {
    && (forall ev :: ev in s.log && ev.Stamped? ==> Sourced(cfg, s.log, ev))
    && (forall id :: 0 <= id < |s.tasks| ==> Backed(s.log, s.clock, s.tasks[id]))
  }

  lemma SourcedGrows(cfg: Config, log: seq<Event>, more: seq<Event>, ev: Event)
    requires ev.Stamped? && Sourced(cfg, log, ev)
    ensures Sourced(cfg, log + more, ev)
  {
    assert forall e :: e in log ==> e in log + more;
  }

  lemma BackedGrows(log: seq<Event>, more: seq<Event>, clock: int, later: int, t: Task)
    requires Backed(log, clock, t) && clock <= later
    ensures Backed(log + more, later, t)
  {
    assert forall e :: e in log ==> e in log + more;
  }

  ghost predicate EffectSourced(cfg: Config, s: Sys, e: Effect) {
    var log := s.log + e.events;
    && Backed(log, s.clock, e.next) && (e.spawn.Some? ==> Backed(log, s.clock, e.spawn.value))
    && forall ev :: ev in e.events && ev.Stamped? ==> Sourced(cfg, log, ev)
  }

  lemma FinishSourced(cfg: Config, s: Sys, t: Task)
    requires t.Finishing? && Backed(s.log, s.clock, t)
    ensures EffectSourced(cfg, s, FinishStep(cfg, t, s.clock))
  {
    var e := FinishStep(cfg, t, s.clock);
    assert forall ev :: ev in s.log ==> ev in s.log + e.events;
  }

  lemma LoadSourced(cfg: Config, s: Sys, t: Task, result: Option<Value>)
    requires t.Loading?
    ensures EffectSourced(cfg, s, LoadStep(cfg, t, result, s.clock))
  {
    var e := LoadStep(cfg, t, result, s.clock);
    assert e.events[0] == Loaded(t.call, t.name, result, s.clock) && e.events[0] in s.log + e.events;
  }

  lemma StepSourced(cfg: Config, s: Sys, id: nat, c: Choice)
    requires id < |s.tasks| && Backed(s.log, s.clock, s.tasks[id])
    ensures var e := LocalStep(cfg, id, s.tasks[id], c, ViewOf(s, s.tasks[id]));
      e.Some? ==> EffectSourced(cfg, s, e.value)
  {
    var t := s.tasks[id];
    var r := LocalStep(cfg, id, t, c, ViewOf(s, t));
    if r.Some? {
      assert forall ev :: ev in s.log ==> ev in s.log + r.value.events;
      match t
      case Loading(_, _, _) => LoadSourced(cfg, s, t, c.result);
      case Finishing(_, _, _, _) => FinishSourced(cfg, s, t);
      case Answered(_, _, _, _) => assert forall ev :: ev in r.value.events ==> ev in s.log + r.value.events;
      case _ =>
    }
  }

  lemma PerformSourced(cfg: Config, s: Sys, id: nat, e: Effect)
    requires AllSourced(cfg, s) && id < |s.tasks| && EffectSourced(cfg, s, e)
    ensures AllSourced(cfg, Perform(s, id, e))
  {
    var s' := Perform(s, id, e);
    forall ev | ev in s'.log && ev.Stamped? ensures Sourced(cfg, s'.log, ev) {
      if ev in s.log {
        SourcedGrows(cfg, s.log, e.events, ev);
      }
    }
    forall i | 0 <= i < |s'.tasks| ensures Backed(s'.log, s'.clock, s'.tasks[i]) {
      if i < |s.tasks| && i != id {
        BackedGrows(s.log, e.events, s.clock, s.clock, s.tasks[i]);
      }
    }
  }

  lemma ArrivalSourced(cfg: Config, s: Sys, req: Request)
    requires AllSourced(cfg, s)
    ensures AllSourced(cfg, Next(cfg, s, Call(req)).value)
  {
    var s' := Next(cfg, s, Call(req)).value;
    var (task, events) := Arrive(cfg, |s.tasks|, req, s.clock);
    assert forall ev :: ev in events ==> ev in s'.log;
    forall ev | ev in s'.log && ev.Stamped? ensures Sourced(cfg, s'.log, ev) {
      if ev in s.log {
        SourcedGrows(cfg, s.log, events, ev);
      } else {
        assert events[0] in events && events[1] in events;
      }
    }
    forall i | 0 <= i < |s'.tasks| ensures Backed(s'.log, s'.clock, s'.tasks[i]) {
      if i < |s.tasks| {
        BackedGrows(s.log, events, s.clock, s.clock, s.tasks[i]);
      }
    }
  }

  lemma EnvironmentSourced(cfg: Config, s: Sys, a: Action)
    requires AllSourced(cfg, s) && (a.Tick? || a.Lose?) && Next(cfg, s, a).Some?
    ensures AllSourced(cfg, Next(cfg, s, a).value)
  {
    var s' := Next(cfg, s, a).value;
    forall i | 0 <= i < |s'.tasks| ensures Backed(s'.log, s'.clock, s'.tasks[i]) {
      BackedGrows(s.log, [], s.clock, s'.clock, s.tasks[i]);
      assert s.log + [] == s.log;
    }
  }

  lemma ReachableSourced(cfg: Config, s: Sys)
    requires Reachable(cfg, s)
    ensures AllSourced(cfg, s)
  {
    forall s, a | AllSourced(cfg, s) && Next(cfg, s, a).Some? ensures AllSourced(cfg, Next(cfg, s, a).value) {
      match a
      case Step(id, c) =>
        StepSourced(cfg, s, id, c);
        PerformSourced(cfg, s, id, LocalStep(cfg, id, s.tasks[id], c, ViewOf(s, s.tasks[id])).value);
      case Call(req) => ArrivalSourced(cfg, s, req);
      case _ => EnvironmentSourced(cfg, s, a);
    }
    ReachableKeeps(cfg, s => AllSourced(cfg, s), s);
  }

  // ---------------------------------------------------------------- age since the origin

  ghost predicate NoRetryHit(log: seq<Event>, ck: string) {
    forall ev :: ev in log && ev.RetryHit? ==> ev.name.Ck() != ck
  }

  /** The value of an entry stamped by `stamp` was given to `set` then, or loaded, by the stamp's own call,
      `gap` before. */
  ghost predicate OriginOf(log: seq<Event>, stamp: Event, gap: nat)
    requires stamp.Stamped?
  {
    || (gap == 0 && Given(stamp.call, stamp.name, stamp.entry.value, stamp.at) in log)
    || Loaded(stamp.call, stamp.name, Some(stamp.entry.value), stamp.at - gap) in log
  }

  /** With default timings, and as long as no waiter's retry has found anything under the key: whatever `swr`
      serves unexpired was given or loaded, by one call for that key, less than `stale_ms` before, plus the time
      that call took between its load and its stamp. */
  lemma AgeSinceOrigin(cfg: Config, s: Sys, call: nat, name: Name, entry: Entry, at: int)
    returns (stamp: Event, gap: nat)
    requires cfg.codec.RoundTrips() && Reachable(cfg, s) && DefaultTimings(s.log) && NoRetryHit(s.log, name.Ck())
    requires FirstRead(call, name, Some(entry), at) in s.log && !entry.IsExpired(at)
    ensures stamp in s.log && stamp.Stamped? && stamp.name.Ck() == name.Ck() && stamp.entry == entry
    ensures OriginOf(s.log, stamp, gap)
    ensures var origin := stamp.at - gap; 0 <= at - origin < cfg.staleMs + gap
  {
    ServedAge(cfg, s, call, name, entry, at);
    stamp :| stamp in s.log && stamp.Stamped? && stamp.name.Ck() == name.Ck() && stamp.entry == entry
      && 0 <= at - stamp.at < cfg.staleMs;
    ReachableSourced(cfg, s);
    assert Sourced(cfg, s.log, stamp);
    gap := 0;
    if Given(stamp.call, stamp.name, entry.value, stamp.at) !in s.log {
      var la :| la <= stamp.at && Loaded(stamp.call, stamp.name, Some(entry.value), la) in s.log;
      gap := stamp.at - la;
    }
  }

  // ---------------------------------------------------------------- what a retry does to that

  /** `call` stamped, at time `at`, a value that it did not load. */
  ghost predicate StampsUnloaded(log: seq<Event>, call: nat, at: int) {
    exists ev :: ev in log && ev.Stamped? && ev.call == call && ev.at == at
      && forall la :: Loaded(call, ev.name, Some(ev.entry.value), la) !in log
  }

  /** What becomes of the retry `t` of task `id`: it is still to be looked at, or it hit and settled its call, or
      its task went on to load. */
  ghost predicate Followed(codec: Codec, s: Sys, id: nat, t: Task)
    requires t.Answered?
  {
    && id < |s.tasks|
    && (|| s.tasks[id] == t
        || (Decoded(codec, t.reply).Some? && RetryHit(t.call, t.name, Decoded(codec, t.reply).value.value) in s.log)
        || (Decoded(codec, t.reply).None? && s.tasks[id].call == t.call
          && (s.tasks[id].Marking? || s.tasks[id].Loading?))
        || (Decoded(codec, t.reply).None? && exists ev :: ev in s.log && ev.Loaded? && ev.call == t.call))
  }

  lemma FollowedStep(cfg: Config, s: Sys, a: Action, id: nat, t: Task)
    requires t.Answered? && t.purpose.ForRetry? && Followed(cfg.codec, s, id, t) && Next(cfg, s, a).Some?
    ensures Followed(cfg.codec, Next(cfg, s, a).value, id, t)
  {
    var s' := Next(cfg, s, a).value;
    assert forall ev :: ev in s.log ==> ev in s'.log;
    if a.Step? && a.id == id {
      var e := LocalStep(cfg, id, s.tasks[id], a.choice, ViewOf(s, s.tasks[id])).value;
      assert forall ev :: ev in e.events ==> ev in s'.log;
      if s.tasks[id] == t && Decoded(cfg.codec, t.reply).Some? {
        assert e.events[0] in e.events;
      } else if s.tasks[id].Loading? {
        assert e.events[0] in e.events;
      }
    }
  }

  lemma {:induction false} FollowedRun(cfg: Config, s: Sys, actions: seq<Action>, id: nat, t: Task)
    requires t.Answered? && t.purpose.ForRetry? && Followed(cfg.codec, s, id, t) && Run(cfg, s, actions).Some?
    ensures Followed(cfg.codec, Run(cfg, s, actions).value, id, t)
    decreases |actions|
  {
    if actions == [] {
    } else {
      FollowedStep(cfg, s, actions[0], id, t);
      FollowedRun(cfg, Next(cfg, s, actions[0]).value, actions[1..], id, t);
    }
  }

  /** Only a retry that hit lets its call stamp what it did not load. */
  lemma UnloadedStampIsRetried(cfg: Config, s: Sys, id: nat, t: Task, stamp: Event)
    requires Reachable(cfg, s) && t.Answered? && t.purpose.ForRetry? && Followed(cfg.codec, s, id, t)
    requires stamp in s.log && stamp.Stamped? && stamp.call == t.call
    requires forall la :: Loaded(t.call, stamp.name, Some(stamp.entry.value), la) !in s.log
    ensures var d := Decoded(cfg.codec, t.reply);
      && d.Some? && BuildStored(cfg.codec, stamp.entry, cfg.StoreMode()).Ok?
      && stamp.entry == Restamp(cfg, d.value.value, stamp.at)
  {
    ReachableSourced(cfg, s);
    assert Sourced(cfg, s.log, stamp);
    var source := if Given(stamp.call, stamp.name, stamp.entry.value, stamp.at) in s.log
      then Given(stamp.call, stamp.name, stamp.entry.value, stamp.at)
      else RetryHit(stamp.call, stamp.name, stamp.entry.value);
    if s.tasks[id] == t || (s.tasks[id].call == t.call && Unsettled(s.tasks[id])) {
      UnsettledBefore(cfg, s, id, source);
    } else if Decoded(cfg.codec, t.reply).Some? {
      SettledOnce(cfg, s, source, RetryHit(t.call, t.name, Decoded(cfg.codec, t.reply).value.value));
    } else {
      var ev :| ev in s.log && ev.Loaded? && ev.call == t.call;
      SettledOnce(cfg, s, source, ev);
    }
  }

  /** A retry that decoded something is taken, expired or not, and its call stamps it. */
  lemma RetryHitIsStamped(cfg: Config, s: Sys, id: nat) returns (actions: seq<Action>)
    requires Reachable(cfg, s) && id < |s.tasks| && s.tasks[id].Answered? && s.tasks[id].purpose.ForRetry?
    requires var d := Decoded(cfg.codec, s.tasks[id].reply);
      d.Some? && BuildStored(cfg.codec, Restamp(cfg, d.value.value, s.clock), cfg.StoreMode()).Ok?
    ensures Run(cfg, s, actions).Some? && StampsUnloaded(Run(cfg, s, actions).value.log, s.tasks[id].call, s.clock)
  {
    var t, go := s.tasks[id], Step(id, Go);
    var v := Decoded(cfg.codec, t.reply).value.value;
    var s1 := Next(cfg, s, go).value;
    assert s1.tasks[id] == Finishing(t.call, t.name, t.purpose.fallback, Ok(Some(v)));
    var s2 := Next(cfg, s1, go).value;
    var stamp := StampedNow(cfg, t.call, t.name, v, s.clock);
    assert s2.log == s.log + [RetryHit(t.call, t.name, v)] + [stamp];
    forall la ensures Loaded(t.call, t.name, Some(v), la) !in s2.log {
      if Loaded(t.call, t.name, Some(v), la) in s.log {
        UnsettledBefore(cfg, s, id, Loaded(t.call, t.name, Some(v), la));
      }
    }
    assert stamp in s2.log;
    actions := [go, go];
    assert actions[1..] == [go] && [go][1..] == [];
    assert Run(cfg, s2, []) == Some(s2) && Run(cfg, s1, [go]) == Some(s2);
  }

  /** An answered retry can lead its call to stamp, at the present time, a value the call did not load, if and only
      if the retry decoded something that can be stored. Its expiry plays no part. */
  lemma RetryExactly(cfg: Config, s: Sys, id: nat)
    requires Reachable(cfg, s) && id < |s.tasks| && s.tasks[id].Answered? && s.tasks[id].purpose.ForRetry?
    ensures (exists actions ::
               Run(cfg, s, actions).Some? && StampsUnloaded(Run(cfg, s, actions).value.log, s.tasks[id].call, s.clock))
       <==> (var d := Decoded(cfg.codec, s.tasks[id].reply);
             d.Some? && BuildStored(cfg.codec, Restamp(cfg, d.value.value, s.clock), cfg.StoreMode()).Ok?)
  {
    var t := s.tasks[id];
    var d := Decoded(cfg.codec, t.reply);
    if d.Some? && BuildStored(cfg.codec, Restamp(cfg, d.value.value, s.clock), cfg.StoreMode()).Ok? {
      var actions := RetryHitIsStamped(cfg, s, id);
    }
    forall actions | Run(cfg, s, actions).Some? && StampsUnloaded(Run(cfg, s, actions).value.log, t.call, s.clock)
      ensures d.Some? && BuildStored(cfg.codec, Restamp(cfg, d.value.value, s.clock), cfg.StoreMode()).Ok?
    {
      var s' := Run(cfg, s, actions).value;
      var stamp :| stamp in s'.log && stamp.Stamped? && stamp.call == t.call && stamp.at == s.clock
        && forall la :: Loaded(t.call, stamp.name, Some(stamp.entry.value), la) !in s'.log;
      FollowedRun(cfg, s, actions, id, t);
      ReachRun(cfg, s, actions);
      UnloadedStampIsRetried(cfg, s', id, t, stamp);
    }
  }

  /** If the retry decoded nothing, every stamp its call will ever make, in any run, is of its own load. */
  lemma MissedRetryStampsItsLoad(cfg: Config, s: Sys, id: nat, actions: seq<Action>, stamp: Event)
    requires Reachable(cfg, s) && id < |s.tasks| && s.tasks[id].Answered? && s.tasks[id].purpose.ForRetry?
    requires Decoded(cfg.codec, s.tasks[id].reply).None? && Run(cfg, s, actions).Some?
    requires stamp in Run(cfg, s, actions).value.log && stamp.Stamped? && stamp.call == s.tasks[id].call
    ensures LoadedBy(Run(cfg, s, actions).value.log, stamp.call, stamp.name, Some(stamp.entry.value), stamp.at)
  {
    var s', t := Run(cfg, s, actions).value, s.tasks[id];
    FollowedRun(cfg, s, actions, id, t);
    ReachRun(cfg, s, actions);
    ReachableSourced(cfg, s');
    assert Sourced(cfg, s'.log, stamp);
    if forall la :: Loaded(t.call, stamp.name, Some(stamp.entry.value), la) !in s'.log {
      UnloadedStampIsRetried(cfg, s', id, t, stamp);
    } else {
      var la :| Loaded(t.call, stamp.name, Some(stamp.entry.value), la) in s'.log;
      var load := Loaded(t.call, stamp.name, Some(stamp.entry.value), la);
      if Given(stamp.call, stamp.name, stamp.entry.value, stamp.at) in s'.log {
        SettledOnce(cfg, s', load, Given(stamp.call, stamp.name, stamp.entry.value, stamp.at));
      } else if RetryHit(stamp.call, stamp.name, stamp.entry.value) in s'.log {
        SettledOnce(cfg, s', load, RetryHit(stamp.call, stamp.name, stamp.entry.value));
      }
    }
  }
}
