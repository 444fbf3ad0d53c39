/** What bounds the age of a value, and what does not. */
module SwrAging {
  import opened Wrappers
  import opened Entries
  import opened SwrProtocol
  import opened SwrRuns
  import opened SwrBackfillRace

  lemma DrainedIsReachable(cfg: Config, s: Sys)
    requires DrainedReach(cfg, s)
    ensures Reachable(cfg, s)
  {
  }

  /** One `set`, and then the clock runs past the entry's life. */
  lemma AfterExpiry(cfg: Config, name: Name, value: Value, start: int) returns (s: Sys)
    requires Serializes(cfg.codec) && |cfg.modes| >= 1 && 0 <= cfg.freshMs < cfg.staleMs
    ensures Reachable(cfg, s) && |s.tasks| == 1 && |s.tiers| == |cfg.modes| && s.marked == {}
    ensures s.clock == start + cfg.staleMs
    ensures s.log == [Given(0, name, value, start), StampedNow(cfg, 0, name, value, start)]
    ensures HoldsEntry(cfg, s, 0, name.Ck(), Restamp(cfg, value, start))
  {
    var s0 := AfterSet(cfg, name, value, start);
    DrainedIsReachable(cfg, s0);
    ReachNext(cfg, s0, Tick(start + cfg.staleMs));
    s := Next(cfg, s0, Tick(start + cfg.staleMs)).value;
    assert HoldsEntry(cfg, s0, 0, name.Ck(), Restamp(cfg, value, start));
  }

  /** `swr` reads the expired entry in the first tier, which keeps such entries, and goes to look for a marker. */
  lemma ReadExpired(cfg: Config, s: Sys, name: Name, entry: Entry) returns (s': Sys)
    requires Reachable(cfg, s) && |s.tiers| == |cfg.modes| >= 1 && HoldsEntry(cfg, s, 0, name.Ck(), entry)
      && entry.IsExpired(s.clock)
    ensures Reachable(cfg, s') && s'.tiers == s.tiers && s'.clock == s.clock && s'.marked == s.marked
    ensures s'.tasks == s.tasks + [Checking(|s.tasks|, name, Foreground(Some(entry.value)))]
    ensures s'.log == s.log + [FirstRead(|s.tasks|, name, Some(entry), s.clock)]
  {
    var id, stored := |s.tasks|, s.tiers[0][name.Ck()];
    var s1 := Next(cfg, s, Call(SwrRequest(name))).value;
    ReachNext(cfg, s, Call(SwrRequest(name)));
    assert s1.tasks == s.tasks + [Reading(id, name, ForSwr, 0)] && s1.log == s.log;
    var s2 := Next(cfg, s1, Step(id, Hit)).value;
    ReachNext(cfg, s1, Step(id, Hit));
    assert s2.tasks == s.tasks + [Answered(id, name, ForSwr, Ok(Some(stored)))] && s2.log == s.log;
    s' := Next(cfg, s2, Step(id, Go)).value;
    ReachNext(cfg, s2, Step(id, Go));
    assert s'.tasks == s.tasks + [Checking(id, name, Foreground(Some(entry.value)))];
  }

  /** While another call loads, a second one waits, finds the expired entry again and takes it. */
  lemma RetryTakesExpired(cfg: Config, s: Sys, id: nat, name: Name, entry: Entry) returns (s': Sys)
    requires Reachable(cfg, s) && |s.tiers| == |cfg.modes| >= 1 && HoldsEntry(cfg, s, 0, name.Ck(), entry)
    requires id < |s.tasks| && s.tasks[id] == Checking(id, name, Foreground(Some(entry.value))) && name.Ck() in s.marked
    ensures Reachable(cfg, s') && s'.clock == s.clock && s'.log == s.log + [RetryHit(id, name, entry.value)]
    ensures id < |s'.tasks| && s'.tasks[id] == Finishing(id, name, Some(entry.value), Ok(Some(entry.value)))
  {
    var s1 := Next(cfg, s, Step(id, Go)).value;
    ReachNext(cfg, s, Step(id, Go));
    assert s1.tasks[id] == Waiting(id, name, Some(entry.value)) && s1.log == s.log;
    var s2 := Next(cfg, s1, Step(id, Go)).value;
    ReachNext(cfg, s1, Step(id, Go));
    assert s2.tasks[id] == Reading(id, name, ForRetry(Some(entry.value)), 0) && s2.log == s.log;
    var s3 := Next(cfg, s2, Step(id, Hit)).value;
    ReachNext(cfg, s2, Step(id, Hit));
    assert s3.tasks[id] == Answered(id, name, ForRetry(Some(entry.value)), Ok(Some(s.tiers[0][name.Ck()])))
      && s3.log == s.log;
    s' := Next(cfg, s3, Step(id, Go)).value;
    ReachNext(cfg, s3, Step(id, Go));
  }

  /** The first caller marks and starts to load. */
  lemma FirstCallerLoads(cfg: Config, s: Sys, id: nat) returns (s': Sys)
    requires Reachable(cfg, s) && id < |s.tasks| && s.tasks[id].Checking? && s.tasks[id].name.Ck() !in s.marked
    ensures Reachable(cfg, s') && s'.tiers == s.tiers && s'.clock == s.clock
      && s'.marked == s.marked + {s.tasks[id].name.Ck()}
    ensures |s'.tasks| == |s.tasks| && s'.tasks == s.tasks[id := s'.tasks[id]] && |s'.log| == |s.log| + 1
    ensures s.log == s'.log[..|s.log|] && s'.log[|s.log|].Marked?
  {
    var s1 := Next(cfg, s, Step(id, Go)).value;
    ReachNext(cfg, s, Step(id, Go));
    assert s1.tasks[id].Marking? && s1.log == s.log;
    s' := Next(cfg, s1, Step(id, Go)).value;
    ReachNext(cfg, s1, Step(id, Go));
  }

  /** The waiter's caller caches what the retry found. */
  lemma StampAnew(cfg: Config, s: Sys, id: nat, name: Name, value: Value) returns (s': Sys)
    requires Reachable(cfg, s) && Serializes(cfg.codec)
    requires id < |s.tasks| && s.tasks[id] == Finishing(id, name, Some(value), Ok(Some(value)))
    ensures Reachable(cfg, s') && s'.clock == s.clock && s'.log == s.log + [StampedNow(cfg, id, name, value, s.clock)]
  {
    BuiltRepresents(cfg.codec, Restamp(cfg, value, s.clock), cfg.StoreMode());
    s' := Next(cfg, s, Step(id, Go)).value;
    ReachNext(cfg, s, Step(id, Go));
  }

  /** Two callers have read the expired entry, and one of them is loading. */
  lemma TwoReaders(cfg: Config, name: Name, value: Value, start: int) returns (s: Sys)
    requires Serializes(cfg.codec) && |cfg.modes| >= 1 && 0 <= cfg.freshMs < cfg.staleMs
    ensures Reachable(cfg, s) && s.clock == start + cfg.staleMs && |s.tiers| == |cfg.modes|
    ensures HoldsEntry(cfg, s, 0, name.Ck(), Restamp(cfg, value, start)) && name.Ck() in s.marked
    ensures |s.tasks| == 3 && s.tasks[2] == Checking(2, name, Foreground(Some(value)))
    ensures |s.log| == 5 && s.log[0] == Given(0, name, value, start)
      && s.log[1] == StampedNow(cfg, 0, name, value, start)
    ensures s.log[2].FirstRead? && s.log[3].FirstRead? && s.log[4].Marked?
  {
    var entry := Restamp(cfg, value, start);
    var s0 := AfterExpiry(cfg, name, value, start);
    var s1 := ReadExpired(cfg, s0, name, entry);
    assert HoldsEntry(cfg, s1, 0, name.Ck(), entry);
    var s2 := ReadExpired(cfg, s1, name, entry);
    s := FirstCallerLoads(cfg, s2, 1);
    assert s.tasks[2] == s2.tasks[2] && s2.log == s.log[..4];
    assert HoldsEntry(cfg, s, 0, name.Ck(), entry);
  }

  /** Age since the value was produced is not bounded: a waiter's retry does not look at the expiry of what
      it finds, and its caller stamps it anew. Here a value given to `set` once, and loaded never, is
      stamped as fresh at the very moment its first entry expires. The first tier is one that returns
      expired entries: Redis with expiration disabled. */
  lemma RetryRevivesExpired(cfg: Config, name: Name, value: Value, start: int) returns (s: Sys)
    requires Serializes(cfg.codec) && cfg.modes != [] && cfg.modes[0].SerializedMode? && 0 <= cfg.freshMs < cfg.staleMs
    ensures Reachable(cfg, s) && s.clock == start + cfg.staleMs
    ensures |s.log| > 1 && s.log[0] == Given(0, name, value, start)
      && s.log[1] == StampedNow(cfg, 0, name, value, start)
    ensures forall k :: 1 <= k < |s.log| ==> !s.log[k].Given? && !s.log[k].Loaded?
    ensures StampedNow(cfg, 2, name, value, start + cfg.staleMs) in s.log
  {
    var s0 := TwoReaders(cfg, name, value, start);
    var s1 := RetryTakesExpired(cfg, s0, 2, name, Restamp(cfg, value, start));
    s := StampAnew(cfg, s1, 2, name, value);
    assert s.log == s0.log + [RetryHit(2, name, value), StampedNow(cfg, 2, name, value, start + cfg.staleMs)];
  }
}
