/** What a backfill that is overtaken costs: between drained calls it is the one way to lose coherence, and
    a schedule that loses it always exists. */
module SwrBackfillRace {
  import opened Wrappers
  import opened Entries
  import opened Sums
  import opened SwrProtocol
  import opened SwrDrain
  import opened SwrCoherence
  import opened SwrDrainedRuns

  // ---------------------------------------------------------------- settling

  ghost predicate NoCalls(actions: seq<Action>) {
    forall a :: a in actions ==> !a.Call?
  }

  /** `s'` comes of `s` under some schedule with no new call and no tier refusing a write. */
  ghost predicate Settling(cfg: Config, s: Sys, s': Sys) {
    exists actions :: NoCalls(actions) && Run(cfg, s, actions) == Some(s') && Drained(cfg, s, actions)
  }

  lemma {:induction false} DrainedSnoc(cfg: Config, s: Sys, actions: seq<Action>, a: Action)
    requires Run(cfg, s, actions).Some? && Drained(cfg, s, actions)
    requires var last := Run(cfg, s, actions).value;
      Next(cfg, last, a).Some? && NoFailure(Next(cfg, last, a).value) && (a.Call? ==> Quiescent(last))
    ensures Run(cfg, s, actions + [a]) == Next(cfg, Run(cfg, s, actions).value, a)
    ensures Drained(cfg, s, actions + [a])
    decreases |actions|
  {
    if actions == [] {
      var s' := Next(cfg, s, a).value;
      assert [] + [a] == [a] && [a][1..] == [];
      assert Run(cfg, s', []) == Some(s') && Drained(cfg, s', []);
    } else {
      assert (actions + [a])[1..] == actions[1..] + [a];
      DrainedSnoc(cfg, Next(cfg, s, actions[0]).value, actions[1..], a);
    }
  }

  lemma SettlingStays(cfg: Config, s: Sys)
    requires NoFailure(s)
    ensures Settling(cfg, s, s)
  {
    assert NoCalls([]) && Run(cfg, s, []) == Some(s) && Drained(cfg, s, []);
  }

  lemma SettlingNext(cfg: Config, s: Sys, s1: Sys, a: Action)
    requires Settling(cfg, s, s1) && !a.Call? && Next(cfg, s1, a).Some? && NoFailure(Next(cfg, s1, a).value)
    ensures Settling(cfg, s, Next(cfg, s1, a).value)
  {
    var actions :| NoCalls(actions) && Run(cfg, s, actions) == Some(s1) && Drained(cfg, s, actions);
    DrainedSnoc(cfg, s, actions, a);
    assert NoCalls(actions + [a]);
  }

  ghost predicate DrainedReach(cfg: Config, s: Sys) {
    exists start, actions :: Run(cfg, Init(cfg, start), actions) == Some(s) && Drained(cfg, Init(cfg, start), actions)
  }

  lemma DrainedNext(cfg: Config, s: Sys, a: Action)
    requires DrainedReach(cfg, s) && Next(cfg, s, a).Some?
    requires NoFailure(Next(cfg, s, a).value) && (a.Call? ==> Quiescent(s))
    ensures DrainedReach(cfg, Next(cfg, s, a).value)
  {
    var start, actions :| Run(cfg, Init(cfg, start), actions) == Some(s) && Drained(cfg, Init(cfg, start), actions);
    DrainedSnoc(cfg, Init(cfg, start), actions, a);
  }

  lemma {:induction false} DrainedRun(cfg: Config, s: Sys, actions: seq<Action>)
    requires DrainedReach(cfg, s) && Run(cfg, s, actions).Some? && Drained(cfg, s, actions)
    ensures DrainedReach(cfg, Run(cfg, s, actions).value)
    decreases |actions|
  {
    if actions == [] {
    } else {
      DrainedNext(cfg, s, actions[0]);
      DrainedRun(cfg, Next(cfg, s, actions[0]).value, actions[1..]);
    }
  }

  lemma DrainedSettles(cfg: Config, s: Sys, s': Sys)
    requires DrainedReach(cfg, s) && Settling(cfg, s, s')
    ensures DrainedReach(cfg, s')
  {
    var actions :| NoCalls(actions) && Run(cfg, s, actions) == Some(s') && Drained(cfg, s, actions);
    DrainedRun(cfg, s, actions);
  }

  // ---------------------------------------------------------------- tasks left alone

  ghost predicate Serializes(codec: Codec) {
    codec.RoundTrips() && forall e :: codec.encode(e).Some?
  }

  ghost predicate HoldsEntry(cfg: Config, s: Sys, i: nat, ck: string, entry: Entry) {
    i < |s.tiers| && ck in s.tiers[i] && Represents(cfg.codec, s.tiers[i][ck], entry)
  }

  function WithPending(t: Task, pending: set<nat>): Task
    requires t.Writing?
  {
    Writing(t.call, t.name, t.writer, t.stored, pending, t.failed)
  }

  /** Tiers from `k` on hold `entry`. */
  ghost predicate HoldFrom(cfg: Config, s: Sys, k: nat, ck: string, entry: Entry) {
    |s.tiers| == |cfg.modes| && forall i: nat :: k <= i < |s.tiers| ==> HoldsEntry(cfg, s, i, ck, entry)
  }

  /** Nothing but the tiers and what the writer `id` still has to do is different. */
  predicate OnlyWrote(s: Sys, s': Sys, id: nat, pending: set<nat>)
    requires id < |s.tasks| && s.tasks[id].Writing?
  {
    && s'.clock == s.clock && s'.marked == s.marked && s'.log == s.log
    && s'.tasks == s.tasks[id := WithPending(s.tasks[id], pending)]
  }

  lemma FewerTiers(k: nat)
    ensures k in AllTiers(k + 1) && AllTiers(k + 1) - {k} == AllTiers(k)
  {
  }

  /** A writer writes the highest tier it still has to. */
  lemma WriteOne(cfg: Config, s0: Sys, s: Sys, id: nat, entry: Entry, k: nat) returns (s': Sys)
    requires Settling(cfg, s0, s) && Serializes(cfg.codec) && NoFailure(s)
    requires id < |s.tasks| && s.tasks[id].Writing? && s.tasks[id].pending == AllTiers(k + 1) && k < |cfg.modes|
    requires Represents(cfg.codec, s.tasks[id].stored, entry) && HoldFrom(cfg, s, k + 1, s.tasks[id].name.Ck(), entry)
    ensures Settling(cfg, s0, s') && NoFailure(s') && OnlyWrote(s, s', id, AllTiers(k))
    ensures HoldFrom(cfg, s', k, s.tasks[id].name.Ck(), entry)
  {
    FewerTiers(k);
    ConvertedRepresents(cfg.codec, s.tasks[id].stored, entry, cfg.modes[k]);
    s' := Next(cfg, s, Step(id, Tier(k, true))).value;
    assert s'.log == s.log;
    SettlingNext(cfg, s0, s, Step(id, Tier(k, true)));
    forall i: nat | k <= i < |s'.tiers| ensures HoldsEntry(cfg, s', i, s.tasks[id].name.Ck(), entry) {
      if i > k {
        assert HoldsEntry(cfg, s, i, s.tasks[id].name.Ck(), entry);
      }
    }
  }

  lemma WroteTwice(s: Sys, s1: Sys, s': Sys, id: nat, pending: set<nat>, left: set<nat>)
    requires id < |s.tasks| && s.tasks[id].Writing? && OnlyWrote(s, s1, id, pending) && OnlyWrote(s1, s', id, left)
    ensures OnlyWrote(s, s', id, left)
  {
  }

  /** A writer left alone writes every tier it still has to, the highest first. */
  lemma {:induction false} WriteOut(cfg: Config, s0: Sys, s: Sys, id: nat, entry: Entry, k: nat) returns (s': Sys)
    requires Settling(cfg, s0, s) && Serializes(cfg.codec) && NoFailure(s)
    requires id < |s.tasks| && s.tasks[id].Writing? && s.tasks[id].pending == AllTiers(k) && k <= |cfg.modes|
    requires Represents(cfg.codec, s.tasks[id].stored, entry) && HoldFrom(cfg, s, k, s.tasks[id].name.Ck(), entry)
    ensures Settling(cfg, s0, s') && NoFailure(s') && OnlyWrote(s, s', id, {})
    ensures HoldFrom(cfg, s', 0, s.tasks[id].name.Ck(), entry)
    decreases k
  {
    if k == 0 {
      assert WithPending(s.tasks[id], {}) == s.tasks[id];
      s' := s;
    } else {
      var s1 := WriteOne(cfg, s0, s, id, entry, k - 1);
      s' := WriteOut(cfg, s0, s1, id, entry, k - 1);
      WroteTwice(s, s1, s', id, AllTiers(k - 1), {});
    }
  }

  lemma FillOne(cfg: Config, s0: Sys, s: Sys, id: nat, entry: Entry) returns (s': Sys)
    requires Settling(cfg, s0, s) && Serializes(cfg.codec) && NoFailure(s) && |s.tiers| == |cfg.modes|
    requires id < |s.tasks| && s.tasks[id].Filling? && s.tasks[id].tier < s.tasks[id].upTo <= |cfg.modes|
    requires Represents(cfg.codec, s.tasks[id].stored, entry)
    ensures Settling(cfg, s0, s') && NoFailure(s') && |s'.tiers| == |s.tiers| && s'.log == s.log
    ensures |s'.tasks| == |s.tasks| && s'.tasks == s.tasks[id := s'.tasks[id]]
    ensures var t := s.tasks[id];
      if t.tier + 1 < t.upTo then s'.tasks[id] == Filling(t.call, t.name, t.stored, t.tier + 1, t.upTo)
      else s'.tasks[id].Done? && HoldsEntry(cfg, s', t.tier, t.name.Ck(), entry)
  {
    var t := s.tasks[id];
    ConvertedRepresents(cfg.codec, t.stored, entry, cfg.modes[t.tier]);
    s' := Next(cfg, s, Step(id, Tier(t.tier, true))).value;
    SettlingNext(cfg, s0, s, Step(id, Tier(t.tier, true)));
  }

  /** A backfill left alone fills every tier it still has to, the last one last. */
  lemma {:induction false} FillOut(cfg: Config, s0: Sys, s: Sys, id: nat, entry: Entry) returns (s': Sys)
    requires Settling(cfg, s0, s) && Serializes(cfg.codec) && NoFailure(s) && |s.tiers| == |cfg.modes|
    requires id < |s.tasks| && s.tasks[id].Filling? && s.tasks[id].tier < s.tasks[id].upTo <= |cfg.modes|
    requires Represents(cfg.codec, s.tasks[id].stored, entry)
    ensures Settling(cfg, s0, s') && s'.log == s.log
    ensures |s'.tasks| == |s.tasks| && s'.tasks == s.tasks[id := s'.tasks[id]] && s'.tasks[id].Done?
    ensures HoldsEntry(cfg, s', s.tasks[id].upTo - 1, s.tasks[id].name.Ck(), entry)
    decreases s.tasks[id].upTo - s.tasks[id].tier
  {
    s' := FillOne(cfg, s0, s, id, entry);
    if s.tasks[id].tier + 1 < s.tasks[id].upTo {
      var s1 := s';
      s' := FillOut(cfg, s0, s1, id, entry);
      assert s1.tasks[id := s'.tasks[id]] == s.tasks[id := s'.tasks[id]];
    }
  }

  // ---------------------------------------------------------------- a race and how to lose it

  ghost predicate AllDoneBut(s: Sys, i: nat, j: nat) {
    forall k :: 0 <= k < |s.tasks| && k != i && k != j ==> s.tasks[k].Done?
  }

  /** A task of `name` is busy at `id` beside the backfill `fill`, and nothing else runs. */
  ghost predicate Beside(cfg: Config, s: Sys, id: nat, name: Name, f: nat, fill: Task) {
    && NoFailure(s) && |s.tiers| == |cfg.modes|
    && id < |s.tasks| && f < |s.tasks| && id != f && AllDoneBut(s, id, f)
    && s.tasks[id].name == name && s.tasks[f] == fill
    && fill.Filling? && fill.name == name && fill.tier < fill.upTo <= |cfg.modes|
  }

  /** The call goes on: itself, or by a task it spawns, it looks for a marker. */
  lemma LoaderStarts(cfg: Config, s: Sys, id: nat, name: Name, f: nat, fill: Task) returns (s': Sys, l: nat)
    requires Beside(cfg, s, id, name, f, fill) && s.tasks[id].Answered? && s.tasks[id].purpose.ForSwr?
    requires LeadsOn(cfg.codec, s.tasks[id], s.clock)
    ensures Next(cfg, s, Step(id, Go)) == Some(s') && Settling(cfg, s', s') && s'.marked == s.marked
    ensures Beside(cfg, s', l, name, f, fill) && s'.tasks[l].Checking?
  {
    s' := Next(cfg, s, Step(id, Go)).value;
    l := if s'.tasks[id].Checking? then id else |s.tasks|;
    SettlingStays(cfg, s');
  }

  /** With no marker there, it marks and loads. */
  lemma MarkAndLoad(cfg: Config, s0: Sys, s: Sys, id: nat, name: Name, f: nat, fill: Task) returns (s': Sys)
    requires Settling(cfg, s0, s) && Beside(cfg, s, id, name, f, fill) && s.tasks[id].Checking?
      && name.Ck() !in s.marked
    ensures Settling(cfg, s0, s') && Beside(cfg, s', id, name, f, fill) && s'.tasks[id].Loading?
  {
    var s1 := Next(cfg, s, Step(id, Go)).value;
    SettlingNext(cfg, s0, s, Step(id, Go));
    assert s1.tasks[id].Marking?;
    s' := Next(cfg, s1, Step(id, Go)).value;
    SettlingNext(cfg, s0, s1, Step(id, Go));
  }

  /** `w` is a background writer of the entry that the ideal cache now has. */
  ghost predicate WritesIdeal(cfg: Config, s: Sys, w: Task, entry: Entry) {
    && w.Writing? && !w.writer.BySet? && w.pending == AllTiers(|cfg.modes|)
    && Represents(cfg.codec, w.stored, entry) && Ideal(s.log, w.name.Ck()) == Some(entry)
  }

  lemma BackgroundWrites(cfg: Config, s0: Sys, s: Sys, id: nat, name: Name, f: nat, fill: Task, value: Value)
    returns (s': Sys, entry: Entry)
    requires Settling(cfg, s0, s) && Beside(cfg, s, id, name, f, fill) && Serializes(cfg.codec)
    requires s.tasks[id].Loading? && s.tasks[id].loader.Background?
    ensures Settling(cfg, s0, s') && Beside(cfg, s', id, name, f, fill)
    ensures entry.value == value && WritesIdeal(cfg, s', s'.tasks[id], entry)
  {
    entry := Restamp(cfg, value, s.clock);
    BuiltRepresents(cfg.codec, entry, cfg.StoreMode());
    s' := Next(cfg, s, Step(id, Origin(Some(value)))).value;
    SettlingNext(cfg, s0, s, Step(id, Origin(Some(value))));
    IdealAfter(s.log, LoadStep(cfg, s.tasks[id], Some(value), s.clock).events, name.Ck());
  }

  lemma ForegroundLoads(cfg: Config, s0: Sys, s: Sys, id: nat, name: Name, f: nat, fill: Task, value: Value)
    returns (s': Sys)
    requires Settling(cfg, s0, s) && Beside(cfg, s, id, name, f, fill)
    requires s.tasks[id].Loading? && s.tasks[id].loader.Foreground?
    ensures Settling(cfg, s0, s') && Beside(cfg, s', id, name, f, fill)
    ensures s'.tasks[id].Finishing? && s'.tasks[id].outcome == Ok(Some(value))
  {
    var s1 := Next(cfg, s, Step(id, Origin(Some(value)))).value;
    SettlingNext(cfg, s0, s, Step(id, Origin(Some(value))));
    assert s1.tasks[id].Unmarking? && s1.tasks[id].loaded == Some(value);
    s' := Next(cfg, s1, Step(id, Go)).value;
    SettlingNext(cfg, s0, s1, Step(id, Go));
  }

  lemma ForegroundWrites(cfg: Config, s0: Sys, s: Sys, id: nat, name: Name, f: nat, fill: Task, value: Value)
    returns (s': Sys, entry: Entry)
    requires Settling(cfg, s0, s) && Beside(cfg, s, id, name, f, fill) && Serializes(cfg.codec)
    requires s.tasks[id].Finishing? && s.tasks[id].outcome == Ok(Some(value))
    ensures Settling(cfg, s0, s') && Beside(cfg, s', |s.tasks|, name, f, fill)
    ensures entry.value == value && WritesIdeal(cfg, s', s'.tasks[|s.tasks|], entry)
  {
    entry := Restamp(cfg, value, s.clock);
    BuiltRepresents(cfg.codec, entry, cfg.StoreMode());
    s' := Next(cfg, s, Step(id, Go)).value;
    SettlingNext(cfg, s0, s, Step(id, Go));
    IdealAfter(s.log, FinishStep(cfg, s.tasks[id], s.clock).events, name.Ck());
  }

  /** The origin returns `value`, and it is on its way to the tiers. */
  lemma WriterStarts(cfg: Config, s0: Sys, s: Sys, id: nat, name: Name, f: nat, fill: Task, value: Value)
    returns (s': Sys, w: nat, entry: Entry)
    requires Settling(cfg, s0, s) && Beside(cfg, s, id, name, f, fill) && Serializes(cfg.codec) && s.tasks[id].Loading?
    ensures Settling(cfg, s0, s') && Beside(cfg, s', w, name, f, fill)
    ensures entry.value == value && WritesIdeal(cfg, s', s'.tasks[w], entry)
  {
    if s.tasks[id].loader.Background? {
      w := id;
      s', entry := BackgroundWrites(cfg, s0, s, id, name, f, fill, value);
    } else {
      var s1 := ForegroundLoads(cfg, s0, s, id, name, f, fill, value);
      w := |s1.tasks|;
      s', entry := ForegroundWrites(cfg, s0, s1, id, name, f, fill, value);
    }
  }

  /** A background writer that has written everything ends. */
  lemma FinishWriter(cfg: Config, s0: Sys, s: Sys, w: nat) returns (s': Sys)
    requires Settling(cfg, s0, s) && NoFailure(s) && w < |s.tasks|
    requires s.tasks[w].Writing? && !s.tasks[w].writer.BySet? && s.tasks[w].pending == {}
    ensures Settling(cfg, s0, s') && NoFailure(s') && s'.log == s.log && s'.tiers == s.tiers
    ensures |s'.tasks| == |s.tasks| && s'.tasks == s.tasks[w := s'.tasks[w]]
    ensures s'.tasks[w].Done? && s'.tasks[w].name == s.tasks[w].name
  {
    s' := Next(cfg, s, Step(w, Go)).value;
    SettlingNext(cfg, s0, s, Step(w, Go));
    if s'.tasks[w].Unmarking? {
      var s1 := s';
      assert s1.tasks[w].loader.Background?;
      s' := Next(cfg, s1, Step(w, Go)).value;
      SettlingNext(cfg, s0, s1, Step(w, Go));
    }
  }

  /** It writes every tier and ends; the backfill has yet to go on. */
  lemma WriterEnds(cfg: Config, s0: Sys, s: Sys, w: nat, name: Name, f: nat, fill: Task, renewed: Entry)
    returns (s': Sys)
    requires Settling(cfg, s0, s) && Beside(cfg, s, w, name, f, fill) && Serializes(cfg.codec)
    requires WritesIdeal(cfg, s, s.tasks[w], renewed)
    ensures Settling(cfg, s0, s') && Beside(cfg, s', w, name, f, fill)
    ensures s'.tasks[w].Done? && Ideal(s'.log, name.Ck()) == Some(renewed)
  {
    var s1 := WriteOut(cfg, s0, s, w, renewed, |cfg.modes|);
    s' := FinishWriter(cfg, s0, s1, w);
    assert s'.log == s.log && s'.tasks == s.tasks[w := s'.tasks[w]];
  }

  /** The new entry is written everywhere first; then the backfill puts the old one over it. */
  lemma BackfillWins(cfg: Config, s0: Sys, s: Sys, w: nat, name: Name, f: nat, fill: Task, stale: Entry,
      renewed: Entry)
    returns (s': Sys)
    requires Settling(cfg, s0, s) && Beside(cfg, s, w, name, f, fill) && Serializes(cfg.codec)
    requires WritesIdeal(cfg, s, s.tasks[w], renewed) && Represents(cfg.codec, fill.stored, stale) && stale != renewed
    ensures Settling(cfg, s0, s') && Quiescent(s') && !CopyOfIdeal(cfg.codec, s', name.Ck())
  {
    var s1 := WriterEnds(cfg, s0, s, w, name, f, fill, renewed);
    s' := FillOut(cfg, s0, s1, f, stale);
    assert forall k :: 0 <= k < |s'.tasks| && k != f ==> s'.tasks[k] == s1.tasks[k];
    assert HoldsEntry(cfg, s', fill.upTo - 1, name.Ck(), stale) && Ideal(s'.log, name.Ck()) == Some(renewed);
  }

  /** From every race there is a way to rest with an entry in a tier that is not the ideal cache's. */
  lemma RaceCanBeLost(cfg: Config, s: Sys, id: nat, name: Name, f: nat, fill: Task, stale: Entry, other: Value)
    returns (s': Sys)
    requires Beside(cfg, s, id, name, f, fill) && Serializes(cfg.codec) && name.Ck() !in s.marked
    requires s.tasks[id].Answered? && s.tasks[id].purpose.ForSwr? && LeadsOn(cfg.codec, s.tasks[id], s.clock)
    requires Represents(cfg.codec, fill.stored, stale) && stale.value != other
    ensures Next(cfg, s, Step(id, Go)).Some? && Settling(cfg, Next(cfg, s, Step(id, Go)).value, s')
    ensures Quiescent(s') && !CopyOfIdeal(cfg.codec, s', name.Ck())
  {
    var s1, l := LoaderStarts(cfg, s, id, name, f, fill);
    var s2 := MarkAndLoad(cfg, s1, s1, l, name, f, fill);
    var s3, w, renewed := WriterStarts(cfg, s1, s2, l, name, f, fill, other);
    s' := BackfillWins(cfg, s1, s3, w, name, f, fill, stale, renewed);
  }

  // ---------------------------------------------------------------- exactly the races lose coherence

  ghost predicate RaceFreeReach(cfg: Config, s: Sys) {
    exists start, actions :: Run(cfg, Init(cfg, start), actions) == Some(s)
      && Drained(cfg, Init(cfg, start), actions) && RaceFree(cfg, Init(cfg, start), actions)
  }

  lemma {:induction false} DrainedEndsCalm(cfg: Config, s: Sys, actions: seq<Action>)
    requires Run(cfg, s, actions).Some? && Drained(cfg, s, actions)
    ensures NoFailure(Run(cfg, s, actions).value)
    decreases |actions|
  {
    if actions == [] {
    } else {
      DrainedEndsCalm(cfg, Next(cfg, s, actions[0]).value, actions[1..]);
    }
  }

  lemma RaceFreeReachKeeps(cfg: Config, s: Sys)
    requires cfg.codec.RoundTrips() && RaceFreeReach(cfg, s)
    ensures Solo(s) && Coherent(cfg, s) && NoFailure(s) && Sized(cfg, s)
  {
    var start, actions :| Run(cfg, Init(cfg, start), actions) == Some(s)
      && Drained(cfg, Init(cfg, start), actions) && RaceFree(cfg, Init(cfg, start), actions);
    DrainedKeeps(cfg, Init(cfg, start), actions);
    DrainedEndsCalm(cfg, Init(cfg, start), actions);
    ReachableSized(cfg, s);
  }

  /** In a race one call has answered, one backfill of the same key is in flight, and the rest is done. */
  lemma RaceIsBeside(cfg: Config, s: Sys, id: nat) returns (f: nat)
    requires Solo(s) && Coherent(cfg, s) && NoFailure(s) && Sized(cfg, s) && Races(cfg, s, Step(id, Go))
    ensures f < |s.tasks| && Beside(cfg, s, id, s.tasks[id].name, f, s.tasks[f]) && s.tasks[id].purpose.ForSwr?
    ensures s.tasks[id].name.Ck() !in s.marked
  {
    f :| f < |s.tasks| && s.tasks[f].Filling?;
    forall k | 0 <= k < |s.tasks| && k != id && k != f ensures s.tasks[k].Done? {
      LivesAlone(s, id, k);
      SumAtLeastTwo(s.tasks, if f < k then f else k, if f < k then k else f, Works());
    }
    assert InTiers(|cfg.modes|, s.tasks[f]);
    assert forall holder: nat :: !HeldBy(s, s.tasks[id].name.Ck(), holder);
  }

  ghost predicate NoReads(s: Sys) {
    forall id :: 0 <= id < |s.tasks| ==> !s.tasks[id].Reading? && !s.tasks[id].Answered?
  }

  /** Only a waiter comes to read again. */
  lemma StepReads(cfg: Config, id: nat, t: Task, c: Choice, v: View)
    requires LocalStep(cfg, id, t, c, v).Some? && !t.Reading? && !t.Answered? && !t.Waiting?
    ensures var e := LocalStep(cfg, id, t, c, v).value;
      && !e.next.Reading? && !e.next.Answered?
      && (e.spawn.Some? ==> !e.spawn.value.Reading? && !e.spawn.value.Answered?)
  {
  }

  lemma NoReadsStep(cfg: Config, s: Sys, a: Action)
    requires Solo(s) && NoReads(s) && Next(cfg, s, a).Some? && !a.Call?
    ensures NoReads(Next(cfg, s, a).value) && !Races(cfg, s, a)
  {
    if a.Step? {
      assert !Waits(s.tasks[a.id]);
      StepReads(cfg, a.id, s.tasks[a.id], a.choice, ViewOf(s, s.tasks[a.id]));
    }
  }

  lemma {:induction false} SettlesCoherent(cfg: Config, s: Sys, actions: seq<Action>)
    requires cfg.codec.RoundTrips() && Solo(s) && Coherent(cfg, s) && NoReads(s)
    requires NoCalls(actions) && Run(cfg, s, actions).Some? && Drained(cfg, s, actions)
    ensures Coherent(cfg, Run(cfg, s, actions).value)
    decreases |actions|
  {
    if actions == [] {
    } else {
      var s' := Next(cfg, s, actions[0]).value;
      assert actions[0] in actions;
      NoReadsStep(cfg, s, actions[0]);
      SoloStep(cfg, s, actions[0]);
      SoloIsOrderly(s');
      CoherentStep(cfg, s, actions[0]);
      SettlesCoherent(cfg, s', actions[1..]);
    }
  }

  /** Going on without a race, the call leaves one task at work and no read to come. */
  lemma GoesOnQuietly(cfg: Config, s: Sys, id: nat)
    requires cfg.codec.RoundTrips() && Solo(s) && Coherent(cfg, s) && id < |s.tasks| && s.tasks[id].Answered?
    requires !Races(cfg, s, Step(id, Go)) && NoFailure(Next(cfg, s, Step(id, Go)).value)
    ensures var s' := Next(cfg, s, Step(id, Go)).value; Solo(s') && Coherent(cfg, s') && NoReads(s')
  {
    var s' := Next(cfg, s, Step(id, Go)).value;
    SoloStep(cfg, s, Step(id, Go));
    SoloIsOrderly(s');
    CoherentStep(cfg, s, Step(id, Go));
    forall k | 0 <= k < |s.tasks| && k != id ensures !s.tasks[k].Reading? && !s.tasks[k].Answered? {
      LivesAlone(s, id, k);
    }
  }

  /** Without a race the call ends with every tier it leaves ideal, under every schedule. */
  lemma NoRaceSettles(cfg: Config, s: Sys, id: nat, s': Sys, ck: string)
    requires cfg.codec.RoundTrips() && Solo(s) && Coherent(cfg, s) && id < |s.tasks| && s.tasks[id].Answered?
    requires !Races(cfg, s, Step(id, Go)) && Settling(cfg, Next(cfg, s, Step(id, Go)).value, s') && Quiescent(s')
    ensures CopyOfIdeal(cfg.codec, s', ck)
  {
    var s1 := Next(cfg, s, Step(id, Go)).value;
    var actions :| NoCalls(actions) && Run(cfg, s1, actions) == Some(s') && Drained(cfg, s1, actions);
    GoesOnQuietly(cfg, s, id);
    SettlesCoherent(cfg, s1, actions);
    CoherentIsCopy(cfg, s', ck);
  }

  /** In a drained run that has had no race: however a call goes on from its read, every way to settle
      leaves a copy of the ideal cache, if and only if going on now is not a race. */
  lemma RaceExactly(cfg: Config, s: Sys, id: nat, value: Value, other: Value)
    requires Serializes(cfg.codec) && value != other
    requires RaceFreeReach(cfg, s) && id < |s.tasks| && s.tasks[id].Answered?
    ensures Next(cfg, s, Step(id, Go)).Some?
    ensures (forall s', ck :: Settling(cfg, Next(cfg, s, Step(id, Go)).value, s') && Quiescent(s') ==>
      CopyOfIdeal(cfg.codec, s', ck))
       <==> !Races(cfg, s, Step(id, Go))
  {
    RaceFreeReachKeeps(cfg, s);
    if Races(cfg, s, Step(id, Go)) {
      var f := RaceIsBeside(cfg, s, id);
      var fill, ck := s.tasks[f], s.tasks[id].name.Ck();
      assert CarriesIdeal(cfg.codec, s.log, fill);
      var stale := Ideal(s.log, ck).value;
      var loaded := if stale.value == other then value else other;
      var s' := RaceCanBeLost(cfg, s, id, s.tasks[id].name, f, fill, stale, loaded);
    } else {
      forall s', ck | Settling(cfg, Next(cfg, s, Step(id, Go)).value, s') && Quiescent(s')
        ensures CopyOfIdeal(cfg.codec, s', ck)
      {
        NoRaceSettles(cfg, s, id, s', ck);
      }
    }
  }

  // ---------------------------------------------------------------- races happen, for any number of tiers above one

  /** A `set` has arrived and stamped its entry. */
  lemma SetArrives(cfg: Config, name: Name, value: Value, start: int) returns (s: Sys)
    requires Serializes(cfg.codec)
    ensures DrainedReach(cfg, s) && NoFailure(s) && |s.tiers| == |cfg.modes| && s.clock == start && s.marked == {}
    ensures s.log == [Given(0, name, value, start), StampedNow(cfg, 0, name, value, start)]
    ensures |s.tasks| == 1 && s.tasks[0].Writing? && s.tasks[0].name == name && s.tasks[0].writer.BySet?
    ensures s.tasks[0].pending == AllTiers(|cfg.modes|)
      && Represents(cfg.codec, s.tasks[0].stored, Restamp(cfg, value, start))
  {
    var s0, call := Init(cfg, start), Call(SetRequest(name, value, None));
    BuiltRepresents(cfg.codec, Restamp(cfg, value, start), cfg.StoreMode());
    assert Run(cfg, s0, []) == Some(s0) && Drained(cfg, s0, []);
    s := Next(cfg, s0, call).value;
    DrainedNext(cfg, s0, call);
  }

  /** At rest after one `set`: every tier holds the entry. */
  lemma AfterSet(cfg: Config, name: Name, value: Value, start: int) returns (s: Sys)
    requires Serializes(cfg.codec)
    ensures DrainedReach(cfg, s) && NoFailure(s) && Quiescent(s) && |s.tasks| == 1 && |s.tiers| == |cfg.modes|
    ensures s.clock == start && s.marked == {}
    ensures s.log == [Given(0, name, value, start), StampedNow(cfg, 0, name, value, start)]
    ensures forall i :: 0 <= i < |s.tiers| ==> HoldsEntry(cfg, s, i, name.Ck(), Restamp(cfg, value, start))
  {
    var entry := Restamp(cfg, value, start);
    var s1 := SetArrives(cfg, name, value, start);
    SettlingStays(cfg, s1);
    var s2 := WriteOut(cfg, s1, s1, 0, entry, |cfg.modes|);
    DrainedSettles(cfg, s1, s2);
    s := Next(cfg, s2, Step(0, Go)).value;
    DrainedNext(cfg, s2, Step(0, Go));
    assert s.tiers == s2.tiers && s.log == s2.log;
    forall i | 0 <= i < |s.tiers| ensures HoldsEntry(cfg, s, i, name.Ck(), entry) {
      assert HoldsEntry(cfg, s2, i, name.Ck(), entry);
    }
  }

  /** The first tier drops the entry, it goes stale, and `swr` is called. */
  lemma AfterLoss(cfg: Config, name: Name, value: Value, start: int) returns (s: Sys)
    requires Serializes(cfg.codec) && |cfg.modes| >= 2 && 0 <= cfg.freshMs < cfg.staleMs
    ensures DrainedReach(cfg, s) && NoFailure(s) && |s.tiers| == |cfg.modes| && s.marked == {}
    ensures |s.tasks| == 2 && s.tasks[0].Done? && s.tasks[1] == Reading(1, name, ForSwr, 0)
    ensures s.clock == start + cfg.freshMs && HoldsEntry(cfg, s, 1, name.Ck(), Restamp(cfg, value, start))
  {
    var ck, entry := name.Ck(), Restamp(cfg, value, start);
    var s0 := AfterSet(cfg, name, value, start);
    assert HoldsEntry(cfg, s0, 1, ck, entry);
    var s1 := Next(cfg, s0, Lose(0, ck)).value;
    DrainedNext(cfg, s0, Lose(0, ck));
    var s2 := Next(cfg, s1, Tick(entry.freshUntil)).value;
    DrainedNext(cfg, s1, Tick(entry.freshUntil));
    s := Next(cfg, s2, Call(SwrRequest(name))).value;
    DrainedNext(cfg, s2, Call(SwrRequest(name)));
    assert s.tasks == s0.tasks + [Reading(1, name, ForSwr, 0)] && s.tiers[1] == s0.tiers[1];
  }

  /** It finds the stale entry in the second tier, and the backfill of the first is in flight: a race. */
  lemma AfterHit(cfg: Config, name: Name, value: Value, start: int) returns (s: Sys, stored: StoredEntry)
    requires Serializes(cfg.codec) && |cfg.modes| >= 2 && 0 <= cfg.freshMs < cfg.staleMs
    ensures DrainedReach(cfg, s) && s.marked == {} && s.clock == start + cfg.freshMs
    ensures |s.tasks| == 3 && s.tasks[1] == Answered(1, name, ForSwr, Ok(Some(stored)))
    ensures Beside(cfg, s, 1, name, 2, Filling(1, name, stored, 0, 1))
    ensures Represents(cfg.codec, stored, Restamp(cfg, value, start))
  {
    var s0 := AfterLoss(cfg, name, value, start);
    stored := s0.tiers[1][name.Ck()];
    var s1 := Next(cfg, s0, Step(1, Miss)).value;
    DrainedNext(cfg, s0, Step(1, Miss));
    assert s1.tasks == [s0.tasks[0], Reading(1, name, ForSwr, 1)];
    s := Next(cfg, s1, Step(1, Hit)).value;
    DrainedNext(cfg, s1, Step(1, Hit));
    assert s.tasks == [s0.tasks[0], Answered(1, name, ForSwr, Ok(Some(stored))), Filling(1, name, stored, 0, 1)];
  }

  lemma BackfillOverwritesRevalidation(cfg: Config, name: Name, value: Value, other: Value, start: int) returns (s: Sys)
    requires Serializes(cfg.codec) && |cfg.modes| >= 2 && 0 <= cfg.freshMs < cfg.staleMs && value != other
    ensures DrainedReach(cfg, s) && Quiescent(s) && !CopyOfIdeal(cfg.codec, s, name.Ck())
  {
    var s0, stored := AfterHit(cfg, name, value, start);
    s := RaceCanBeLost(cfg, s0, 1, name, 2, s0.tasks[2], Restamp(cfg, value, start), other);
    var s1 := Next(cfg, s0, Step(1, Go)).value;
    assert Drained(cfg, s1, []) by {
      var actions :| NoCalls(actions) && Run(cfg, s1, actions) == Some(s) && Drained(cfg, s1, actions);
    }
    DrainedNext(cfg, s0, Step(1, Go));
    DrainedSettles(cfg, s1, s);
  }

  /** Draining between calls is enough for coherence in every run exactly when the stack has at most one
      tier: with two or more, some schedule lets the backfill overtake the revalidation. */
  lemma DrainedCoherenceExactly(cfg: Config, value: Value, other: Value)
    requires Serializes(cfg.codec) && 0 <= cfg.freshMs < cfg.staleMs && value != other
    ensures (forall s, ck :: DrainedReach(cfg, s) && Quiescent(s) ==> CopyOfIdeal(cfg.codec, s, ck))
       <==> |cfg.modes| <= 1
  {
    if |cfg.modes| <= 1 {
      forall s, ck | DrainedReach(cfg, s) && Quiescent(s) ensures CopyOfIdeal(cfg.codec, s, ck) {
        var start, actions :| Run(cfg, Init(cfg, start), actions) == Some(s) && Drained(cfg, Init(cfg, start), actions);
        OneTierRaceFree(cfg, Init(cfg, start), actions);
        DrainedRunsCohere(cfg, start, actions, ck);
      }
    } else {
      var s := BackfillOverwritesRevalidation(cfg, Name("", ""), value, other, 0);
    }
  }
}
