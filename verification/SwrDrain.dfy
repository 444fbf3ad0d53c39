/** Draining: with no new calls, every schedule runs dry, and leaves no marker behind. */
module SwrDrain {
  import opened Wrappers
  import opened Entries
  import opened Sums
  import opened SwrProtocol
  import opened SwrRuns

  // ---------------------------------------------------------------- markers are held

  /** Between its mark and its unmark a task holds the marker of its key. */
  predicate Holds(t: Task) {
    t.Loading? || t.Unmarking? || (t.Writing? && t.writer.ByRevalidation?)
  }

  ghost predicate HeldBy(s: Sys, ck: string, id: nat) {
    id < |s.tasks| && Holds(s.tasks[id]) && s.tasks[id].name.Ck() == ck
  }

  ghost predicate MarkersHeld(s: Sys) {
    forall ck :: ck in s.marked ==> exists id: nat :: HeldBy(s, ck, id)
  }

  lemma MarkersHeldStep(cfg: Config, s: Sys, a: Action)
    requires MarkersHeld(s) && Next(cfg, s, a).Some?
    ensures MarkersHeld(Next(cfg, s, a).value)
  {
    var s' := Next(cfg, s, a).value;
    forall ck | ck in s'.marked ensures exists id: nat :: HeldBy(s', ck, id) {
      if ck in s.marked {
        var id: nat :| HeldBy(s, ck, id);
        assert HeldBy(s', ck, id);
      } else {
        assert HeldBy(s', ck, a.id);
      }
    }
  }

  /** A marker is present only while some task for that key is between its mark and its unmark. */
  lemma MarkedImpliesHeld(cfg: Config, s: Sys)
    requires Reachable(cfg, s)
    ensures MarkersHeld(s)
  {
    forall s, a | MarkersHeld(s) && Next(cfg, s, a).Some? ensures MarkersHeld(Next(cfg, s, a).value) {
      MarkersHeldStep(cfg, s, a);
    }
    ReachableKeeps(cfg, s => MarkersHeld(s), s);
  }

  // ---------------------------------------------------------------- tasks stay within the tiers

  predicate InTiers(n: nat, t: Task) {
    && (t.Reading? ==> t.tier <= n)
    && (t.Filling? ==> t.tier < t.upTo <= n)
    && (t.Writing? || t.Removing? ==> t.pending <= AllTiers(n))
  }

  ghost predicate Sized(cfg: Config, s: Sys) {
    |s.tiers| == |cfg.modes| && forall id :: 0 <= id < |s.tasks| ==> InTiers(|cfg.modes|, s.tasks[id])
  }

  // ---------------------------------------------------------------- the rank

  /** What is left for a task and for every task it may still spawn: lock sections, tiers, writes. */
  function Rank(n: nat, t: Task): int {
    match t
    case Done(_, _, _, _) => 0
    case Filling(_, _, _, tier, upTo) => upTo - tier
    case Removing(_, _, pending, _) => 1 + |pending|
    case Writing(_, _, writer, _, pending, _) => (if writer.ByRevalidation? then 2 else 1) + |pending|
    case Finishing(_, _, _, _) => n + 2
    case Unmarking(_, _, loader, _) => if loader.Foreground? then n + 3 else 1
    case Loading(_, _, _) => n + 4
    case Marking(_, _, _, _) => n + 5
    case Answered(_, _, purpose, _) => if purpose.ForRetry? then n + 6 else 4 * n + 13
    case Reading(_, _, purpose, tier) => (n - tier) + (if purpose.ForRetry? then 2 * n + 8 else 5 * n + 15)
    case Waiting(_, _, _) => 3 * n + 9
    case Checking(_, _, _) => 3 * n + 10
  }

  function RankOf(n: nat): Task -> int { (t: Task) => Rank(n, t) }

  function TotalRank(n: nat, s: Sys): int { Sum(s.tasks, RankOf(n)) }

  function SpawnedWeight(spawned: Option<Task>, weight: Task -> int): int {
    if spawned.Some? then weight(spawned.value) else 0
  }

  lemma RankNonNegative(n: nat, t: Task)
    requires InTiers(n, t)
    ensures Rank(n, t) >= 0 && (Rank(n, t) == 0 <==> t.Done?)
  {
  }

  ghost predicate Pays(n: nat, t: Task, e: Effect) {
    && InTiers(n, e.next) && (e.spawn.Some? ==> InTiers(n, e.spawn.value))
    && Rank(n, e.next) + SpawnedWeight(e.spawn, RankOf(n)) < Rank(n, t)
  }

  ghost predicate StepPaysFor(cfg: Config, id: nat, t: Task, c: Choice, v: View) {
    LocalStep(cfg, id, t, c, v).Some? ==> Pays(|cfg.modes|, t, LocalStep(cfg, id, t, c, v).value)
  }

  lemma FinishPays(cfg: Config, t: Task, now: int)
    requires t.Finishing?
    ensures Pays(|cfg.modes|, t, FinishStep(cfg, t, now))
  {
  }

  lemma LoadPays(cfg: Config, t: Task, result: Option<Value>, now: int)
    requires t.Loading?
    ensures Pays(|cfg.modes|, t, LoadStep(cfg, t, result, now))
  {
  }

  lemma AnswerPays(cfg: Config, t: Task, now: int)
    requires t.Answered?
    ensures Pays(|cfg.modes|, t, AnswerStep(cfg, t, now))
  {
  }

  lemma ReadPays(cfg: Config, id: nat, t: Task, c: Choice, v: View)
    requires InTiers(|cfg.modes|, t) && t.Reading?
    ensures StepPaysFor(cfg, id, t, c, v)
  {
  }

  lemma MarkerPays(cfg: Config, id: nat, t: Task, c: Choice, v: View)
    requires t.Checking? || t.Waiting? || t.Marking? || t.Unmarking?
    ensures StepPaysFor(cfg, id, t, c, v)
  {
  }

  lemma FillPays(cfg: Config, id: nat, t: Task, c: Choice, v: View)
    requires InTiers(|cfg.modes|, t) && t.Filling?
    ensures StepPaysFor(cfg, id, t, c, v)
  {
  }

  lemma Shrinks(pending: set<nat>, i: nat)
    requires i in pending
    ensures |pending - {i}| == |pending| - 1
  {
  }

  lemma WritePays(cfg: Config, t: Task, c: Choice)
    requires InTiers(|cfg.modes|, t) && t.Writing? && WriteStep(cfg, t, c).Some?
    ensures Pays(|cfg.modes|, t, WriteStep(cfg, t, c).value)
  {
    if c.Tier? {
      Shrinks(t.pending, c.tier);
    }
  }

  lemma RemovePays(cfg: Config, t: Task, c: Choice)
    requires InTiers(|cfg.modes|, t) && t.Removing? && RemoveStep(cfg, t, c).Some?
    ensures Pays(|cfg.modes|, t, RemoveStep(cfg, t, c).value)
  {
    if c.Tier? {
      Shrinks(t.pending, c.tier);
    }
  }

  /** Every step of a task pays for itself and for what it spawns. */
  lemma StepPays(cfg: Config, id: nat, t: Task, c: Choice, v: View)
    requires InTiers(|cfg.modes|, t)
    requires LocalStep(cfg, id, t, c, v).Some?
    ensures Pays(|cfg.modes|, t, LocalStep(cfg, id, t, c, v).value)
  {
    match t
    case Answered(_, _, _, _) => AnswerPays(cfg, t, v.clock);
    case Loading(_, _, _) => LoadPays(cfg, t, c.result, v.clock);
    case Finishing(_, _, _, _) => FinishPays(cfg, t, v.clock);
    case Reading(_, _, _, _) => ReadPays(cfg, id, t, c, v);
    case Writing(_, _, _, _, _, _) => WritePays(cfg, t, c);
    case Filling(_, _, _, _, _) => FillPays(cfg, id, t, c, v);
    case Removing(_, _, _, _) => RemovePays(cfg, t, c);
    case Done(_, _, _, _) =>
    case _ => MarkerPays(cfg, id, t, c, v);
  }

  lemma ArrivesSized(cfg: Config, call: nat, req: Request, now: int)
    ensures InTiers(|cfg.modes|, Arrive(cfg, call, req, now).0)
  {
  }

  lemma PerformSized(cfg: Config, s: Sys, id: nat, e: Effect)
    requires Sized(cfg, s) && id < |s.tasks|
    requires InTiers(|cfg.modes|, e.next) && (e.spawn.Some? ==> InTiers(|cfg.modes|, e.spawn.value))
    ensures Sized(cfg, Perform(s, id, e))
  {
  }

  lemma SizedStep(cfg: Config, s: Sys, a: Action)
    requires Sized(cfg, s) && Next(cfg, s, a).Some?
    ensures Sized(cfg, Next(cfg, s, a).value)
  {
    if a.Step? {
      var t := s.tasks[a.id];
      StepPays(cfg, a.id, t, a.choice, ViewOf(s, t));
      PerformSized(cfg, s, a.id, LocalStep(cfg, a.id, t, a.choice, ViewOf(s, t)).value);
    } else {
      QuietSized(cfg, s, a);
    }
  }

  lemma QuietSized(cfg: Config, s: Sys, a: Action)
    requires Sized(cfg, s) && !a.Step? && Next(cfg, s, a).Some?
    ensures Sized(cfg, Next(cfg, s, a).value)
  {
    if a.Call? {
      ArrivesSized(cfg, |s.tasks|, a.req, s.clock);
    }
  }

  lemma SpawnSum(tasks: seq<Task>, spawned: Option<Task>, weight: Task -> int)
    ensures Sum(Spawn(tasks, spawned), weight) == Sum(tasks, weight) + SpawnedWeight(spawned, weight)
  {
    if spawned.Some? {
      SumAppend(tasks, [spawned.value], weight);
    }
  }

  lemma RankStep(cfg: Config, s: Sys, a: Action)
    requires Sized(cfg, s) && Next(cfg, s, a).Some? && !a.Call?
    ensures var s', n := Next(cfg, s, a).value, |cfg.modes|;
      if a.Step? then TotalRank(n, s') < TotalRank(n, s) else TotalRank(n, s') == TotalRank(n, s)
  {
    if a.Step? {
      var t, n := s.tasks[a.id], |cfg.modes|;
      var e := LocalStep(cfg, a.id, t, a.choice, ViewOf(s, t)).value;
      StepPays(cfg, a.id, t, a.choice, ViewOf(s, t));
      SumUpdate(s.tasks, a.id, e.next, RankOf(n));
      SpawnSum(s.tasks[a.id := e.next], e.spawn, RankOf(n));
    }
  }

  lemma TotalRankNonNegative(cfg: Config, s: Sys)
    requires Sized(cfg, s)
    ensures TotalRank(|cfg.modes|, s) >= 0
    ensures TotalRank(|cfg.modes|, s) == 0 <==> Quiescent(s)
  {
    var n := |cfg.modes|;
    forall t | t in s.tasks ensures Rank(n, t) >= 0 && (Rank(n, t) == 0 <==> t.Done?) {
      RankNonNegative(n, t);
    }
    SumNonNegative(s.tasks, RankOf(n));
    SumIsZero(s.tasks, RankOf(n));
  }

  // ---------------------------------------------------------------- every schedule drains

  ghost predicate Quiescent(s: Sys) {
    forall t :: t in s.tasks ==> t.Done?
  }

  function TaskSteps(actions: seq<Action>): nat {
    if actions == [] then 0 else (if actions[0].Step? then 1 else 0) + TaskSteps(actions[1..])
  }

  /** With no new calls the tasks in flight can take no more steps than their rank, whatever the
      scheduler, the tiers, the origin and the clock do. */
  lemma {:induction false} DrainBound(cfg: Config, s: Sys, actions: seq<Action>)
    requires Sized(cfg, s) && (forall a :: a in actions ==> !a.Call?)
    requires Run(cfg, s, actions).Some?
    ensures var s' := Run(cfg, s, actions).value;
      && Sized(cfg, s')
      && TaskSteps(actions) + TotalRank(|cfg.modes|, s') <= TotalRank(|cfg.modes|, s)
    decreases |actions|
  {
    if actions == [] {
    } else {
      SizedStep(cfg, s, actions[0]);
      RankStep(cfg, s, actions[0]);
      DrainBound(cfg, Next(cfg, s, actions[0]).value, actions[1..]);
    }
  }

  /** A choice under which an unfinished task can move whatever the rest of the system is doing. */
  ghost function OpenChoice(cfg: Config, t: Task): Choice {
    match t
    case Reading(_, _, _, tier) => if tier < |cfg.modes| then Miss else Go
    case Loading(_, _, _) => Origin(None)
    case Filling(_, _, _, tier, _) => Tier(tier, false)
    case Writing(_, _, _, _, pending, _) => AnyTier(pending)
    case Removing(_, _, pending, _) => AnyTier(pending)
    case _ => Go
  }

  ghost function AnyTier(pending: set<nat>): Choice {
    if pending == {} then Go else var i :| i in pending; Tier(i, false)
  }

  /** No task is ever stuck: it waits for no lock and for no other task. */
  lemma Progress(cfg: Config, s: Sys, id: nat)
    requires Sized(cfg, s) && id < |s.tasks|
    ensures s.tasks[id].Done? <==> Next(cfg, s, Step(id, OpenChoice(cfg, s.tasks[id]))).None?
  {
    assert InTiers(|cfg.modes|, s.tasks[id]);
  }

  lemma ReachableSized(cfg: Config, s: Sys)
    requires Reachable(cfg, s)
    ensures Sized(cfg, s)
  {
    forall s, a | Sized(cfg, s) && Next(cfg, s, a).Some? ensures Sized(cfg, Next(cfg, s, a).value) {
      SizedStep(cfg, s, a);
    }
    ReachableKeeps(cfg, s => Sized(cfg, s), s);
  }

  /** A reachable state from which no task can move is quiescent, and then no marker is left, whichever
      way the tasks ended: also when a value would not serialize. */
  lemma DrainedIsClean(cfg: Config, s: Sys)
    requires Reachable(cfg, s)
    requires forall id, c :: 0 <= id < |s.tasks| ==> Next(cfg, s, Step(id, c)).None?
    ensures Quiescent(s) && s.marked == {}
  {
    ReachableSized(cfg, s);
    MarkedImpliesHeld(cfg, s);
    forall id | 0 <= id < |s.tasks| ensures s.tasks[id].Done? {
      Progress(cfg, s, id);
    }
    assert forall ck, id: nat :: !HeldBy(s, ck, id);
  }
}
