/** Runs in which every call is made after the tasks of the last one have drained. */
module SwrDrainedRuns {
  import opened Entries
  import opened Sums
  import opened SwrProtocol
  import opened SwrDrain
  import opened SwrLedger
  import opened SwrCoherence

  /** Every call finds the system at rest, and no tier refuses a write on the way. */
  ghost predicate Drained(cfg: Config, s: Sys, actions: seq<Action>)
    decreases |actions|
  {
    && NoFailure(s)
    && (actions != [] && Next(cfg, s, actions[0]).Some? ==>
        && (actions[0].Call? ==> Quiescent(s))
        && Drained(cfg, Next(cfg, s, actions[0]).value, actions[1..]))
  }

  /** After this answer the call goes on to load, or to stamp anew: all but a `get` and a fresh `swr`. */
  predicate LeadsOn(codec: Codec, t: Task, now: int)
    requires t.Answered?
  {
    match t.purpose
    case ForGet => false
    case ForSwr => !SwrArm(GetInternal(codec, t.reply, now)).ServeFresh?
    case ForRetry(_) => true
  }

  predicate BackfillInFlight(s: Sys) {
    exists t :: t in s.tasks && t.Filling?
  }

  /** The one thing that sets a write beside a backfill: a call goes on from what it read below the first
      tier while the backfill of that read is still in flight. */
  predicate Races(cfg: Config, s: Sys, a: Action) {
    && a.Step? && a.id < |s.tasks| && s.tasks[a.id].Answered?
    && LeadsOn(cfg.codec, s.tasks[a.id], s.clock) && BackfillInFlight(s)
  }

  predicate RaceFree(cfg: Config, s: Sys, actions: seq<Action>)
    decreases |actions|
  {
    actions != [] && Next(cfg, s, actions[0]).Some? ==>
      !Races(cfg, s, actions[0]) && RaceFree(cfg, Next(cfg, s, actions[0]).value, actions[1..])
  }

  // ---------------------------------------------------------------- one call at a time

  /** Everything that runs for a call except a backfill. */
  function Live(): Task -> int { (t: Task) => if t.Done? || t.Filling? then 0 else 1 }

  /** Tasks that change tiers, or may come to. */
  function Works(): Task -> int { (t: Task) => if t.Done? || t.Answered? then 0 else 1 }

  predicate Waits(t: Task) {
    t.Waiting? || ((t.Reading? || t.Answered?) && t.purpose.ForRetry?)
  }

  ghost predicate OneName(s: Sys) {
    forall i, j :: 0 <= i < |s.tasks| && 0 <= j < |s.tasks| && !s.tasks[i].Done? && !s.tasks[j].Done? ==>
      s.tasks[i].name == s.tasks[j].name
  }

  ghost predicate NoneWaits(s: Sys) {
    forall id :: 0 <= id < |s.tasks| ==> !Waits(s.tasks[id])
  }

  /** One call is served at a time, by one task and perhaps a backfill. */
  ghost predicate Solo(s: Sys) {
    && Sum(s.tasks, Live()) <= 1 && Sum(s.tasks, Works()) <= 1
    && OneName(s) && NoneWaits(s) && MarkersHeld(s)
  }

  lemma StepWeights(cfg: Config, id: nat, t: Task, c: Choice, v: View)
    requires LocalStep(cfg, id, t, c, v).Some? && !Waits(t)
    ensures var e := LocalStep(cfg, id, t, c, v).value;
      var works := Works()(e.next) + SpawnedWeight(e.spawn, Works());
      && Live()(e.next) + SpawnedWeight(e.spawn, Live()) <= Live()(t)
      && works <= (if t.Answered? then (if LeadsOn(cfg.codec, t, v.clock) then 1 else 0) else Works()(t))
      && (Waits(e.next) ==> t.Checking? && v.marked) && (e.spawn.Some? ==> !Waits(e.spawn.value))
      && e.next.name == t.name && (e.spawn.Some? ==> e.spawn.value.name == t.name) && !t.Done?
  {
  }

  /** Beside a task that lives there are only finished tasks and backfills. */
  lemma LivesAlone(s: Sys, id: nat, other: nat)
    requires Sum(s.tasks, Live()) <= 1 && id < |s.tasks| && other < |s.tasks| && id != other
    requires !s.tasks[id].Done? && !s.tasks[id].Filling?
    ensures s.tasks[other].Done? || s.tasks[other].Filling?
  {
    if id < other {
      SumAtLeastTwo(s.tasks, id, other, Live());
    } else {
      SumAtLeastTwo(s.tasks, other, id, Live());
    }
  }

  /** An answered task with no backfill in flight has the tiers to itself. */
  lemma NoneWorks(s: Sys, id: nat)
    requires Sum(s.tasks, Live()) <= 1 && id < |s.tasks| && s.tasks[id].Answered? && !BackfillInFlight(s)
    ensures Sum(s.tasks, Works()) == 0
  {
    forall t | t in s.tasks ensures Works()(t) == 0 {
      var other :| 0 <= other < |s.tasks| && s.tasks[other] == t;
      if other != id {
        LivesAlone(s, id, other);
      }
    }
    SumIsZero(s.tasks, Works());
  }

  /** A task that checks for a marker finds none: nobody is left to hold it. */
  lemma FindsNoMarker(s: Sys, id: nat)
    requires Solo(s) && id < |s.tasks| && s.tasks[id].Checking?
    ensures s.tasks[id].name.Ck() !in s.marked
  {
    if s.tasks[id].name.Ck() in s.marked {
      var holder: nat :| HeldBy(s, s.tasks[id].name.Ck(), holder);
      LivesAlone(s, id, holder);
    }
  }

  lemma PerformWeights(cfg: Config, s: Sys, id: nat, c: Choice)
    requires Solo(s) && Next(cfg, s, Step(id, c)).Some? && !Races(cfg, s, Step(id, c))
    ensures var s' := Next(cfg, s, Step(id, c)).value; Sum(s'.tasks, Live()) <= 1 && Sum(s'.tasks, Works()) <= 1
  {
    var t := s.tasks[id];
    var e := LocalStep(cfg, id, t, c, ViewOf(s, t)).value;
    StepWeights(cfg, id, t, c, ViewOf(s, t));
    TaskSums(s, id, e, Live());
    TaskSums(s, id, e, Works());
    if t.Answered? && LeadsOn(cfg.codec, t, s.clock) {
      NoneWorks(s, id);
    }
  }

  lemma PerformSolo(s: Sys, id: nat, e: Effect)
    requires OneName(s) && NoneWaits(s) && id < |s.tasks| && !s.tasks[id].Done?
    requires !Waits(e.next) && (e.spawn.Some? ==> !Waits(e.spawn.value))
    requires e.next.name == s.tasks[id].name && (e.spawn.Some? ==> e.spawn.value.name == s.tasks[id].name)
    ensures OneName(Perform(s, id, e)) && NoneWaits(Perform(s, id, e))
  {
  }

  lemma SoloTaskStep(cfg: Config, s: Sys, id: nat, c: Choice)
    requires Solo(s) && Next(cfg, s, Step(id, c)).Some? && !Races(cfg, s, Step(id, c))
    ensures Solo(Next(cfg, s, Step(id, c)).value)
  {
    var t := s.tasks[id];
    StepWeights(cfg, id, t, c, ViewOf(s, t));
    if t.Checking? {
      FindsNoMarker(s, id);
    }
    PerformWeights(cfg, s, id, c);
    PerformSolo(s, id, LocalStep(cfg, id, t, c, ViewOf(s, t)).value);
    MarkersHeldStep(cfg, s, Step(id, c));
  }

  lemma WeighsOne(tasks: seq<Task>, task: Task, weight: Task -> int)
    requires (forall t :: t in tasks ==> weight(t) == 0) && weight(task) <= 1
    ensures Sum(tasks + [task], weight) <= 1
  {
    SumIsZero(tasks, weight);
    SumAppend(tasks, [task], weight);
    SumSingle(task, weight);
  }

  /** A call's first task beside finished ones. */
  lemma JoinsQuiet(tasks: seq<Task>, task: Task)
    requires (forall t :: t in tasks ==> t.Done?) && !Waits(task)
    ensures var all := tasks + [task];
      && Sum(all, Live()) <= 1 && Sum(all, Works()) <= 1
      && (forall id :: 0 <= id < |all| ==> !Waits(all[id]))
      && (forall i, j :: 0 <= i < |all| && 0 <= j < |all| && !all[i].Done? && !all[j].Done? ==>
        all[i].name == all[j].name)
  {
    assert forall id :: 0 <= id < |tasks| ==> tasks[id] in tasks;
    WeighsOne(tasks, task, Live());
    WeighsOne(tasks, task, Works());
  }

  lemma SoloArrival(cfg: Config, s: Sys, req: Request)
    requires Solo(s) && Quiescent(s)
    ensures Solo(Next(cfg, s, Call(req)).value)
  {
    var task := Arrive(cfg, |s.tasks|, req, s.clock).0;
    assert !Waits(task);
    JoinsQuiet(s.tasks, task);
    MarkersHeldStep(cfg, s, Call(req));
  }

  lemma SoloStep(cfg: Config, s: Sys, a: Action)
    requires Solo(s) && Next(cfg, s, a).Some? && !Races(cfg, s, a) && (a.Call? ==> Quiescent(s))
    ensures Solo(Next(cfg, s, a).value)
  {
    match a
    case Step(id, c) => SoloTaskStep(cfg, s, id, c);
    case Call(req) => SoloArrival(cfg, s, req);
    case _ => MarkersHeldStep(cfg, s, a);
  }

  lemma SoloIsOrderly(s: Sys)
    requires Sum(s.tasks, Works()) <= 1
    ensures Orderly(s)
  {
    forall i: nat, j: nat | i < j < |s.tasks| && Mutates(s.tasks[i])
      ensures !Mutates(s.tasks[j])
    {
      SumAtLeastTwo(s.tasks, i, j, Works());
    }
  }

  lemma {:induction false} DrainedKeeps(cfg: Config, s: Sys, actions: seq<Action>)
    requires cfg.codec.RoundTrips() && Solo(s) && Coherent(cfg, s) && Run(cfg, s, actions).Some?
    requires Drained(cfg, s, actions) && RaceFree(cfg, s, actions)
    ensures Solo(Run(cfg, s, actions).value) && Coherent(cfg, Run(cfg, s, actions).value)
    decreases |actions|
  {
    if actions == [] {
    } else {
      var s' := Next(cfg, s, actions[0]).value;
      SoloStep(cfg, s, actions[0]);
      SoloIsOrderly(s');
      CoherentStep(cfg, s, actions[0]);
      DrainedKeeps(cfg, s', actions[1..]);
    }
  }

  /** Over any sequence of `get`, `set`, `remove` and `swr` with every tier write succeeding and spawned
      tasks draining in between, if no call loads or stamps anew while the backfill of its own read is
      in flight, the drained stack is a lossy but never wrong copy of the ideal cache; for any number of
      tiers and any eviction. */
  lemma DrainedRunsCohere(cfg: Config, start: int, actions: seq<Action>, ck: string)
    requires cfg.codec.RoundTrips() && Run(cfg, Init(cfg, start), actions).Some?
    requires Drained(cfg, Init(cfg, start), actions) && RaceFree(cfg, Init(cfg, start), actions)
    ensures var s := Run(cfg, Init(cfg, start), actions).value;
      Quiescent(s) ==> CopyOfIdeal(cfg.codec, s, ck)
  {
    DrainedKeeps(cfg, Init(cfg, start), actions);
    var s := Run(cfg, Init(cfg, start), actions).value;
    if Quiescent(s) {
      CoherentIsCopy(cfg, s, ck);
    }
  }

  ghost predicate NoBackfill(s: Sys) {
    forall id :: 0 <= id < |s.tasks| ==> !s.tasks[id].Filling?
  }

  /** With a single tier there is nothing below the first, and nothing to backfill. */
  lemma {:induction false} OneTierRaceFree(cfg: Config, s: Sys, actions: seq<Action>)
    requires |cfg.modes| <= 1 && NoBackfill(s)
    ensures RaceFree(cfg, s, actions)
    decreases |actions|
  {
    if actions != [] && Next(cfg, s, actions[0]).Some? {
      OneTierRaceFree(cfg, Next(cfg, s, actions[0]).value, actions[1..]);
    }
  }
}
