/** What the revalidation map guarantees about concurrent loads, and exactly when. */
module SwrDedup {
  import opened SwrProtocol
  import opened SwrRuns
  import opened SwrDrain

  // ---------------------------------------------------------------- exclusive loading

  ghost predicate IsOvermark(ev: Event) {
    ev.Marked? && ev.over
  }

  /** No mark was ever made over a marker. */
  ghost predicate NoOvermark(log: seq<Event>) {
    forall ev :: ev in log ==> !IsOvermark(ev)
  }

  /** At most one task per key is between its mark and its unmark. */
  ghost predicate Exclusive(s: Sys) {
    forall i: nat, j: nat :: i < j < |s.tasks| && Holds(s.tasks[i]) && Holds(s.tasks[j]) ==>
      s.tasks[i].name.Ck() != s.tasks[j].name.Ck()
  }

  ghost predicate HoldersMarked(s: Sys) {
    forall id :: 0 <= id < |s.tasks| && Holds(s.tasks[id]) ==> s.tasks[id].name.Ck() in s.marked
  }

  ghost predicate DedupInv(s: Sys) {
    MarkersHeld(s) && (NoOvermark(s.log) ==> Exclusive(s) && HoldersMarked(s))
  }

  lemma LogGrows(cfg: Config, s: Sys, a: Action)
    requires Next(cfg, s, a).Some?
    ensures s.log <= Next(cfg, s, a).value.log
    ensures NoOvermark(Next(cfg, s, a).value.log) ==> NoOvermark(s.log)
  {
    var log' := Next(cfg, s, a).value.log;
    assert forall ev :: ev in s.log ==> ev in log';
  }

  /** Only a mark makes a task a holder; only an unmark takes a marker away, its own. */
  lemma HolderSteps(cfg: Config, s: Sys, id: nat, c: Choice)
    requires id < |s.tasks| && LocalStep(cfg, id, s.tasks[id], c, ViewOf(s, s.tasks[id])).Some?
    ensures var t := s.tasks[id];
      var e := LocalStep(cfg, id, t, c, ViewOf(s, t)).value;
      && e.next.name == t.name
      && (e.spawn.Some? ==> !Holds(e.spawn.value) && e.spawn.value.name == t.name)
      && (Holds(e.next) && !Holds(t) <==> t.Marking?)
      && (e.marker.SetMarker? <==> t.Marking?)
      && (e.marker.ClearMarker? <==> t.Unmarking?)
      && (t.Unmarking? ==> !Holds(e.next))
      && (t.Marking? ==> IsOvermark(e.events[0]) == (t.name.Ck() in s.marked) && e.events[0] in e.events)
  {
  }

  /** One step of one task, when the mark it makes, if any, is not over a marker. */
  lemma ExclusiveStep(cfg: Config, s: Sys, id: nat, c: Choice)
    requires Exclusive(s) && HoldersMarked(s)
    requires id < |s.tasks| && LocalStep(cfg, id, s.tasks[id], c, ViewOf(s, s.tasks[id])).Some?
    requires s.tasks[id].Marking? ==> s.tasks[id].name.Ck() !in s.marked
    ensures var s' := Next(cfg, s, Step(id, c)).value; Exclusive(s') && HoldersMarked(s')
  {
    HolderSteps(cfg, s, id, c);
    var s', ck := Next(cfg, s, Step(id, c)).value, s.tasks[id].name.Ck();
    forall i | 0 <= i < |s'.tasks| && Holds(s'.tasks[i]) ensures s'.tasks[i].name.Ck() in s'.marked {
      assert i < |s.tasks|;
      if i != id {
        assert s'.tasks[i] == s.tasks[i];
      }
    }
    forall i: nat, j: nat | i < j < |s'.tasks| && Holds(s'.tasks[i]) && Holds(s'.tasks[j])
      ensures s'.tasks[i].name.Ck() != s'.tasks[j].name.Ck()
    {
      assert j < |s.tasks|;
      if i != id { assert s'.tasks[i] == s.tasks[i]; }
      if j != id { assert s'.tasks[j] == s.tasks[j]; }
    }
  }

  lemma DedupStep(cfg: Config, s: Sys, a: Action)
    requires DedupInv(s) && Next(cfg, s, a).Some?
    ensures DedupInv(Next(cfg, s, a).value)
  {
    MarkersHeldStep(cfg, s, a);
    LogGrows(cfg, s, a);
    if NoOvermark(Next(cfg, s, a).value.log) {
      if a.Step? {
        var t := s.tasks[a.id];
        var e := LocalStep(cfg, a.id, t, a.choice, ViewOf(s, t)).value;
        HolderSteps(cfg, s, a.id, a.choice);
        assert t.Marking? ==> e.events[0] in Next(cfg, s, a).value.log;
        ExclusiveStep(cfg, s, a.id, a.choice);
      } else {
        QuietDedup(cfg, s, a);
      }
    }
  }

  lemma QuietDedup(cfg: Config, s: Sys, a: Action)
    requires Exclusive(s) && HoldersMarked(s) && Next(cfg, s, a).Some? && !a.Step?
    ensures var s' := Next(cfg, s, a).value; Exclusive(s') && HoldersMarked(s')
  {
    assert a.Call? ==> !Holds(Arrive(cfg, |s.tasks|, a.req, s.clock).0);
  }

  lemma ReachableDedup(cfg: Config, s: Sys)
    requires Reachable(cfg, s)
    ensures DedupInv(s)
  {
    forall s, a | DedupInv(s) && Next(cfg, s, a).Some? ensures DedupInv(Next(cfg, s, a).value) {
      DedupStep(cfg, s, a);
    }
    ReachableKeeps(cfg, s => DedupInv(s), s);
  }

  /** In a run in which no mark is made over a marker, at most one load per key is in flight and the
      marker is there exactly while one task holds it. */
  lemma Deduplication(cfg: Config, s: Sys, ck: string)
    requires Reachable(cfg, s) && NoOvermark(s.log)
    ensures ck in s.marked <==> exists id: nat :: HeldBy(s, ck, id)
    ensures forall i: nat, j: nat :: HeldBy(s, ck, i) && HeldBy(s, ck, j) ==> i == j
  {
    ReachableDedup(cfg, s);
  }

  /** Conversely, a mark over a marker always puts a second task beside the one that holds it. */
  lemma OvermarkDoubles(cfg: Config, s: Sys, id: nat)
    requires MarkersHeld(s) && id < |s.tasks| && s.tasks[id].Marking? && s.tasks[id].name.Ck() in s.marked
    ensures Next(cfg, s, Step(id, Go)).Some? && !Exclusive(Next(cfg, s, Step(id, Go)).value)
  {
    var ck := s.tasks[id].name.Ck();
    var other: nat :| HeldBy(s, ck, other);
    var s' := Next(cfg, s, Step(id, Go)).value;
    assert Holds(s'.tasks[id]) && Holds(s'.tasks[other]);
    assert s'.tasks[id].name.Ck() == ck == s'.tasks[other].name.Ck();
  }

  ghost predicate Always(cfg: Config, s: Sys, actions: seq<Action>, p: Sys -> bool)
    decreases |actions|
  {
    p(s) && (actions != [] && Next(cfg, s, actions[0]).Some? ==>
      Always(cfg, Next(cfg, s, actions[0]).value, actions[1..], p))
  }

  lemma {:induction false} RunLogGrows(cfg: Config, s: Sys, actions: seq<Action>)
    requires Run(cfg, s, actions).Some? && NoOvermark(Run(cfg, s, actions).value.log)
    ensures NoOvermark(s.log)
    decreases |actions|
  {
    if actions == [] {
    } else {
      RunLogGrows(cfg, Next(cfg, s, actions[0]).value, actions[1..]);
      LogGrows(cfg, s, actions[0]);
    }
  }

  lemma StepOvermarks(cfg: Config, s: Sys, a: Action)
    requires NoOvermark(s.log) && Next(cfg, s, a).Some? && !NoOvermark(Next(cfg, s, a).value.log)
    ensures a.Step? && s.tasks[a.id].Marking? && a.choice.Go? && s.tasks[a.id].name.Ck() in s.marked
  {
  }

  lemma {:induction false} ExclusiveExactlyFrom(cfg: Config, s: Sys, actions: seq<Action>)
    requires DedupInv(s) && NoOvermark(s.log) && Run(cfg, s, actions).Some?
    ensures Always(cfg, s, actions, s => Exclusive(s)) <==> NoOvermark(Run(cfg, s, actions).value.log)
    decreases |actions|
  {
    if actions == [] {
    } else {
      var a := actions[0];
      var s' := Next(cfg, s, a).value;
      DedupStep(cfg, s, a);
      if NoOvermark(s'.log) {
        ExclusiveExactlyFrom(cfg, s', actions[1..]);
      } else {
        StepOvermarks(cfg, s, a);
        OvermarkDoubles(cfg, s, a.id);
        if NoOvermark(Run(cfg, s', actions[1..]).value.log) {
          RunLogGrows(cfg, s', actions[1..]);
        }
      }
    }
  }

  /** At most one task per key is between its mark and its unmark, throughout a run, if and only if no mark of the run
      was made over a marker. */
  lemma ExclusiveExactly(cfg: Config, start: int, actions: seq<Action>)
    requires Run(cfg, Init(cfg, start), actions).Some?
    ensures Always(cfg, Init(cfg, start), actions, s => Exclusive(s))
       <==> NoOvermark(Run(cfg, Init(cfg, start), actions).value.log)
  {
    ExclusiveExactlyFrom(cfg, Init(cfg, start), actions);
  }

  // ---------------------------------------------------------------- overlapping loads

  /** At most one load per key is in flight. */
  ghost predicate OneLoad(s: Sys) {
    forall i: nat, j: nat :: i < j < |s.tasks| && s.tasks[i].Loading? && s.tasks[j].Loading? ==>
      s.tasks[i].name.Ck() != s.tasks[j].name.Ck()
  }

  ghost predicate LoadsAt(s: Sys, ck: string, id: nat) {
    id < |s.tasks| && s.tasks[id].Loading? && s.tasks[id].name.Ck() == ck
  }

  /** The step is a mark, made while another task of the same key is still loading. */
  ghost predicate Overloads(s: Sys, a: Action) {
    && a.Step? && a.id < |s.tasks| && s.tasks[a.id].Marking?
    && exists id: nat :: LoadsAt(s, s.tasks[a.id].name.Ck(), id)
  }

  ghost predicate NoOverload(cfg: Config, s: Sys, actions: seq<Action>)
    decreases |actions|
  {
    actions != [] && Next(cfg, s, actions[0]).Some? ==>
      !Overloads(s, actions[0]) && NoOverload(cfg, Next(cfg, s, actions[0]).value, actions[1..])
  }

  /** Only a mark makes a task load. */
  lemma LoaderSteps(cfg: Config, id: nat, t: Task, c: Choice, v: View)
    requires LocalStep(cfg, id, t, c, v).Some?
    ensures var e := LocalStep(cfg, id, t, c, v).value;
      (e.next.Loading? <==> t.Marking?) && e.next.name == t.name && (e.spawn.Some? ==> !e.spawn.value.Loading?)
  {
  }

  lemma OneLoadStep(cfg: Config, s: Sys, a: Action)
    requires OneLoad(s) && Next(cfg, s, a).Some?
    ensures OneLoad(Next(cfg, s, a).value) <==> !Overloads(s, a)
  {
    var s' := Next(cfg, s, a).value;
    if a.Step? {
      var t := s.tasks[a.id];
      LoaderSteps(cfg, a.id, t, a.choice, ViewOf(s, t));
      if Overloads(s, a) {
        var id: nat :| LoadsAt(s, t.name.Ck(), id);
        assert s'.tasks[id] == s.tasks[id] && s'.tasks[a.id].Loading?;
      } else {
        OneLoadKept(s, a.id, LocalStep(cfg, a.id, t, a.choice, ViewOf(s, t)).value);
      }
    } else if a.Call? {
      assert !Arrive(cfg, |s.tasks|, a.req, s.clock).0.Loading?;
    }
  }

  lemma OneLoadKept(s: Sys, id: nat, e: Effect)
    requires OneLoad(s) && id < |s.tasks| && e.next.name == s.tasks[id].name
    requires e.next.Loading? ==> forall j: nat :: !LoadsAt(s, s.tasks[id].name.Ck(), j)
    requires e.spawn.Some? ==> !e.spawn.value.Loading?
    ensures OneLoad(Perform(s, id, e))
  {
    var s' := Perform(s, id, e);
    forall i: nat, j: nat | i < j < |s'.tasks| && s'.tasks[i].Loading? && s'.tasks[j].Loading?
      ensures s'.tasks[i].name.Ck() != s'.tasks[j].name.Ck()
    {
      assert j < |s.tasks|;
      if i == id {
        assert !LoadsAt(s, s.tasks[id].name.Ck(), j);
      } else if j == id {
        assert !LoadsAt(s, s.tasks[id].name.Ck(), i);
      }
    }
  }

  lemma {:induction false} OneLoadExactlyFrom(cfg: Config, s: Sys, actions: seq<Action>)
    requires OneLoad(s) && Run(cfg, s, actions).Some?
    ensures Always(cfg, s, actions, s => OneLoad(s)) <==> NoOverload(cfg, s, actions)
    decreases |actions|
  {
    if actions == [] {
    } else {
      OneLoadStep(cfg, s, actions[0]);
      if !Overloads(s, actions[0]) {
        OneLoadExactlyFrom(cfg, Next(cfg, s, actions[0]).value, actions[1..]);
      }
    }
  }

  /** Loads of a key never overlap in a run if and only if no mark of the run was made while another task of that key
      was still loading. */
  lemma LoadsOverlapExactly(cfg: Config, start: int, actions: seq<Action>)
    requires Run(cfg, Init(cfg, start), actions).Some?
    ensures Always(cfg, Init(cfg, start), actions, s => OneLoad(s)) <==> NoOverload(cfg, Init(cfg, start), actions)
  {
    OneLoadExactlyFrom(cfg, Init(cfg, start), actions);
  }

  /** As long as no mark was made over a marker, a mark beside a running load would be one: so the first overlap of
      loads in a run is made by, or comes after, a mark over a marker. */
  lemma OverloadIsOvermark(cfg: Config, s: Sys, a: Action)
    requires Reachable(cfg, s) && NoOvermark(s.log) && Next(cfg, s, a).Some? && Overloads(s, a)
    ensures !NoOvermark(Next(cfg, s, a).value.log)
  {
    ReachableDedup(cfg, s);
    var id: nat :| LoadsAt(s, s.tasks[a.id].name.Ck(), id);
    assert Holds(s.tasks[id]) && s.tasks[id].name.Ck() in s.marked;
    HolderSteps(cfg, s, a.id, a.choice);
    var e := LocalStep(cfg, a.id, s.tasks[a.id], a.choice, ViewOf(s, s.tasks[a.id])).value;
    assert e.events[0] in Next(cfg, s, a).value.log;
  }

  // ---------------------------------------------------------------- how a mark over a marker comes about

  predicate BeforeMark(t: Task) {
    t.Reading? || t.Answered? || t.Checking? || t.Waiting? || t.Marking?
  }

  ghost predicate MarkersPast(s: Sys) {
    forall ev :: ev in s.log && ev.Marked? ==> ev.id < |s.tasks| && !BeforeMark(s.tasks[ev.id])
  }

  /** Some task marked `ck` since the log had `at` events. */
  ghost predicate MarkedSince(s: Sys, ck: string, at: nat, k: nat) {
    at <= k < |s.log| && s.log[k].Marked? && s.log[k].name.Ck() == ck
  }

  ghost predicate SightingOk(s: Sys, t: Task)
    requires t.Marking?
  {
    match t.saw
    case SawFree(at) =>
      at <= |s.log| && (t.name.Ck() in s.marked ==> exists k: nat :: MarkedSince(s, t.name.Ck(), at, k))
    case RetryMissed => t.loader.Foreground?
  }

  ghost predicate SightInv(s: Sys) {
    MarkersPast(s) && forall id :: 0 <= id < |s.tasks| && s.tasks[id].Marking? ==> SightingOk(s, s.tasks[id])
  }

  lemma SightingKept(cfg: Config, s: Sys, a: Action, t: Task)
    requires Next(cfg, s, a).Some? && t.Marking? && SightingOk(s, t)
    ensures SightingOk(Next(cfg, s, a).value, t)
  {
    var s', ck := Next(cfg, s, a).value, t.name.Ck();
    LogGrows(cfg, s, a);
    if t.saw.SawFree? && ck in s'.marked {
      if ck in s.marked {
        var k: nat :| MarkedSince(s, ck, t.saw.at, k);
        assert MarkedSince(s', ck, t.saw.at, k);
      } else {
        assert a.Step? && s.tasks[a.id].Marking?;
        assert MarkedSince(s', ck, t.saw.at, |s.log|);
      }
    }
  }

  lemma PastStaysPast(cfg: Config, id: nat, t: Task, c: Choice, v: View)
    requires LocalStep(cfg, id, t, c, v).Some?
    ensures var e := LocalStep(cfg, id, t, c, v).value;
      && (!BeforeMark(t) ==> !BeforeMark(e.next))
      && (forall ev :: ev in e.events && ev.Marked? ==> ev.id == id && !BeforeMark(e.next))
      && (e.spawn.Some? ==> !e.spawn.value.Marking?)
      && (e.next.Marking? ==>
          && e.events == [] && e.marker.KeepMarker?
          && (e.next.saw.SawFree? ==> e.next.saw.at == v.logged && !v.marked)
          && (e.next.saw.RetryMissed? ==> e.next.loader.Foreground?))
  {
  }

  lemma SightStep(cfg: Config, s: Sys, a: Action)
    requires SightInv(s) && Next(cfg, s, a).Some?
    ensures SightInv(Next(cfg, s, a).value)
  {
    var s' := Next(cfg, s, a).value;
    if a.Step? {
      PastStaysPast(cfg, a.id, s.tasks[a.id], a.choice, ViewOf(s, s.tasks[a.id]));
      HolderSteps(cfg, s, a.id, a.choice);
    }
    forall id | 0 <= id < |s'.tasks| && s'.tasks[id].Marking? ensures SightingOk(s', s'.tasks[id]) {
      if id < |s.tasks| && s.tasks[id] == s'.tasks[id] {
        SightingKept(cfg, s, a, s.tasks[id]);
      }
    }
  }

  lemma ReachableSight(cfg: Config, s: Sys)
    requires Reachable(cfg, s)
    ensures SightInv(s)
  {
    forall s, a | SightInv(s) && Next(cfg, s, a).Some? ensures SightInv(Next(cfg, s, a).value) {
      SightStep(cfg, s, a);
    }
    ReachableKeeps(cfg, s => SightInv(s), s);
  }

  /** In any run, a task about to mark over a marker either saw no marker, and another task has
      marked since it looked, or is a foreground waiter whose retry gave nothing. */
  lemma OvermarkExplained(cfg: Config, s: Sys, id: nat)
    requires Reachable(cfg, s)
    requires id < |s.tasks| && s.tasks[id].Marking? && s.tasks[id].name.Ck() in s.marked
    ensures var t := s.tasks[id];
      match t.saw
      case RetryMissed => t.loader.Foreground?
      case SawFree(at) => exists k: nat :: MarkedSince(s, t.name.Ck(), at, k) && s.log[k].id != id
  {
    ReachableSight(cfg, s);
    var t := s.tasks[id];
    assert SightingOk(s, t);
    if t.saw.SawFree? {
      var k: nat :| MarkedSince(s, t.name.Ck(), t.saw.at, k);
      assert s.log[k] in s.log;
      assert s.log[k].id != id;
    }
  }
}
