/** A run with a mark over a marker in which no two loads overlap: the two conditions of SwrDedup differ. */
module SwrOverlaps {
  import opened Wrappers
  import opened SwrProtocol
  import opened SwrDedup

  /** `s` is reached by a run in which no two loads of one key were ever in flight together. */
  ghost predicate Apart(cfg: Config, s: Sys) {
    exists start, actions ::
      Run(cfg, Init(cfg, start), actions) == Some(s) && Always(cfg, Init(cfg, start), actions, s => OneLoad(s))
  }

  lemma {:induction false} AlwaysSnoc(cfg: Config, s: Sys, actions: seq<Action>, a: Action)
    requires Run(cfg, s, actions).Some? && Always(cfg, s, actions, s => OneLoad(s))
    requires var last := Run(cfg, s, actions).value; Next(cfg, last, a).Some? && OneLoad(Next(cfg, last, a).value)
    ensures Run(cfg, s, actions + [a]) == Next(cfg, Run(cfg, s, actions).value, a)
    ensures Always(cfg, s, actions + [a], s => OneLoad(s))
    decreases |actions|
  {
    if actions == [] {
      var s' := Next(cfg, s, a).value;
      assert [] + [a] == [a] && [a][1..] == [];
      assert Run(cfg, s', []) == Some(s') && Always(cfg, s', [], s => OneLoad(s));
    } else {
      assert (actions + [a])[1..] == actions[1..] + [a];
      AlwaysSnoc(cfg, Next(cfg, s, actions[0]).value, actions[1..], a);
    }
  }

  lemma ApartNext(cfg: Config, s: Sys, a: Action)
    requires Apart(cfg, s) && Next(cfg, s, a).Some? && OneLoad(Next(cfg, s, a).value)
    ensures Apart(cfg, Next(cfg, s, a).value)
  {
    var start, actions :| Run(cfg, Init(cfg, start), actions) == Some(s)
      && Always(cfg, Init(cfg, start), actions, s => OneLoad(s));
    AlwaysSnoc(cfg, Init(cfg, start), actions, a);
  }

  /** Two calls of `swr` on the same name, and nothing else, stand at `t0` and `t1`. */
  ghost predicate Pair(cfg: Config, s: Sys, t0: Task, t1: Task, marked: bool) {
    && Apart(cfg, s) && s.tasks == [t0, t1] && !(t0.Loading? && t1.Loading?)
    && t0.name == t1.name && (t0.name.Ck() in s.marked <==> marked)
  }

  /** One of the two takes a step that spawns nothing. */
  lemma PairStep(cfg: Config, s: Sys, t0: Task, t1: Task, marked: bool, id: nat, c: Choice) returns (s': Sys, e: Effect)
    requires Pair(cfg, s, t0, t1, marked) && id < 2
    requires LocalStep(cfg, id, s.tasks[id], c, ViewOf(s, s.tasks[id])).Some?
    requires var e := LocalStep(cfg, id, s.tasks[id], c, ViewOf(s, s.tasks[id])).value;
      e.spawn.None? && e.next.name == t0.name && !(e.next.Loading? && s.tasks[1 - id].Loading?)
    ensures e == LocalStep(cfg, id, s.tasks[id], c, ViewOf(s, s.tasks[id])).value
    ensures Pair(cfg, s', if id == 0 then e.next else t0, if id == 1 then e.next else t1,
      e.marker.SetMarker? || (marked && e.marker.KeepMarker?))
    ensures s'.log == s.log + e.events
  {
    e := LocalStep(cfg, id, s.tasks[id], c, ViewOf(s, s.tasks[id])).value;
    s' := Next(cfg, s, Step(id, c)).value;
    assert s'.tasks == [if id == 0 then e.next else t0, if id == 1 then e.next else t1];
    ApartNext(cfg, s, Step(id, c));
  }

  /** A read that every tier misses. */
  lemma {:induction false} ReadsNothing(cfg: Config, s: Sys, t0: Task, t1: Task, marked: bool, id: nat)
    returns (s': Sys)
    requires Pair(cfg, s, t0, t1, marked) && id < 2 && s.tasks[id].Reading? && s.tasks[id].tier <= |cfg.modes|
    ensures var answered := Answered(s.tasks[id].call, t0.name, s.tasks[id].purpose, Ok(None));
      Pair(cfg, s', if id == 0 then answered else t0, if id == 1 then answered else t1, marked)
    ensures s'.log == s.log
    decreases |cfg.modes| - s.tasks[id].tier
  {
    var e;
    if s.tasks[id].tier == |cfg.modes| {
      s', e := PairStep(cfg, s, t0, t1, marked, id, Go);
    } else {
      s', e := PairStep(cfg, s, t0, t1, marked, id, Miss);
      s' := ReadsNothing(cfg, s', s'.tasks[0], s'.tasks[1], marked, id);
    }
  }

  lemma NothingYet(cfg: Config, start: int)
    ensures Apart(cfg, Init(cfg, start))
  {
    var s := Init(cfg, start);
    assert Run(cfg, s, []) == Some(s) && Always(cfg, s, [], s => OneLoad(s));
  }

  /** Two calls have arrived. */
  lemma TwoCalls(cfg: Config, name: Name, start: int) returns (s: Sys)
    ensures Pair(cfg, s, Reading(0, name, ForSwr, 0), Reading(1, name, ForSwr, 0), false)
  {
    var s0 := Init(cfg, start);
    NothingYet(cfg, start);
    var s1 := Next(cfg, s0, Call(SwrRequest(name))).value;
    ApartNext(cfg, s0, Call(SwrRequest(name)));
    s := Next(cfg, s1, Call(SwrRequest(name))).value;
    ApartNext(cfg, s1, Call(SwrRequest(name)));
    assert s.tasks == [Reading(0, name, ForSwr, 0), Reading(1, name, ForSwr, 0)];
  }

  /** A first read that finds nothing sends its call to look for a marker. */
  lemma MissesThenChecks(cfg: Config, s: Sys, t0: Task, t1: Task, marked: bool, id: nat) returns (s': Sys)
    requires Pair(cfg, s, t0, t1, marked) && id < 2
    requires s.tasks[id].Reading? && s.tasks[id].tier <= |cfg.modes| && s.tasks[id].purpose.ForSwr?
    ensures var checking := Checking(s.tasks[id].call, t0.name, Foreground(None));
      Pair(cfg, s', if id == 0 then checking else t0, if id == 1 then checking else t1, marked)
  {
    var e;
    s' := ReadsNothing(cfg, s, t0, t1, marked, id);
    s', e := PairStep(cfg, s', s'.tasks[0], s'.tasks[1], marked, id, Go);
  }

  /** Both calls have found nothing and look for a marker. */
  lemma TwoMiss(cfg: Config, name: Name, start: int) returns (s: Sys)
    ensures Pair(cfg, s, Checking(0, name, Foreground(None)), Checking(1, name, Foreground(None)), false)
  {
    s := TwoCalls(cfg, name, start);
    s := MissesThenChecks(cfg, s, s.tasks[0], s.tasks[1], false, 0);
    s := MissesThenChecks(cfg, s, s.tasks[0], s.tasks[1], false, 1);
  }

  /** The first loads. */
  lemma FirstLoads(cfg: Config, name: Name, start: int) returns (s: Sys)
    ensures Pair(cfg, s, Loading(0, name, Foreground(None)), Checking(1, name, Foreground(None)), true)
  {
    var e;
    s := TwoMiss(cfg, name, start);
    s, e := PairStep(cfg, s, s.tasks[0], s.tasks[1], false, 0, Go);
    s, e := PairStep(cfg, s, s.tasks[0], s.tasks[1], false, 0, Go);
  }

  /** The second waits, finds nothing again and is about to mark. */
  lemma WaiterMisses(cfg: Config, name: Name, start: int) returns (s: Sys)
    ensures Pair(cfg, s, Loading(0, name, Foreground(None)), Marking(1, name, Foreground(None), RetryMissed), true)
  {
    var e;
    s := FirstLoads(cfg, name, start);
    s, e := PairStep(cfg, s, s.tasks[0], s.tasks[1], true, 1, Go);
    s, e := PairStep(cfg, s, s.tasks[0], s.tasks[1], true, 1, Go);
    s := ReadsNothing(cfg, s, s.tasks[0], s.tasks[1], true, 1);
    s, e := PairStep(cfg, s, s.tasks[0], s.tasks[1], true, 1, Go);
  }

  /** On any stack there is a run with a mark over a marker in which no two loads of a key are ever in flight together:
      the holder has its answer and has yet to unmark when the waiter marks. */
  lemma OvermarkWithoutOverlap(cfg: Config, name: Name, start: int) returns (s: Sys)
    ensures Apart(cfg, s) && !NoOvermark(s.log)
  {
    var e;
    s := WaiterMisses(cfg, name, start);
    s, e := PairStep(cfg, s, s.tasks[0], s.tasks[1], true, 0, Origin(None));
    s, e := PairStep(cfg, s, s.tasks[0], s.tasks[1], true, 1, Go);
    assert IsOvermark(e.events[0]) && e.events[0] in s.log;
  }
}
