/** Induction over runs of the engine, once and for all. */
module SwrRuns {
  import opened Wrappers
  import opened SwrProtocol

  ghost predicate Inductive(cfg: Config, inv: Sys -> bool) {
    forall s, a :: inv(s) && Next(cfg, s, a).Some? ==> inv(Next(cfg, s, a).value)
  }

  /** What every step keeps, every run keeps. */
  lemma {:induction false} RunKeeps(cfg: Config, inv: Sys -> bool, s: Sys, actions: seq<Action>)
    requires Inductive(cfg, inv) && inv(s)
    ensures Run(cfg, s, actions).Some? ==> inv(Run(cfg, s, actions).value)
    decreases |actions|
  {
    if actions != [] && Next(cfg, s, actions[0]).Some? {
      RunKeeps(cfg, inv, Next(cfg, s, actions[0]).value, actions[1..]);
    }
  }

  /** `s` arises from empty tiers under some schedule, some requests and some environment. */
  ghost predicate Reachable(cfg: Config, s: Sys) {
    exists start, actions :: Run(cfg, Init(cfg, start), actions) == Some(s)
  }

  lemma ReachableKeeps(cfg: Config, inv: Sys -> bool, s: Sys)
    requires Reachable(cfg, s) && Inductive(cfg, inv)
    requires forall start :: inv(Init(cfg, start))
    ensures inv(s)
  {
    var start, actions :| Run(cfg, Init(cfg, start), actions) == Some(s);
    RunKeeps(cfg, inv, Init(cfg, start), actions);
  }

  lemma {:induction false} RunSnoc(cfg: Config, s: Sys, actions: seq<Action>, a: Action)
    requires Run(cfg, s, actions).Some?
    ensures Run(cfg, s, actions + [a]) == Next(cfg, Run(cfg, s, actions).value, a)
    decreases |actions|
  {
    if actions == [] {
      assert [] + [a] == [a] && [a][1..] == [];
      assert Next(cfg, s, a).Some? ==> Run(cfg, Next(cfg, s, a).value, []) == Next(cfg, s, a);
    } else {
      assert (actions + [a])[1..] == actions[1..] + [a];
      RunSnoc(cfg, Next(cfg, s, actions[0]).value, actions[1..], a);
    }
  }

  lemma InitIsReachable(cfg: Config, start: int)
    ensures Reachable(cfg, Init(cfg, start))
  {
    assert Run(cfg, Init(cfg, start), []) == Some(Init(cfg, start));
  }

  lemma ReachNext(cfg: Config, s: Sys, a: Action)
    requires Reachable(cfg, s) && Next(cfg, s, a).Some?
    ensures Reachable(cfg, Next(cfg, s, a).value)
  {
    var start, actions :| Run(cfg, Init(cfg, start), actions) == Some(s);
    RunSnoc(cfg, Init(cfg, start), actions, a);
  }

  lemma {:induction false} ReachRun(cfg: Config, s: Sys, actions: seq<Action>)
    requires Reachable(cfg, s) && Run(cfg, s, actions).Some?
    ensures Reachable(cfg, Run(cfg, s, actions).value)
    decreases |actions|
  {
    if actions == [] {
    } else {
      ReachNext(cfg, s, actions[0]);
      ReachRun(cfg, Next(cfg, s, actions[0]).value, actions[1..]);
    }
  }

  // ---------------------------------------------------------------- runs in pieces

  lemma {:induction false} RunConcat(cfg: Config, s: Sys, xs: seq<Action>, ys: seq<Action>)
    requires Run(cfg, s, xs).Some?
    ensures Run(cfg, s, xs + ys) == Run(cfg, Run(cfg, s, xs).value, ys)
    decreases |xs|
  {
    if xs == [] {
      assert [] + ys == ys;
    } else {
      assert (xs + ys)[1..] == xs[1..] + ys;
      RunConcat(cfg, Next(cfg, s, xs[0]).value, xs[1..], ys);
    }
  }

  lemma RunOne(cfg: Config, s: Sys, a: Action)
    ensures Run(cfg, s, [a]) == Next(cfg, s, a)
  {
    assert [a][1..] == [];
    assert Next(cfg, s, a).Some? ==> Run(cfg, Next(cfg, s, a).value, []) == Next(cfg, s, a);
  }

  /** Some action of the run is taken in a state in which the two satisfy `p`. */
  ghost predicate Sometime(cfg: Config, s: Sys, actions: seq<Action>, p: (Sys, Action) -> bool)
    decreases |actions|
  {
    && actions != [] && Next(cfg, s, actions[0]).Some?
    && (p(s, actions[0]) || Sometime(cfg, Next(cfg, s, actions[0]).value, actions[1..], p))
  }

  // ---------------------------------------------------------------- one task through a run

  /** Only its own steps move a task. */
  lemma OthersKeep(cfg: Config, s: Sys, a: Action, id: nat)
    requires id < |s.tasks| && Next(cfg, s, a).Some? && !(a.Step? && a.id == id)
    ensures var s' := Next(cfg, s, a).value; id < |s'.tasks| && s'.tasks[id] == s.tasks[id]
  {
  }

  lemma {:induction false} DoneStays(cfg: Config, s: Sys, actions: seq<Action>, id: nat)
    requires id < |s.tasks| && s.tasks[id].Done? && Run(cfg, s, actions).Some?
    ensures var s' := Run(cfg, s, actions).value; id < |s'.tasks| && s'.tasks[id] == s.tasks[id]
    decreases |actions|
  {
    if actions == [] {
    } else {
      OthersKeep(cfg, s, actions[0], id);
      DoneStays(cfg, Next(cfg, s, actions[0]).value, actions[1..], id);
    }
  }

  lemma {:induction false} RunTiers(cfg: Config, s: Sys, actions: seq<Action>)
    requires Run(cfg, s, actions).Some?
    ensures |Run(cfg, s, actions).value.tiers| == |s.tiers|
    decreases |actions|
  {
    if actions == [] {
    } else {
      RunTiers(cfg, Next(cfg, s, actions[0]).value, actions[1..]);
    }
  }

  lemma {:induction false} TasksStay(cfg: Config, s: Sys, actions: seq<Action>)
    requires Run(cfg, s, actions).Some?
    ensures |s.tasks| <= |Run(cfg, s, actions).value.tasks|
    decreases |actions|
  {
    if actions == [] {
    } else {
      TasksStay(cfg, Next(cfg, s, actions[0]).value, actions[1..]);
    }
  }
}
