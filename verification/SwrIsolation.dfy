/** Namespaces over shared tiers do not disturb each other, however busy each of them is. */
module SwrIsolation {
  import opened Keys
  import opened SwrProtocol

  /** Every task works for a namespace without a colon. */
  ghost predicate ColonFreeTasks(s: Sys) {
    forall id :: 0 <= id < |s.tasks| ==> ColonFree(s.tasks[id].name.ns)
  }

  ghost predicate ColonFreeCalls(actions: seq<Action>) {
    forall a :: a in actions && a.Call? ==> ColonFree(a.req.name.ns)
  }

  /** Under `ck`, `s'` has what `s` had or less, and the marker is as it was. */
  ghost predicate Undisturbed(s: Sys, s': Sys, ck: string) {
    && |s'.tiers| == |s.tiers|
    && (ck in s'.marked <==> ck in s.marked)
    && forall i :: 0 <= i < |s.tiers| && ck in s'.tiers[i] ==> ck in s.tiers[i] && s'.tiers[i][ck] == s.tiers[i][ck]
  }

  /** The action is a step of a task of `name`. */
  predicate StepOf(s: Sys, a: Action, name: Name) {
    a.Step? && a.id < |s.tasks| && s.tasks[a.id].name == name
  }

  lemma StepKeepsName(cfg: Config, id: nat, t: Task, c: Choice, v: View)
    requires LocalStep(cfg, id, t, c, v).Some?
    ensures var e := LocalStep(cfg, id, t, c, v).value;
      e.next.name == t.name && (e.spawn.Some? ==> e.spawn.value.name == t.name)
  {
  }

  lemma ColonFreeStep(cfg: Config, s: Sys, a: Action)
    requires ColonFreeTasks(s) && (a.Call? ==> ColonFree(a.req.name.ns)) && Next(cfg, s, a).Some?
    ensures ColonFreeTasks(Next(cfg, s, a).value)
  {
    if a.Step? {
      StepKeepsName(cfg, a.id, s.tasks[a.id], a.choice, ViewOf(s, s.tasks[a.id]));
    }
  }

  lemma PerformUndisturbed(s: Sys, id: nat, e: Effect, ck: string)
    requires id < |s.tasks| && s.tasks[id].name.Ck() != ck
    ensures Undisturbed(s, Perform(s, id, e), ck)
  {
  }

  /** A cell or a marker of a name changes, other than by loss, only in a step of a task of that very name:
      in any state, whatever else is in flight. */
  lemma OnlyOwnStepsDisturb(cfg: Config, s: Sys, a: Action, name: Name)
    requires ColonFreeTasks(s) && ColonFree(name.ns) && Next(cfg, s, a).Some?
    ensures StepOf(s, a, name) || Undisturbed(s, Next(cfg, s, a).value, name.Ck())
  {
    if a.Step? && s.tasks[a.id].name != name {
      var t := s.tasks[a.id];
      KeyIsInjective(t.name.ns, t.name.key, name.ns, name.key);
      PerformUndisturbed(s, a.id, LocalStep(cfg, a.id, t, a.choice, ViewOf(s, t)).value, name.Ck());
    }
  }

  /** No action of the run is a step of a task of `ns`; its tasks may be in flight, and it may be called. */
  ghost predicate Rests(cfg: Config, s: Sys, actions: seq<Action>, ns: string)
    decreases |actions|
  {
    actions != [] && Next(cfg, s, actions[0]).Some? ==>
      && (actions[0].Step? ==> s.tasks[actions[0].id].name.ns != ns)
      && Rests(cfg, Next(cfg, s, actions[0]).value, actions[1..], ns)
  }

  /** From any state, while no task of a namespace takes a step, whatever others do on the same tiers leaves each of its
      entries as it is or loses it, and none of its loads is marked or unmarked. */
  lemma {:induction false} NamespaceIsolation(cfg: Config, s: Sys, actions: seq<Action>, ns: string, key: string)
    requires ColonFreeTasks(s) && ColonFreeCalls(actions) && ColonFree(ns)
    requires Run(cfg, s, actions).Some? && Rests(cfg, s, actions, ns)
    ensures Undisturbed(s, Run(cfg, s, actions).value, BuildCacheKey(ns, key))
    decreases |actions|
  {
    if actions == [] {
    } else {
      assert actions[0] in actions;
      OnlyOwnStepsDisturb(cfg, s, actions[0], Name(ns, key));
      ColonFreeStep(cfg, s, actions[0]);
      NamespaceIsolation(cfg, Next(cfg, s, actions[0]).value, actions[1..], ns, key);
    }
  }
}
