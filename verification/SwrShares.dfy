/** What a write, a removal or a backfill does to each tier, and what its caller is told. */
module SwrShares {
  import opened Wrappers
  import opened Entries
  import opened SwrProtocol
  import opened SwrRuns
  import opened SwrDrain
  import opened SwrCoherence

  /** One tier's part in the work of a task: what the tier did, and the states around it. */
  datatype Share = Share(tier: nat, ok: bool, before: Sys, after: Sys)

  /** The tiers a task has yet to come to. */
  function Left(t: Task): set<nat>
    requires Mutates(t)
  {
    if t.Filling? then AllTiers(t.upTo) - AllTiers(t.tier) else t.pending
  }

  /** The action is a tier's part in the work of task `id`. */
  predicate IsShare(s: Sys, a: Action, id: nat) {
    a.Step? && a.id == id && a.choice.Tier? && id < |s.tasks| && Mutates(s.tasks[id])
  }

  /** All the shares of task `id` in a run, in order. */
  function Shares(cfg: Config, s: Sys, actions: seq<Action>, id: nat): seq<Share>
    decreases |actions|
  {
    if actions == [] || Next(cfg, s, actions[0]).None? then [] else
    var s' := Next(cfg, s, actions[0]).value;
    var rest := Shares(cfg, s', actions[1..], id);
    if IsShare(s, actions[0], id) then [Share(actions[0].choice.tier, actions[0].choice.ok, s, s')] + rest else rest
  }

  /** The tier did not fail, and neither did the conversion to its mode. */
  predicate Accepted(cfg: Config, t: Task, share: Share)
    requires Mutates(t)
  {
    && share.ok && share.tier < |cfg.modes|
    && (t.Removing? || ConvertForMode(cfg.codec, t.stored, cfg.modes[share.tier]).Ok?)
  }

  /** What an accepted share makes of its tier. */
  function Applied(cfg: Config, t: Task, tier: Store, i: nat): Store
    requires Mutates(t) && i < |cfg.modes|
  {
    var ck := t.name.Ck();
    if t.Removing? then tier - {ck} else
    match ConvertForMode(cfg.codec, t.stored, cfg.modes[i])
    case Ok(converted) => tier[ck := converted]
    case Err(_) => tier
  }

  /** The share does to its own tier what it should, to no other anything, and nothing at all if it is refused. */
  predicate DoesItsPart(cfg: Config, t: Task, share: Share)
    requires Mutates(t)
  {
    && share.tier < |cfg.modes| && share.tier < |share.before.tiers|
    && share.after.tiers ==
       if Accepted(cfg, t, share)
       then share.before.tiers[share.tier := Applied(cfg, t, share.before.tiers[share.tier], share.tier)]
       else share.before.tiers
  }

  // ---------------------------------------------------------------- one step

  /** The task after a share: it carries on with one tier less, or is over. */
  predicate CarriesOn(t: Task, next: Task, tier: nat, accepted: bool)
    requires Mutates(t)
  {
    match t
    case Writing(call, name, writer, stored, pending, failed) =>
      next == Writing(call, name, writer, stored, pending - {tier}, failed || !accepted)
    case Removing(call, name, pending, failed) => next == Removing(call, name, pending - {tier}, failed || !accepted)
    case Filling(call, name, stored, at, upTo) =>
      tier == at && next == if at + 1 < upTo then Filling(call, name, stored, at + 1, upTo)
                            else Done(call, name, Spawned, Ok(None))
    case _ => true
  }

  lemma ShareStep(cfg: Config, s: Sys, a: Action, id: nat)
    requires |s.tiers| == |cfg.modes| && IsShare(s, a, id) && Next(cfg, s, a).Some?
    ensures var t, s' := s.tasks[id], Next(cfg, s, a).value;
      var share := Share(a.choice.tier, a.choice.ok, s, s');
      && DoesItsPart(cfg, t, share) && share.tier in Left(t)
      && id < |s'.tasks| && CarriesOn(t, s'.tasks[id], share.tier, Accepted(cfg, t, share))
  {
  }

  /** How the work of a task ends that has nothing left to do. */
  function Ended(t: Task): Task
    requires t.Writing? || t.Removing?
  {
    var ret := if t.failed then Err(OperationError) else Ok(None);
    match t
    case Removing(call, name, _, _) => Done(call, name, RemoveCall, ret)
    case Writing(call, name, BySet, _, _, _) => Done(call, name, SetCall, ret)
    case Writing(call, name, ByCache, _, _, _) => Done(call, name, Spawned, Ok(None))
    case Writing(call, name, ByRevalidation, _, _, _) => Unmarking(call, name, Background, None)
  }

  lemma EndStep(cfg: Config, s: Sys, a: Action, id: nat)
    requires id < |s.tasks| && Mutates(s.tasks[id]) && Next(cfg, s, a).Some?
    requires a.Step? && a.id == id && !a.choice.Tier?
    ensures var t, s' := s.tasks[id], Next(cfg, s, a).value;
      && !t.Filling? && Left(t) == {} && id < |s'.tasks| && s'.tasks[id] == Ended(t)
  {
  }

  /** The task's work is over, and it will not start another. */
  predicate Over(t: Task) {
    t.Done? || (t.Unmarking? && t.loader.Background?)
  }

  lemma {:induction false} NoMoreShares(cfg: Config, s: Sys, actions: seq<Action>, id: nat)
    requires id < |s.tasks| && Over(s.tasks[id]) && Run(cfg, s, actions).Some?
    ensures Shares(cfg, s, actions, id) == []
    decreases |actions|
  {
    if actions == [] {
    } else {
      if !(actions[0].Step? && actions[0].id == id) {
        OthersKeep(cfg, s, actions[0], id);
      }
      NoMoreShares(cfg, Next(cfg, s, actions[0]).value, actions[1..], id);
    }
  }

  // ---------------------------------------------------------------- the whole work

  ghost predicate Distinct(shares: seq<Share>) {
    forall i, j :: 0 <= i < j < |shares| ==> shares[i].tier != shares[j].tier
  }

  ghost predicate HasShare(shares: seq<Share>, tier: nat) {
    exists i :: 0 <= i < |shares| && shares[i].tier == tier
  }

  /** Each tier of `left` has exactly one share, and there are no others. */
  ghost predicate OncePerTier(shares: seq<Share>, left: set<nat>) {
    && Distinct(shares)
    && (forall i :: 0 <= i < |shares| ==> shares[i].tier in left)
    && (forall tier :: tier in left ==> HasShare(shares, tier))
  }

  predicate AllAccepted(cfg: Config, t: Task, shares: seq<Share>)
    requires Mutates(t)
  {
    forall i :: 0 <= i < |shares| ==> Accepted(cfg, t, shares[i])
  }

  ghost predicate AllDoTheirPart(cfg: Config, t: Task, shares: seq<Share>)
    requires Mutates(t)
  {
    forall i :: 0 <= i < |shares| ==> DoesItsPart(cfg, t, shares[i])
  }

  /** The shares of a backfill come in the order of the tiers. */
  ghost predicate InOrder(t: Task, shares: seq<Share>) {
    t.Filling? ==>
      |shares| == t.upTo - t.tier && forall i :: 0 <= i < |shares| ==> shares[i].tier == t.tier + i
  }

  /** What a finished `set` or `remove` tells its caller. */
  ghost predicate Told(cfg: Config, t: Task, shares: seq<Share>, last: Task)
    requires Mutates(t)
  {
    var ok := AllAccepted(cfg, t, shares);
    match t
    case Writing(call, name, BySet, _, _, failed) =>
      last == Done(call, name, SetCall, if ok && !failed then Ok(None) else Err(OperationError))
    case Removing(call, name, _, failed) =>
      last == Done(call, name, RemoveCall, if ok && !failed then Ok(None) else Err(OperationError))
    case _ => true
  }

  lemma DistinctMore(share: Share, rest: seq<Share>)
    requires Distinct(rest) && forall i :: 0 <= i < |rest| ==> rest[i].tier != share.tier
    ensures Distinct([share] + rest)
  {
    var all := [share] + rest;
    forall i, j | 0 <= i < j < |all| ensures all[i].tier != all[j].tier {
      assert all[j] == rest[j - 1] && (i > 0 ==> all[i] == rest[i - 1]);
    }
  }

  lemma OneTierMore(share: Share, rest: seq<Share>, left: set<nat>)
    requires OncePerTier(rest, left - {share.tier}) && share.tier in left
    ensures OncePerTier([share] + rest, left)
  {
    var all := [share] + rest;
    assert all[0] == share && forall i :: 0 <= i < |rest| ==> all[i + 1] == rest[i];
    forall i | 0 < i < |all| ensures all[i].tier in left && all[i].tier != share.tier {
      assert all[i] == rest[i - 1];
    }
    DistinctMore(share, rest);
    forall tier | tier in left ensures HasShare(all, tier) {
      if tier == share.tier {
        assert all[0].tier == tier;
      } else {
        assert HasShare(rest, tier);
        var i :| 0 <= i < |rest| && rest[i].tier == tier;
        assert all[i + 1].tier == tier;
      }
    }
  }

  /** `next` is at the same work as `t`. */
  predicate SameWork(t: Task, next: Task)
    requires Mutates(t) && Mutates(next)
  {
    && t.name == next.name && (t.Removing? <==> next.Removing?)
    && (!t.Removing? ==> t.stored == next.stored)
  }

  lemma OnePartMore(cfg: Config, t: Task, next: Task, share: Share, rest: seq<Share>)
    requires Mutates(t) && Mutates(next) && SameWork(t, next)
    requires DoesItsPart(cfg, t, share) && AllDoTheirPart(cfg, next, rest)
    ensures AllDoTheirPart(cfg, t, [share] + rest)
    ensures AllAccepted(cfg, t, [share] + rest) <==> Accepted(cfg, t, share) && AllAccepted(cfg, next, rest)
  {
    var all := [share] + rest;
    assert all[0] == share && forall i :: 0 <= i < |rest| ==> all[i + 1] == rest[i];
    forall i | 0 < i < |all|
      ensures DoesItsPart(cfg, t, all[i]) && (Accepted(cfg, t, all[i]) <==> Accepted(cfg, next, rest[i - 1]))
    {
      assert DoesItsPart(cfg, next, rest[i - 1]);
    }
    if AllAccepted(cfg, t, all) {
      forall i | 0 <= i < |rest| ensures Accepted(cfg, next, rest[i]) {
        assert Accepted(cfg, t, all[i + 1]);
      }
    }
  }

  lemma OneLessLeft(t: Task, next: Task, tier: nat, accepted: bool)
    requires Mutates(t) && Mutates(next) && CarriesOn(t, next, tier, accepted) && tier in Left(t)
    ensures Left(next) == Left(t) - {tier} && SameWork(t, next)
  {
  }

  lemma OneFillMore(t: Task, next: Task, share: Share, rest: seq<Share>, accepted: bool)
    requires Mutates(t) && Mutates(next) && CarriesOn(t, next, share.tier, accepted) && InOrder(next, rest)
    ensures InOrder(t, [share] + rest)
  {
    if t.Filling? {
      var all := [share] + rest;
      forall i | 0 <= i < |all| ensures all[i].tier == t.tier + i {
        assert i > 0 ==> all[i] == rest[i - 1];
      }
    }
  }

  lemma OneMoreTold(cfg: Config, t: Task, next: Task, share: Share, rest: seq<Share>, all: seq<Share>, last: Task)
    requires Mutates(t) && Mutates(next) && CarriesOn(t, next, share.tier, Accepted(cfg, t, share))
    requires AllAccepted(cfg, t, all) <==> Accepted(cfg, t, share) && AllAccepted(cfg, next, rest)
    requires Told(cfg, next, rest, last)
    ensures Told(cfg, t, all, last)
  {
  }

  /** The shares of a task are its next share and those of the task it then is. */
  lemma OneShareMore(cfg: Config, t: Task, next: Task, share: Share, rest: seq<Share>, last: Task)
    requires Mutates(t) && Mutates(next) && DoesItsPart(cfg, t, share) && share.tier in Left(t)
    requires CarriesOn(t, next, share.tier, Accepted(cfg, t, share))
    requires OncePerTier(rest, Left(next)) && AllDoTheirPart(cfg, next, rest) && InOrder(next, rest)
    requires Told(cfg, next, rest, last)
    ensures OncePerTier([share] + rest, Left(t)) && AllDoTheirPart(cfg, t, [share] + rest)
    ensures InOrder(t, [share] + rest) && Told(cfg, t, [share] + rest, last)
  {
    var accepted := Accepted(cfg, t, share);
    OneLessLeft(t, next, share.tier, accepted);
    OneTierMore(share, rest, Left(t));
    OnePartMore(cfg, t, next, share, rest);
    OneFillMore(t, next, share, rest, accepted);
    OneMoreTold(cfg, t, next, share, rest, [share] + rest, last);
  }

  /** The last tier of a backfill. */
  lemma LastFill(cfg: Config, t: Task, share: Share)
    requires t.Filling? && t.tier + 1 == t.upTo && share.tier == t.tier && DoesItsPart(cfg, t, share)
    ensures OncePerTier([share], Left(t)) && AllDoTheirPart(cfg, t, [share]) && InOrder(t, [share])
  {
    assert Left(t) == {t.tier};
    assert [share][0].tier == t.tier;
  }

  /** In every run that sees a write, a removal or a backfill to its end: each tier it had left had its share once, and
      no other; each share did to its tier what it should, or nothing if it was refused; a backfill went up in
      order and passed over what was refused; and a `set` or `remove` was told Ok if and only if none was. */
  lemma {:induction false} WorkFollowed(cfg: Config, s: Sys, actions: seq<Action>, id: nat)
    requires |s.tiers| == |cfg.modes| && id < |s.tasks| && Mutates(s.tasks[id]) && InTiers(|cfg.modes|, s.tasks[id])
    requires Run(cfg, s, actions).Some? && id < |Run(cfg, s, actions).value.tasks|
    requires !Mutates(Run(cfg, s, actions).value.tasks[id])
    ensures var t, shares := s.tasks[id], Shares(cfg, s, actions, id);
      && OncePerTier(shares, Left(t)) && AllDoTheirPart(cfg, t, shares) && InOrder(t, shares)
      && Told(cfg, t, shares, Run(cfg, s, actions).value.tasks[id])
    decreases |actions|
  {
    var a, t := actions[0], s.tasks[id];
    var s', rest := Next(cfg, s, a).value, actions[1..];
    RunTiers(cfg, s, [a]);
    RunOne(cfg, s, a);
    if !(a.Step? && a.id == id) {
      OthersKeep(cfg, s, a, id);
      WorkFollowed(cfg, s', rest, id);
    } else if a.choice.Tier? {
      ShareStep(cfg, s, a, id);
      var share := Share(a.choice.tier, a.choice.ok, s, s');
      if Mutates(s'.tasks[id]) {
        WorkFollowed(cfg, s', rest, id);
        OneShareMore(cfg, t, s'.tasks[id], share, Shares(cfg, s', rest, id), Run(cfg, s, actions).value.tasks[id]);
      } else {
        NoMoreShares(cfg, s', rest, id);
        LastFill(cfg, t, share);
        assert Shares(cfg, s, actions, id) == [share] + [] == [share];
      }
    } else {
      EndStep(cfg, s, a, id);
      NoMoreShares(cfg, s', rest, id);
      if s'.tasks[id].Done? {
        DoneStays(cfg, s', rest, id);
      }
    }
  }

  // ---------------------------------------------------------------- what is left in the tiers

  /** Under `ck` nothing is different. */
  ghost predicate SameCells(s: Sys, s': Sys, ck: string) {
    && |s'.tiers| == |s.tiers|
    && forall i :: 0 <= i < |s.tiers| ==>
         && (ck in s'.tiers[i] <==> ck in s.tiers[i])
         && (ck in s.tiers[i] ==> s'.tiers[i][ck] == s.tiers[i][ck])
  }

  /** No other task, and no loss, changes a cell under `ck` during the run. */
  ghost predicate Untouched(cfg: Config, s: Sys, actions: seq<Action>, id: nat, ck: string)
    decreases |actions|
  {
    actions != [] && Next(cfg, s, actions[0]).Some? ==>
      && (!(actions[0].Step? && actions[0].id == id) ==> SameCells(s, Next(cfg, s, actions[0]).value, ck))
      && Untouched(cfg, Next(cfg, s, actions[0]).value, actions[1..], id, ck)
  }

  /** Tier `i` is as the work of `t` should leave it. */
  predicate CellAs(cfg: Config, t: Task, s: Sys, i: nat)
    requires Mutates(t)
  {
    && i < |s.tiers| && i < |cfg.modes|
    && (t.Removing? ==> t.name.Ck() !in s.tiers[i])
    && (!t.Removing? ==>
          && t.name.Ck() in s.tiers[i]
          && ConvertForMode(cfg.codec, t.stored, cfg.modes[i]) == Ok(s.tiers[i][t.name.Ck()]))
  }

  ghost predicate CellsAs(cfg: Config, t: Task, s: Sys, tiers: set<nat>)
    requires Mutates(t)
  {
    forall i :: i in tiers ==> CellAs(cfg, t, s, i)
  }

  lemma SameCellsAs(cfg: Config, t: Task, s: Sys, s': Sys, tiers: set<nat>)
    requires Mutates(t) && CellsAs(cfg, t, s, tiers) && SameCells(s, s', t.name.Ck())
    ensures CellsAs(cfg, t, s', tiers)
  {
    forall i | i in tiers ensures CellAs(cfg, t, s', i) {
      assert CellAs(cfg, t, s, i);
    }
  }

  lemma ShareCellsAs(cfg: Config, t: Task, share: Share, tiers: set<nat>)
    requires Mutates(t) && CellsAs(cfg, t, share.before, tiers) && |share.before.tiers| == |cfg.modes|
    requires DoesItsPart(cfg, t, share) && Accepted(cfg, t, share)
    ensures CellsAs(cfg, t, share.after, tiers + {share.tier})
  {
    forall i | i in tiers + {share.tier} ensures CellAs(cfg, t, share.after, i) {
      assert i in tiers ==> CellAs(cfg, t, share.before, i);
    }
  }

  lemma OverKeeps(cfg: Config, s: Sys, a: Action, id: nat)
    requires id < |s.tasks| && Over(s.tasks[id]) && Next(cfg, s, a).Some? && a.Step? && a.id == id
    ensures var s' := Next(cfg, s, a).value; s'.tiers == s.tiers && id < |s'.tasks| && Over(s'.tasks[id])
  {
  }

  lemma {:induction false} OverLeaves(cfg: Config, s: Sys, actions: seq<Action>, id: nat, t: Task, tiers: set<nat>)
    requires Mutates(t) && id < |s.tasks| && Over(s.tasks[id]) && CellsAs(cfg, t, s, tiers)
    requires Run(cfg, s, actions).Some? && Untouched(cfg, s, actions, id, t.name.Ck())
    ensures CellsAs(cfg, t, Run(cfg, s, actions).value, tiers)
    decreases |actions|
  {
    if actions == [] {
    } else {
      var s' := Next(cfg, s, actions[0]).value;
      if actions[0].Step? && actions[0].id == id {
        OverKeeps(cfg, s, actions[0], id);
        assert SameCells(s, s', t.name.Ck());
      } else {
        OthersKeep(cfg, s, actions[0], id);
      }
      SameCellsAs(cfg, t, s, s', tiers);
      OverLeaves(cfg, s', actions[1..], id, t, tiers);
    }
  }

  lemma SamePart(cfg: Config, t: Task, u: Task, share: Share)
    requires Mutates(t) && Mutates(u) && SameWork(t, u) && DoesItsPart(cfg, u, share)
    ensures DoesItsPart(cfg, t, share) && (Accepted(cfg, t, share) <==> Accepted(cfg, u, share))
  {
  }

  lemma FirstAndLater(cfg: Config, t: Task, share: Share, later: seq<Share>)
    requires Mutates(t) && AllAccepted(cfg, t, [share] + later)
    ensures Accepted(cfg, t, share) && AllAccepted(cfg, t, later)
  {
    var all := [share] + later;
    assert Accepted(cfg, t, all[0]);
    forall i | 0 <= i < |later| ensures Accepted(cfg, t, later[i]) {
      assert Accepted(cfg, t, all[i + 1]);
    }
  }

  lemma OneTierDone(tiers: set<nat>, left: set<nat>, tier: nat)
    requires tier in left
    ensures tiers + {tier} + (left - {tier}) == tiers + left
  {
  }

  /** Only a backfill ends with a share: its last. */
  lemma LastTier(t: Task, tier: nat)
    requires t.Filling? && t.tier == tier && t.tier + 1 == t.upTo
    ensures Left(t) == {tier}
  {
  }

  lemma {:induction false} WorkFrom(cfg: Config, s: Sys, actions: seq<Action>, id: nat, t: Task, tiers: set<nat>)
    requires |s.tiers| == |cfg.modes| && id < |s.tasks| && Mutates(s.tasks[id]) && Mutates(t)
      && SameWork(t, s.tasks[id])
    requires CellsAs(cfg, t, s, tiers) && Run(cfg, s, actions).Some? && id < |Run(cfg, s, actions).value.tasks|
    requires !Mutates(Run(cfg, s, actions).value.tasks[id]) && Untouched(cfg, s, actions, id, t.name.Ck())
    requires AllAccepted(cfg, t, Shares(cfg, s, actions, id))
    ensures CellsAs(cfg, t, Run(cfg, s, actions).value, tiers + Left(s.tasks[id]))
    decreases |actions|, 1
  {
    var a, u := actions[0], s.tasks[id];
    var s', rest := Next(cfg, s, a).value, actions[1..];
    RunTiers(cfg, s, [a]);
    RunOne(cfg, s, a);
    if !(a.Step? && a.id == id) {
      OthersKeep(cfg, s, a, id);
      SameCellsAs(cfg, t, s, s', tiers);
      WorkFrom(cfg, s', rest, id, t, tiers);
    } else if a.choice.Tier? {
      ShareStep(cfg, s, a, id);
      var share := Share(a.choice.tier, a.choice.ok, s, s');
      WorkFromShare(cfg, s, actions, id, t, tiers, share);
    } else {
      EndStep(cfg, s, a, id);
      assert s'.tiers == s.tiers && SameCells(s, s', t.name.Ck());
      SameCellsAs(cfg, t, s, s', tiers);
      OverLeaves(cfg, s', rest, id, t, tiers);
      assert tiers + Left(u) == tiers;
    }
  }

  lemma {:induction false} WorkFromShare(cfg: Config, s: Sys, actions: seq<Action>, id: nat, t: Task, tiers: set<nat>,
      share: Share)
    requires |s.tiers| == |cfg.modes| && id < |s.tasks| && Mutates(s.tasks[id]) && Mutates(t)
      && SameWork(t, s.tasks[id])
    requires CellsAs(cfg, t, s, tiers) && Run(cfg, s, actions).Some? && id < |Run(cfg, s, actions).value.tasks|
    requires !Mutates(Run(cfg, s, actions).value.tasks[id]) && Untouched(cfg, s, actions, id, t.name.Ck())
    requires AllAccepted(cfg, t, Shares(cfg, s, actions, id))
    requires actions != [] && Next(cfg, s, actions[0]).Some? && IsShare(s, actions[0], id)
    requires share == Share(actions[0].choice.tier, actions[0].choice.ok, s, Next(cfg, s, actions[0]).value)
    ensures CellsAs(cfg, t, Run(cfg, s, actions).value, tiers + Left(s.tasks[id]))
    decreases |actions|, 0
  {
    var s', rest, u := share.after, actions[1..], s.tasks[id];
    ShareStep(cfg, s, actions[0], id);
    SamePart(cfg, t, u, share);
    FirstAndLater(cfg, t, share, Shares(cfg, s', rest, id));
    ShareCellsAs(cfg, t, share, tiers);
    if Mutates(s'.tasks[id]) {
      OneLessLeft(u, s'.tasks[id], share.tier, true);
      WorkFrom(cfg, s', rest, id, t, tiers + {share.tier});
      OneTierDone(tiers, Left(u), share.tier);
    } else {
      OverLeaves(cfg, s', rest, id, t, tiers + {share.tier});
      LastTier(u, share.tier);
    }
  }

  /** If every share is accepted, and nothing else touches the key meanwhile, then when the work is over every tier it
      had left is as the work should leave it. */
  lemma WorkLeaves(cfg: Config, s: Sys, actions: seq<Action>, id: nat)
    requires |s.tiers| == |cfg.modes| && id < |s.tasks| && Mutates(s.tasks[id])
    requires Run(cfg, s, actions).Some? && id < |Run(cfg, s, actions).value.tasks|
    requires !Mutates(Run(cfg, s, actions).value.tasks[id])
    requires Untouched(cfg, s, actions, id, s.tasks[id].name.Ck())
    requires AllAccepted(cfg, s.tasks[id], Shares(cfg, s, actions, id))
    ensures CellsAs(cfg, s.tasks[id], Run(cfg, s, actions).value, Left(s.tasks[id]))
  {
    WorkFrom(cfg, s, actions, id, s.tasks[id], {});
    assert {} + Left(s.tasks[id]) == Left(s.tasks[id]);
  }

  /** So a backfill left alone, with every tier accepting, ends with its entry in every tier it had still to fill. */
  lemma BackfillFills(cfg: Config, s: Sys, actions: seq<Action>, id: nat, entry: Entry)
    requires cfg.codec.RoundTrips() && |s.tiers| == |cfg.modes| && id < |s.tasks|
    requires s.tasks[id].Filling? && InTiers(|cfg.modes|, s.tasks[id])
      && Represents(cfg.codec, s.tasks[id].stored, entry)
    requires Run(cfg, s, actions).Some? && id < |Run(cfg, s, actions).value.tasks|
    requires Run(cfg, s, actions).value.tasks[id].Done?
    requires Untouched(cfg, s, actions, id, s.tasks[id].name.Ck())
    requires AllAccepted(cfg, s.tasks[id], Shares(cfg, s, actions, id))
    ensures forall i :: s.tasks[id].tier <= i < s.tasks[id].upTo ==>
      var s', ck := Run(cfg, s, actions).value, s.tasks[id].name.Ck();
      i < |s'.tiers| && ck in s'.tiers[i] && Represents(cfg.codec, s'.tiers[i][ck], entry)
  {
    var t, s' := s.tasks[id], Run(cfg, s, actions).value;
    WorkLeaves(cfg, s, actions, id);
    RunTiers(cfg, s, actions);
    forall i | t.tier <= i < t.upTo
      ensures i < |s'.tiers| && t.name.Ck() in s'.tiers[i]
      ensures Represents(cfg.codec, s'.tiers[i][t.name.Ck()], entry)
    {
      assert CellAs(cfg, t, s', i);
      ConvertedRepresents(cfg.codec, t.stored, entry, cfg.modes[i]);
    }
  }
}
