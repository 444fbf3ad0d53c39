/** The tiers of the engine cover every store that may lose entries: what an eviction or a deleting read
    leaves can be reached by losing entries one at a time. */
module SwrLossyTiers {
  import opened Wrappers
  import opened SwrProtocol
  import HashMapStores

  function Losses(i: nat, cks: seq<string>): seq<Action> {
    seq(|cks|, k requires 0 <= k < |cks| => Lose(i, cks[k]))
  }

  lemma {:induction false} LossesRun(cfg: Config, s: Sys, i: nat, cks: seq<string>)
    requires i < |s.tiers|
    ensures Run(cfg, s, Losses(i, cks)) == Some(s.(tiers := s.tiers[i := s.tiers[i] - set ck | ck in cks]))
    decreases |cks|
  {
    if cks == [] {
      assert s.tiers[i] - (set ck | ck in cks) == s.tiers[i];
      assert s.tiers[i := s.tiers[i]] == s.tiers;
    } else {
      var s1 := s.(tiers := s.tiers[i := s.tiers[i] - {cks[0]}]);
      LossesRun(cfg, s1, i, cks[1..]);
      assert Losses(i, cks)[1..] == Losses(i, cks[1..]);
      assert (set ck | ck in cks) == {cks[0]} + set ck | ck in cks[1..];
      assert s.tiers[i] - (set ck | ck in cks) == s1.tiers[i] - set ck | ck in cks[1..];
      assert s1.tiers[i := s1.tiers[i] - set ck | ck in cks[1..]] == s.tiers[i := s.tiers[i] - set ck | ck in cks];
    }
  }

  lemma {:induction false} Listing(cks: set<string>) returns (list: seq<string>)
    ensures forall ck :: ck in list <==> ck in cks
    decreases |cks|
  {
    list := [];
    if cks != {} {
      var ck :| ck in cks;
      var rest := Listing(cks - {ck});
      list := [ck] + rest;
    }
  }

  lemma LosesReach(cfg: Config, s: Sys, i: nat, small: Store) returns (actions: seq<Action>)
    requires i < |s.tiers| && HashMapStores.Submap(small, s.tiers[i])
    ensures Run(cfg, s, actions) == Some(s.(tiers := s.tiers[i := small]))
    ensures forall a :: a in actions ==> a.Lose? && a.tier == i
  {
    var cks := Listing(s.tiers[i].Keys - small.Keys);
    assert (set ck | ck in cks) == s.tiers[i].Keys - small.Keys;
    assert s.tiers[i] - (set ck | ck in cks) == small;
    LossesRun(cfg, s, i, cks);
    actions := Losses(i, cks);
  }

  /** A step that writes an in-memory tier, and the eviction that follows it there, is a step of the
      engine followed by losses. */
  lemma EvictionIsLoss(cfg: Config, s: Sys, i: nat, after: Store, now: int, maxItems: nat)
    returns (actions: seq<Action>)
    requires i < |s.tiers| && HashMapStores.Evicted(s.tiers[i], after, now, maxItems)
    ensures Run(cfg, s, actions) == Some(s.(tiers := s.tiers[i := after]))
    ensures forall a :: a in actions ==> a.Lose? && a.tier == i
  {
    HashMapStores.EvictedIsSubmap(s.tiers[i], after, now, maxItems);
    actions := LosesReach(cfg, s, i, after);
  }

  /** So is what a read of an in-memory tier deletes; and what it answers is a hit or a miss of the engine. */
  lemma ReadIsHitOrMissAndLoss(cfg: Config, s: Sys, i: nat, ck: string, now: int) returns (actions: seq<Action>)
    requires i < |s.tiers|
    ensures var (found, after) := HashMapStores.GetSpec(s.tiers[i], ck, now);
      && (found.Some? ==> ck in s.tiers[i] && found.value == s.tiers[i][ck])
      && Run(cfg, s, actions) == Some(s.(tiers := s.tiers[i := after]))
      && forall a :: a in actions ==> a.Lose? && a.tier == i
  {
    actions := LosesReach(cfg, s, i, HashMapStores.GetSpec(s.tiers[i], ck, now).1);
  }
}
