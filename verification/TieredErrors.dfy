/** What a stack reports when tiers fail: every tier is attempted, and the first error is the one that is told. */
module TieredErrors {
  import opened Wrappers
  import opened Entries
  import opened TieredStores

  type Outcome = Result<(), CacheError>

  /** What each tier answers to a `set` when all of them are attempted one after the other, and what that leaves. */
  function SetAttempts(codec: Codec, tiers: seq<Store>, w: World, ck: string, stored: StoredEntry, env: Env):
      (seq<Outcome>, World)
    decreases |tiers|
  {
    if tiers == [] then ([], w) else
    var (first, w1) := SetTier(codec, tiers[0], w, ck, stored, env);
    var (rest, w2) := SetAttempts(codec, tiers[1..], w1, ck, stored, env);
    ([first] + rest, w2)
  }

  function RemoveAttempts(tiers: seq<Store>, w: World, ck: string, env: Env): (seq<Outcome>, World)
    decreases |tiers|
  {
    if tiers == [] then ([], w) else
    var (first, w1) := Remove(tiers[0], w, ck, env);
    var (rest, w2) := RemoveAttempts(tiers[1..], w1, ck, env);
    ([first] + rest, w2)
  }

  predicate NoError(outcomes: seq<Outcome>) {
    forall i :: 0 <= i < |outcomes| ==> outcomes[i].Ok?
  }

  /** `done` is Ok if no tier failed, and otherwise the error of the first that did. */
  ghost predicate FirstError(done: Outcome, outcomes: seq<Outcome>) {
    && (done.Ok? <==> NoError(outcomes))
    && (done.Err? ==> exists i :: 0 <= i < |outcomes| && outcomes[i] == done && NoError(outcomes[..i]))
  }

  lemma NoErrorBefore(first: Outcome, outcomes: seq<Outcome>)
    ensures NoError([first] + outcomes) <==> first.Ok? && NoError(outcomes)
  {
    var all := [first] + outcomes;
    assert all[0] == first && forall i :: 0 <= i < |outcomes| ==> all[i + 1] == outcomes[i];
    if NoError(all) {
      forall i | 0 <= i < |outcomes| ensures outcomes[i].Ok? {
        assert all[i + 1].Ok?;
      }
    }
  }

  lemma FirstErrorBefore(first: Outcome, rest: Outcome, outcomes: seq<Outcome>)
    requires FirstError(rest, outcomes)
    ensures FirstError(if first.Err? then first else rest, [first] + outcomes)
  {
    var all := [first] + outcomes;
    NoErrorBefore(first, outcomes);
    if first.Err? {
      assert all[0] == first && NoError(all[..0]);
    } else if rest.Err? {
      var i :| 0 <= i < |outcomes| && outcomes[i] == rest && NoError(outcomes[..i]);
      NoErrorBefore(first, outcomes[..i]);
      assert all[..i + 1] == [first] + outcomes[..i] && all[i + 1] == rest;
    }
  }

  /** A `set` attempts every tier, whatever the others answered, and reports the first error. */
  lemma {:induction false} SetReportsFirst(codec: Codec, tiers: seq<Store>, w: World, ck: string, stored: StoredEntry,
      env: Env)
    ensures var (done, after) := SetAll(codec, tiers, w, ck, stored, env);
      var (outcomes, attempted) := SetAttempts(codec, tiers, w, ck, stored, env);
      after == attempted && |outcomes| == |tiers| && FirstError(done, outcomes)
    decreases |tiers|
  {
    if tiers == [] {
    } else {
      var (first, w1) := SetTier(codec, tiers[0], w, ck, stored, env);
      SetReportsFirst(codec, tiers[1..], w1, ck, stored, env);
      FirstErrorBefore(first, SetAll(codec, tiers[1..], w1, ck, stored, env).0,
        SetAttempts(codec, tiers[1..], w1, ck, stored, env).0);
    }
  }

  /** So does a `remove`. */
  lemma {:induction false} RemoveReportsFirst(tiers: seq<Store>, w: World, ck: string, env: Env)
    ensures var (done, after) := RemoveAll(tiers, w, ck, env);
      var (outcomes, attempted) := RemoveAttempts(tiers, w, ck, env);
      after == attempted && |outcomes| == |tiers| && FirstError(done, outcomes)
    decreases |tiers|
  {
    if tiers == [] {
    } else {
      var (first, w1) := Remove(tiers[0], w, ck, env);
      RemoveReportsFirst(tiers[1..], w1, ck, env);
      FirstErrorBefore(first, RemoveAll(tiers[1..], w1, ck, env).0, RemoveAttempts(tiers[1..], w1, ck, env).0);
    }
  }
}
