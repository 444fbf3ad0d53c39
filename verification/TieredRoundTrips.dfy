/** What a stack gives back: the entry that was set, and nothing once it is removed. */
module TieredRoundTrips {
  import opened Wrappers
  import opened Entries
  import opened TieredStores
  import opened TieredFlattening

  /** No leaf of the list holds `ck`. */
  ghost predicate NoneHolds(ids: seq<nat>, tw: seq<TypedLeaf>, ck: string) {
    forall id :: id in ids ==> id < |tw| && ck !in tw[id].cells
  }

  lemma {:induction false} ReadMisses(ids: seq<nat>, tw: seq<TypedLeaf>, ck: string, env: Env)
    requires AllAccept(ids, tw, env) && NoneHolds(ids, tw, ck)
    ensures ReadFlat(ids, tw, ck, env) == (Missed, tw)
    decreases |ids|
  {
    if ids == [] {
    } else {
      assert ids[0] in ids && TypedGet(tw[ids[0]], ids[0], ck, env) == (Ok(None), tw[ids[0]]);
      assert tw[ids[0] := tw[ids[0]]] == tw;
      assert forall id :: id in ids[1..] ==> id in ids;
      ReadMisses(ids[1..], tw, ck, env);
    }
  }

  /** A `get` right after a `set` that every leaf took, with nothing evicted, answers the entry that was set,
      through any tree and any mix of storage modes, and changes nothing. */
  lemma SetThenGet(codec: Codec, store: Store, w: World, ck: string, entry: Entry, env: Env)
    requires SoundWorld(codec, w) && Distinct(Leaves(store)) && Within(Leaves(store), |w|) && Leaves(store) != []
    requires Roomy(Leaves(store), View(codec, w), env) && codec.encode(entry).Some? && !entry.IsExpired(env.now)
    ensures var (done, w1) := Apply(codec, store, w, SetOp(ck, entry, env));
      var (reply, w2) := Apply(codec, store, w1, GetOp(ck, env));
      done == Ok(None) && reply == Ok(Some(entry)) && View(codec, w2) == View(codec, w1)
  {
    var ids, tw := Leaves(store), View(codec, w);
    var w1 := Apply(codec, store, w, SetOp(ck, entry, env)).1;
    ApplyRefines(codec, store, w, SetOp(ck, entry, env));
    ApplyRefines(codec, store, w1, GetOp(ck, env));
    assert ids[0] in ids;
    FilledLeafAnswers(tw[ids[0]], ids[0], ck, entry, env);
    ReadFirst(ids, View(codec, w1), ck, entry, env);
    assert [] + ids[..0] == [];
    FillNone(View(codec, w1), ck, entry, env);
  }

  lemma RemovedNoneHolds(ids: seq<nat>, tw: seq<TypedLeaf>, ck: string, env: Env)
    requires AllAccept(ids, tw, env)
    ensures NoneHolds(ids, RemoveFlat(ids, tw, ck, env).1, ck)
  {
  }

  /** After a `remove` that reached every leaf, no leaf of the tree holds the key, and a `get` at any later time
      that reaches every leaf misses and changes nothing. */
  lemma RemoveThenGet(codec: Codec, store: Store, w: World, ck: string, env: Env, later: Env)
    requires SoundWorld(codec, w) && Distinct(Leaves(store)) && Within(Leaves(store), |w|)
    requires AllAccept(Leaves(store), View(codec, w), env) && AllAccept(Leaves(store), View(codec, w), later)
    ensures var (done, w1) := Apply(codec, store, w, RemoveOp(ck, env));
      var (reply, w2) := Apply(codec, store, w1, GetOp(ck, later));
      && done == Ok(None) && NoneHolds(Leaves(store), View(codec, w1), ck)
      && reply == Ok(None) && View(codec, w2) == View(codec, w1)
  {
    var ids, tw := Leaves(store), View(codec, w);
    var w1 := Apply(codec, store, w, RemoveOp(ck, env)).1;
    ApplyRefines(codec, store, w, RemoveOp(ck, env));
    RemovedNoneHolds(ids, tw, ck, env);
    ApplyRefines(codec, store, w1, GetOp(ck, later));
    ReadMisses(ids, View(codec, w1), ck, later);
  }
}
