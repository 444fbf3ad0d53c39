/** A value the codec refuses, on a tree of stores: exactly when the tree differs from its flat form. */
module TieredRefusals {
  import opened Wrappers
  import opened Entries
  import opened TieredStores
  import opened TieredFlattening

  /** A typed entry that cannot be serialized. */
  predicate Refused(codec: Codec, stored: StoredEntry) {
    stored.Typed? && ToSerialized(codec, stored) == Err(SerializationError)
  }

  ghost predicate NothingDropped(env: Env) {
    forall id, m :: env.dropped(id, m) == {}
  }

  predicate IsMemory(w: World, id: nat) {
    id < |w| && w[id].MemoryLeaf?
  }

  // ---------------------------------------------------------------- modes

  predicate SameKinds(w1: World, w2: World) {
    |w1| == |w2| && forall i :: 0 <= i < |w1| ==> (w1[i].MemoryLeaf? <==> w2[i].MemoryLeaf?)
  }

  lemma {:induction false} ModeByKinds(w1: World, w2: World, store: Store)
    requires SameKinds(w1, w2)
    ensures Mode(w1, store) == Mode(w2, store)
  {
    if store.Tiered? && store.tiers != [] {
      ModeByKinds(w1, w2, store.tiers[0]);
    }
  }

  /** The leaves that a refused entry gets to: a sub-store of serialized mode keeps it from all of its leaves. */
  function Reached(w: World, store: Store): seq<nat>
    decreases store, 1
  {
    if Mode(w, store).SerializedMode? then [] else
    match store
    case LeafStore(id) => [id]
    case Tiered(tiers) => ReachedOf(w, tiers)
  }

  function ReachedOf(w: World, tiers: seq<Store>): seq<nat>
    decreases tiers, 0
  {
    if tiers == [] then [] else Reached(w, tiers[0]) + ReachedOf(w, tiers[1..])
  }

  /** Neither the store nor any store nested in it is of serialized mode. */
  predicate AllTyped(w: World, store: Store)
    decreases store, 1
  {
    Mode(w, store).TypedMode? && (store.Tiered? ==> AllTypedOf(w, store.tiers))
  }

  predicate AllTypedOf(w: World, tiers: seq<Store>)
    decreases tiers, 0
  {
    tiers != [] ==> AllTyped(w, tiers[0]) && AllTypedOf(w, tiers[1..])
  }

  lemma {:induction false} ReachedByKinds(w1: World, w2: World, store: Store)
    requires SameKinds(w1, w2)
    ensures Reached(w1, store) == Reached(w2, store) && (AllTyped(w1, store) <==> AllTyped(w2, store))
    decreases store, 1
  {
    ModeByKinds(w1, w2, store);
    if store.Tiered? {
      ReachedOfByKinds(w1, w2, store.tiers);
    }
  }

  lemma {:induction false} ReachedOfByKinds(w1: World, w2: World, tiers: seq<Store>)
    requires SameKinds(w1, w2)
    ensures ReachedOf(w1, tiers) == ReachedOf(w2, tiers) && (AllTypedOf(w1, tiers) <==> AllTypedOf(w2, tiers))
    decreases tiers, 0
  {
    if tiers == [] {
    } else {
      ReachedByKinds(w1, w2, tiers[0]);
      ReachedOfByKinds(w1, w2, tiers[1..]);
    }
  }

  // ---------------------------------------------------------------- a set of a refused entry

  /** `stored` under `ck` in the memory leaves among `ids`. */
  function Written(w: World, ids: seq<nat>, ck: string, stored: StoredEntry): World {
    seq(|w|, i requires 0 <= i < |w| =>
      if i in ids && w[i].MemoryLeaf? then MemoryLeaf(w[i].state[ck := stored]) else w[i])
  }

  lemma WrittenTwice(w: World, xs: seq<nat>, ys: seq<nat>, ck: string, stored: StoredEntry)
    ensures SameKinds(w, Written(w, xs, ck, stored))
    ensures Written(Written(w, xs, ck, stored), ys, ck, stored) == Written(w, xs + ys, ck, stored)
  {
    var w1 := Written(w, xs, ck, stored);
    assert forall i :: i in xs + ys <==> i in xs || i in ys;
    forall i | 0 <= i < |w|
      ensures Written(w1, ys, ck, stored)[i] == Written(w, xs + ys, ck, stored)[i]
    {
      assert w1[i].MemoryLeaf? ==> w1[i].state[ck := stored] == w[i].state[ck := stored];
    }
  }

  function Outcome(allTyped: bool): Result<(), CacheError> {
    if allTyped then Ok(()) else Err(SerializationError)
  }

  /** Exactly the reached leaves take it, and the set fails unless every nested store is of typed mode. */
  lemma {:induction false} RefusedTier(codec: Codec, tier: Store, w: World, ck: string, stored: StoredEntry, env: Env)
    requires Refused(codec, stored) && NothingDropped(env)
    ensures SetTier(codec, tier, w, ck, stored, env)
         == (Outcome(AllTyped(w, tier)), Written(w, Reached(w, tier), ck, stored))
    decreases tier, 1
  {
    if Mode(w, tier).SerializedMode? {
      assert Written(w, [], ck, stored) == w;
    } else {
      match tier
      case LeafStore(id) =>
        var inserted := w[id].state[ck := stored];
        assert inserted - env.dropped(id, Expiries(inserted)) == inserted;
        assert Written(w, [id], ck, stored) == w[id := MemoryLeaf(inserted)];
      case Tiered(tiers) => RefusedTiers(codec, tiers, w, ck, stored, env);
    }
  }

  lemma {:induction false} RefusedTiers(codec: Codec, tiers: seq<Store>, w: World, ck: string, stored: StoredEntry,
      env: Env)
    requires Refused(codec, stored) && NothingDropped(env)
    ensures SetAll(codec, tiers, w, ck, stored, env)
         == (Outcome(AllTypedOf(w, tiers)), Written(w, ReachedOf(w, tiers), ck, stored))
    decreases tiers, 0
  {
    if tiers == [] {
      assert Written(w, [], ck, stored) == w;
    } else {
      var xs := Reached(w, tiers[0]);
      var w1 := Written(w, xs, ck, stored);
      RefusedTier(codec, tiers[0], w, ck, stored, env);
      WrittenTwice(w, xs, ReachedOf(w, tiers[1..]), ck, stored);
      ReachedOfByKinds(w, w1, tiers[1..]);
      RefusedTiers(codec, tiers[1..], w1, ck, stored, env);
    }
  }

  /** What a cache's `set` of a refused value does to a stack. */
  lemma RefusedSet(codec: Codec, store: Store, w: World, ck: string, entry: Entry, env: Env)
    requires codec.encode(entry).None? && NothingDropped(env)
    ensures var stored := FromTypedWithSerializer(entry.value, entry.freshUntil, entry.staleUntil);
      Apply(codec, store, w, SetOp(ck, entry, env))
      == (if AllTyped(w, store) then Ok(None) else Err(SerializationError), Written(w, Reached(w, store), ck, stored))
  {
    var stored := FromTypedWithSerializer(entry.value, entry.freshUntil, entry.staleUntil);
    RefusedTier(codec, store, w, ck, stored, env);
    assert Written(w, [], ck, stored) == w;
  }

  // ---------------------------------------------------------------- what the tree keeps from its leaves

  predicate HasMemory(w: World, ids: seq<nat>) {
    exists id :: id in ids && IsMemory(w, id)
  }

  /** The store, or some store nested in it, is of serialized mode and yet has a memory leaf. */
  predicate HidesMemory(w: World, store: Store)
    decreases store, 1
  {
    || (Mode(w, store).SerializedMode? && HasMemory(w, Leaves(store)))
    || (store.Tiered? && HidesMemoryOf(w, store.tiers))
  }

  predicate HidesMemoryOf(w: World, tiers: seq<Store>)
    decreases tiers, 0
  {
    tiers != [] && (HidesMemory(w, tiers[0]) || HidesMemoryOf(w, tiers[1..]))
  }

  /** A memory leaf of the list that a refused entry does not get to. */
  ghost predicate Misses(w: World, ids: seq<nat>, reached: seq<nat>) {
    exists id :: id in ids && IsMemory(w, id) && id !in reached
  }

  lemma MissesApart(w: World, xs: seq<nat>, ys: seq<nat>, rx: seq<nat>, ry: seq<nat>)
    requires forall x :: x in xs ==> x !in ys
    requires (forall x :: x in rx ==> x in xs) && (forall y :: y in ry ==> y in ys)
    ensures Misses(w, xs + ys, rx + ry) <==> Misses(w, xs, rx) || Misses(w, ys, ry)
  {
    assert forall id :: id in xs + ys <==> id in xs || id in ys;
    assert forall id :: id in rx + ry <==> id in rx || id in ry;
  }

  lemma {:induction false} HidesExactly(w: World, store: Store)
    requires Distinct(Leaves(store))
    ensures forall id :: id in Reached(w, store) ==> id in Leaves(store)
    ensures Misses(w, Leaves(store), Reached(w, store)) <==> HidesMemory(w, store)
    decreases store, 1
  {
    if store.Tiered? {
      HidesOfExactly(w, store.tiers);
    }
  }

  lemma {:induction false} HidesOfExactly(w: World, tiers: seq<Store>)
    requires Distinct(LeavesOf(tiers))
    ensures forall id :: id in ReachedOf(w, tiers) ==> id in LeavesOf(tiers)
    ensures Misses(w, LeavesOf(tiers), ReachedOf(w, tiers)) <==> HidesMemoryOf(w, tiers)
    decreases tiers, 0
  {
    if tiers == [] {
    } else {
      var xs, ys := Leaves(tiers[0]), LeavesOf(tiers[1..]);
      DistinctParts(xs, ys);
      HidesExactly(w, tiers[0]);
      HidesOfExactly(w, tiers[1..]);
      MissesApart(w, xs, ys, Reached(w, tiers[0]), ReachedOf(w, tiers[1..]));
    }
  }

  // ---------------------------------------------------------------- empty stores

  /** The store is, or holds somewhere, a tiered store without tiers. */
  predicate HasEmpty(store: Store)
    decreases store, 1
  {
    store.Tiered? && (store.tiers == [] || HasEmptyOf(store.tiers))
  }

  predicate HasEmptyOf(tiers: seq<Store>)
    decreases tiers, 0
  {
    tiers != [] && (HasEmpty(tiers[0]) || HasEmptyOf(tiers[1..]))
  }

  ghost predicate AllMemory(w: World, ids: seq<nat>) {
    forall id :: id in ids ==> IsMemory(w, id)
  }

  lemma {:induction false} TypedExactly(w: World, store: Store)
    ensures AllTyped(w, store) <==> AllMemory(w, Leaves(store)) && !HasEmpty(store)
    decreases store, 1
  {
    match store
    case LeafStore(id) => assert id in Leaves(store);
    case Tiered(tiers) => TypedOfExactly(w, tiers);
  }

  lemma {:induction false} TypedOfExactly(w: World, tiers: seq<Store>)
    ensures AllTypedOf(w, tiers) <==> AllMemory(w, LeavesOf(tiers)) && !HasEmptyOf(tiers)
    decreases tiers, 0
  {
    if tiers == [] {
    } else {
      TypedExactly(w, tiers[0]);
      TypedOfExactly(w, tiers[1..]);
      assert forall id :: id in LeavesOf(tiers) <==> id in Leaves(tiers[0]) || id in LeavesOf(tiers[1..]);
    }
  }

  // ---------------------------------------------------------------- the tree and its flat form

  /** A leaf that takes a refused entry shows it: a sound leaf held no such entry before. */
  lemma WrittenLeafDiffers(codec: Codec, leaf: Leaf, ck: string, entry: Entry)
    requires codec.RoundTrips() && SoundLeaf(codec, leaf) && leaf.MemoryLeaf? && codec.encode(entry).None?
    ensures var stored := FromTypedWithSerializer(entry.value, entry.freshUntil, entry.staleUntil);
      ViewLeaf(codec, MemoryLeaf(leaf.state[ck := stored])) != ViewLeaf(codec, leaf)
  {
    var stored := FromTypedWithSerializer(entry.value, entry.freshUntil, entry.staleUntil);
    var after := ViewLeaf(codec, MemoryLeaf(leaf.state[ck := stored]));
    assert ck in after.cells && after.cells[ck].entry == entry;
    if ck in leaf.state {
      assert Sound(codec, leaf.state[ck]);
    }
  }

  /** Two groups of leaves show different contents after the write if and only if they differ in a memory leaf. */
  lemma ViewsDiffer(codec: Codec, w: World, xs: seq<nat>, ys: seq<nat>, ck: string, entry: Entry)
    requires SoundWorld(codec, w) && codec.encode(entry).None?
    requires forall y :: y in ys ==> y in xs
    ensures var stored := FromTypedWithSerializer(entry.value, entry.freshUntil, entry.staleUntil);
      View(codec, Written(w, xs, ck, stored)) != View(codec, Written(w, ys, ck, stored)) <==> Misses(w, xs, ys)
  {
    var stored := FromTypedWithSerializer(entry.value, entry.freshUntil, entry.staleUntil);
    var wx, wy := Written(w, xs, ck, stored), Written(w, ys, ck, stored);
    if Misses(w, xs, ys) {
      var id :| id in xs && IsMemory(w, id) && id !in ys;
      WrittenLeafDiffers(codec, w[id], ck, entry);
      assert View(codec, wx)[id] != View(codec, wy)[id];
    } else {
      forall i | 0 <= i < |w| ensures wx[i] == wy[i] {
        assert IsMemory(w, i) && i in xs ==> i in ys;
      }
      assert wx == wy;
    }
  }

  /** In a flat store every leaf is its own sub-store. */
  lemma {:induction false} FlatReaches(w: World, tiers: seq<Store>, id: nat)
    requires forall i :: 0 <= i < |tiers| ==> tiers[i].LeafStore?
    ensures id in ReachedOf(w, tiers) <==> id in LeavesOf(tiers) && IsMemory(w, id)
    decreases |tiers|
  {
    if tiers == [] {
    } else {
      var first := tiers[0].id;
      assert Leaves(tiers[0]) == [first];
      assert Reached(w, tiers[0]) == if IsMemory(w, first) then [first] else [];
      FlatReaches(w, tiers[1..], id);
      assert id in LeavesOf(tiers) <==> id == first || id in LeavesOf(tiers[1..]);
      assert id in ReachedOf(w, tiers) <==> (id == first && IsMemory(w, first)) || id in ReachedOf(w, tiers[1..]);
    }
  }

  lemma {:induction false} FlatHasNoEmpty(tiers: seq<Store>)
    requires forall i :: 0 <= i < |tiers| ==> tiers[i].LeafStore?
    ensures !HasEmptyOf(tiers)
    decreases |tiers|
  {
    if tiers == [] {
    } else {
      assert tiers[0].LeafStore?;
      FlatHasNoEmpty(tiers[1..]);
    }
  }

  /** The first leaf is in memory. */
  predicate OpensInMemory(w: World, ids: seq<nat>) {
    ids != [] && IsMemory(w, ids[0])
  }

  lemma FlatReachesMemory(w: World, ids: seq<nat>, id: nat)
    ensures id in Reached(w, Flat(ids)) <==> OpensInMemory(w, ids) && id in ids && IsMemory(w, id)
    ensures AllTyped(w, Flat(ids)) <==> ids != [] && forall id :: id in ids ==> IsMemory(w, id)
  {
    LeavesOfFlat(ids);
    FlatReaches(w, Flat(ids).tiers, id);
    FlatHasNoEmpty(Flat(ids).tiers);
    TypedExactly(w, Flat(ids));
    if ids != [] {
      assert Flat(ids).tiers[0] == LeafStore(ids[0]);
    }
  }

  /** A store of typed mode opens in memory, and so does its flat form. */
  lemma {:induction false} TypedOpensInMemory(w: World, store: Store)
    requires Mode(w, store).TypedMode?
    ensures OpensInMemory(w, Leaves(store))
  {
    if store.Tiered? {
      TypedOpensInMemory(w, store.tiers[0]);
    }
  }

  lemma TreeReachesNoMore(w: World, store: Store, id: nat)
    requires Distinct(Leaves(store)) && id in Reached(w, store)
    ensures id in Leaves(store) && OpensInMemory(w, Leaves(store))
  {
    HidesExactly(w, store);
    TypedOpensInMemory(w, store);
  }

  /** After a `set` of a value that does not serialize, with nothing dropped, a tree and its flat form hold different
      contents if and only if the first leaf is in memory and some sub-store of serialized mode has a memory
      leaf. (A stack of typed mode always opens in memory; its sub-stores in question are proper ones.) */
  lemma RefusedContentsExactly(codec: Codec, store: Store, w: World, ck: string, entry: Entry, env: Env)
    requires SoundWorld(codec, w) && Distinct(Leaves(store)) && Within(Leaves(store), |w|)
    requires codec.encode(entry).None? && NothingDropped(env)
    ensures var op := SetOp(ck, entry, env);
      View(codec, Apply(codec, store, w, op).1) != View(codec, Apply(codec, Flat(Leaves(store)), w, op).1)
      <==> OpensInMemory(w, Leaves(store)) && HidesMemory(w, store)
    ensures Mode(w, store).TypedMode? ==> OpensInMemory(w, Leaves(store))
  {
    var ids := Leaves(store);
    var xs, ys := Reached(w, Flat(ids)), Reached(w, store);
    RefusedSet(codec, store, w, ck, entry, env);
    RefusedSet(codec, Flat(ids), w, ck, entry, env);
    HidesExactly(w, store);
    forall id ensures id in xs <==> OpensInMemory(w, ids) && id in ids && IsMemory(w, id) {
      FlatReachesMemory(w, ids, id);
    }
    forall y | y in ys ensures y in xs {
      TreeReachesNoMore(w, store, y);
      ReachesMemory(w, store, y);
    }
    ViewsDiffer(codec, w, xs, ys, ck, entry);
    assert Misses(w, xs, ys) <==> OpensInMemory(w, ids) && Misses(w, ids, ys);
    if Mode(w, store).TypedMode? {
      TypedOpensInMemory(w, store);
    }
  }

  lemma {:induction false} ReachesMemory(w: World, store: Store, id: nat)
    requires id in Reached(w, store)
    ensures IsMemory(w, id)
    decreases store, 1
  {
    if store.Tiered? {
      ReachesMemoryOf(w, store.tiers, id);
    }
  }

  lemma {:induction false} ReachesMemoryOf(w: World, tiers: seq<Store>, id: nat)
    requires id in ReachedOf(w, tiers)
    ensures IsMemory(w, id)
    decreases tiers, 0
  {
    if id in Reached(w, tiers[0]) {
      ReachesMemory(w, tiers[0], id);
    } else {
      ReachesMemoryOf(w, tiers[1..], id);
    }
  }

  // ---------------------------------------------------------------- replies

  /** The replies differ if and only if every leaf is in memory, there is one, and some nested store is empty: its mode
      is the serialized one, so the tree refuses what all of its leaves would take. */
  lemma RefusedRepliesExactly(codec: Codec, store: Store, w: World, ck: string, entry: Entry, env: Env)
    requires codec.encode(entry).None? && NothingDropped(env)
    ensures var op := SetOp(ck, entry, env);
      Apply(codec, store, w, op).0 != Apply(codec, Flat(Leaves(store)), w, op).0
      <==> Leaves(store) != [] && AllMemory(w, Leaves(store)) && HasEmpty(store)
  {
    RefusedSet(codec, store, w, ck, entry, env);
    RefusedSet(codec, Flat(Leaves(store)), w, ck, entry, env);
    TypedExactly(w, store);
    FlatReachesMemory(w, Leaves(store), 0);
    if AllTyped(w, store) {
      TypedOpensInMemory(w, store);
    }
  }

  // ---------------------------------------------------------------- an example

  const THREE_LEAVES: World := [MemoryLeaf(map[]), RedisLeaf(map[], false), MemoryLeaf(map[])]

  const NESTED_THREE := Tiered([LeafStore(0), Tiered([LeafStore(1), LeafStore(2)])])

  /** Where a nested store opens with Redis, a refused conversion keeps the entry from the memory leaf behind it,
      which the flat store does write. */
  lemma FlatteningNeedsSerialization(codec: Codec, ck: string, entry: Entry, env: Env)
    requires codec.RoundTrips() && codec.encode(entry).None? && NothingDropped(env)
    ensures View(codec, Apply(codec, NESTED_THREE, THREE_LEAVES, SetOp(ck, entry, env)).1)
         != View(codec, Apply(codec, Flat(Leaves(NESTED_THREE)), THREE_LEAVES, SetOp(ck, entry, env)).1)
  {
    var nested := Tiered([LeafStore(1), LeafStore(2)]);
    assert nested.tiers[1..] == [LeafStore(2)] && [LeafStore(2)][1..] == [];
    assert NESTED_THREE.tiers[1..] == [nested] && [nested][1..] == [];
    assert Leaves(nested) == [1] + ([2] + []) == [1, 2];
    assert Leaves(NESTED_THREE) == [0] + (Leaves(nested) + []) == [0, 1, 2];
    assert IsMemory(THREE_LEAVES, 2) && 2 in Leaves(nested) && Mode(THREE_LEAVES, nested) == SerializedMode;
    assert HidesMemory(THREE_LEAVES, nested) && HidesMemoryOf(THREE_LEAVES, [nested]);
    RefusedContentsExactly(codec, NESTED_THREE, THREE_LEAVES, ck, entry, env);
  }
}
