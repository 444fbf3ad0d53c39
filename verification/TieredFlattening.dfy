/** A tree of tiered stores behaves as one flat list of its leaves.

    The reference is `GetFlat`, `SetFlat` and `RemoveFlat`: they work on typed entries, on a list of leaves,
    and know neither trees nor storage modes. Every tree is shown to refine them. */
module TieredFlattening {
  import opened Wrappers
  import opened Entries
  import opened TieredStores

  // ---------------------------------------------------------------- typed leaves

  datatype Kind = Memory | Redis(disableExpiration: bool)

  datatype TypedCell = TypedCell(entry: Entry, deadline: Option<int>)

  datatype TypedLeaf = TypedLeaf(kind: Kind, cells: map<string, TypedCell>)

  type TypedReply = Result<Option<Entry>, CacheError>

  function ViewLeaf(codec: Codec, leaf: Leaf): TypedLeaf {
    match leaf
    case MemoryLeaf(state) =>
      TypedLeaf(Memory, map ck | ck in state && IntoTyped(codec, state[ck]).Ok? ::
        TypedCell(IntoTyped(codec, state[ck]).value, None))
    case RedisLeaf(db, disableExpiration) =>
      TypedLeaf(Redis(disableExpiration),
        map ck | ck in db && codec.decode(db[ck].json).Some? ::
          TypedCell(codec.decode(db[ck].json).value, db[ck].deadline))
  }

  function View(codec: Codec, w: World): seq<TypedLeaf> {
    seq(|w|, i requires 0 <= i < |w| => ViewLeaf(codec, w[i]))
  }

  function TypedOf(codec: Codec, reply: Reply): TypedReply {
    match reply
    case Err(e) => Err(e)
    case Ok(None) => Ok(None)
    case Ok(Some(stored)) =>
      match IntoTyped(codec, stored)
      case Ok(entry) => Ok(Some(entry))
      case Err(e) => Err(e)
  }

  /** A representation the cache builds, of an entry that serializes. */
  ghost predicate Sound(codec: Codec, stored: StoredEntry) {
    exists entry :: Represents(codec, stored, entry) && codec.encode(entry).Some?
  }

  ghost predicate SoundLeaf(codec: Codec, leaf: Leaf) {
    match leaf
    case MemoryLeaf(state) => forall ck :: ck in state ==> Sound(codec, state[ck])
    case RedisLeaf(db, _) => forall ck :: ck in db ==>
      codec.decode(db[ck].json).Some? && codec.encode(codec.decode(db[ck].json).value).Some?
  }

  ghost predicate SoundWorld(codec: Codec, w: World) {
    codec.RoundTrips() && forall i :: 0 <= i < |w| ==> SoundLeaf(codec, w[i])
  }

  // ---------------------------------------------------------------- the flat reference

  function TypedGet(leaf: TypedLeaf, id: nat, ck: string, env: Env): (TypedReply, TypedLeaf) {
    if leaf.kind.Redis? && !env.reachable(id) then (Err(OperationError), leaf)
    else if ck !in leaf.cells then (Ok(None), leaf)
    else
      var cell := leaf.cells[ck];
      if cell.deadline.Some? && env.now >= cell.deadline.value then (Ok(None), leaf)
      else if cell.entry.IsExpired(env.now) && leaf.kind != Redis(true) then
        (Ok(None), TypedLeaf(leaf.kind, leaf.cells - {ck}))
      else (Ok(Some(cell.entry)), leaf)
  }

  predicate Accepts(leaf: TypedLeaf, id: nat, env: Env) {
    leaf.kind.Memory? || env.reachable(id)
  }

  function TypedExpiries(cells: map<string, TypedCell>): map<string, int> {
    map ck | ck in cells :: cells[ck].entry.staleUntil
  }

  function TypedSet(leaf: TypedLeaf, id: nat, ck: string, entry: Entry, env: Env): TypedLeaf {
    if !Accepts(leaf, id, env) then leaf else
    match leaf.kind
    case Memory =>
      var inserted := leaf.cells[ck := TypedCell(entry, None)];
      TypedLeaf(Memory, inserted - env.dropped(id, TypedExpiries(inserted)))
    case Redis(disableExpiration) =>
      var deadline := RedisStores.NewCell("", entry.staleUntil, env.now, env.now, disableExpiration).deadline;
      TypedLeaf(leaf.kind, leaf.cells[ck := TypedCell(entry, deadline)])
  }

  datatype Read = Found(at: nat, entry: Entry) | Missed | Broke(error: CacheError)

  /** Read the leaves in order up to the first hit. */
  function ReadFlat(ids: seq<nat>, tw: seq<TypedLeaf>, ck: string, env: Env): (Read, seq<TypedLeaf>)
    decreases |ids|
  {
    if ids == [] then (Missed, tw)
    else if ids[0] >= |tw| then (Broke(OperationError), tw)
    else
      var (reply, leaf) := TypedGet(tw[ids[0]], ids[0], ck, env);
      var tw1 := tw[ids[0] := leaf];
      match reply
      case Err(e) => (Broke(e), tw1)
      case Ok(Some(entry)) => (Found(0, entry), tw1)
      case Ok(None) =>
        var (read, tw2) := ReadFlat(ids[1..], tw1, ck, env);
        (if read.Found? then Found(read.at + 1, read.entry) else read, tw2)
  }

  function FillFlat(ids: seq<nat>, tw: seq<TypedLeaf>, ck: string, entry: Entry, env: Env): seq<TypedLeaf> {
    seq(|tw|, i requires 0 <= i < |tw| => if i in ids then TypedSet(tw[i], i, ck, entry, env) else tw[i])
  }

  function GetFlat(ids: seq<nat>, tw: seq<TypedLeaf>, ck: string, env: Env): (TypedReply, seq<TypedLeaf>) {
    GetBelow([], ids, tw, ck, env)
  }

  /** `above` missed already and shares in the backfill. */
  function GetBelow(above: seq<nat>, ids: seq<nat>, tw: seq<TypedLeaf>, ck: string, env: Env):
      (TypedReply, seq<TypedLeaf>) {
    match ReadFlat(ids, tw, ck, env)
    case (Missed, tw1) => (Ok(None), tw1)
    case (Broke(e), tw1) => (Err(e), tw1)
    case (Found(at, entry), tw1) =>
      (Ok(Some(entry)), FillFlat(above + (if at <= |ids| then ids[..at] else []), tw1, ck, entry, env))
  }

  predicate AllAccept(ids: seq<nat>, tw: seq<TypedLeaf>, env: Env) {
    forall id :: id in ids ==> id < |tw| && Accepts(tw[id], id, env)
  }

  function SetFlat(ids: seq<nat>, tw: seq<TypedLeaf>, ck: string, entry: Entry, env: Env):
      (Result<(), CacheError>, seq<TypedLeaf>) {
    (if AllAccept(ids, tw, env) then Ok(()) else Err(OperationError), FillFlat(ids, tw, ck, entry, env))
  }

  function RemoveFlat(ids: seq<nat>, tw: seq<TypedLeaf>, ck: string, env: Env):
      (Result<(), CacheError>, seq<TypedLeaf>) {
    (if AllAccept(ids, tw, env) then Ok(()) else Err(OperationError),
     seq(|tw|, i requires 0 <= i < |tw| =>
       if i in ids && Accepts(tw[i], i, env) then TypedLeaf(tw[i].kind, tw[i].cells - {ck}) else tw[i]))
  }

  // ---------------------------------------------------------------- leaves of a tree

  function Leaves(store: Store): seq<nat>
    decreases store, 1
  {
    match store
    case LeafStore(id) => [id]
    case Tiered(tiers) => LeavesOf(tiers)
  }

  function LeavesOf(tiers: seq<Store>): seq<nat>
    decreases tiers, 0
  {
    if tiers == [] then [] else Leaves(tiers[0]) + LeavesOf(tiers[1..])
  }

  ghost predicate Distinct(ids: seq<nat>) {
    forall i, j :: 0 <= i < j < |ids| ==> ids[i] != ids[j]
  }

  lemma DistinctParts(xs: seq<nat>, ys: seq<nat>)
    requires Distinct(xs + ys)
    ensures Distinct(xs) && Distinct(ys) && forall x :: x in xs ==> x !in ys
    ensures forall id :: id in xs + ys <==> id in xs || id in ys
  {
    assert forall i :: 0 <= i < |xs| ==> (xs + ys)[i] == xs[i];
    assert forall j :: 0 <= j < |ys| ==> (xs + ys)[|xs| + j] == ys[j];
  }

  lemma {:induction false} LeavesOfSplit(tiers: seq<Store>, i: nat)
    requires i <= |tiers|
    ensures LeavesOf(tiers) == LeavesOf(tiers[..i]) + LeavesOf(tiers[i..])
    decreases i
  {
    if i == 0 {
      assert tiers[0..] == tiers;
    } else {
      LeavesOfSplit(tiers[1..], i - 1);
      assert tiers[..i][1..] == tiers[1..][..i - 1] && tiers[1..][i - 1..] == tiers[i..];
    }
  }

  // ---------------------------------------------------------------- one leaf refines its typed leaf

  lemma LeafGetRefines(codec: Codec, leaf: Leaf, id: nat, ck: string, env: Env)
    requires codec.RoundTrips() && SoundLeaf(codec, leaf)
    ensures var (reply, after) := LeafGet(codec, leaf, id, ck, env);
      && (TypedOf(codec, reply), ViewLeaf(codec, after)) == TypedGet(ViewLeaf(codec, leaf), id, ck, env)
      && SoundLeaf(codec, after)
      && (reply.Ok? && reply.value.Some? ==> Sound(codec, reply.value.value))
  {
    var (reply, after) := LeafGet(codec, leaf, id, ck, env);
    var view, typed := ViewLeaf(codec, leaf), TypedGet(ViewLeaf(codec, leaf), id, ck, env);
    if leaf.RedisLeaf? && ck in leaf.db && reply.Ok? && reply.value.Some? {
      assert Represents(codec, reply.value.value, codec.decode(leaf.db[ck].json).value);
    }
    assert ViewLeaf(codec, after).cells == typed.1.cells;
  }

  lemma InsertedView(codec: Codec, state: HashMapStores.Contents, ck: string, stored: StoredEntry, entry: Entry)
    requires codec.RoundTrips() && SoundLeaf(codec, MemoryLeaf(state))
    requires Represents(codec, stored, entry) && codec.encode(entry).Some?
    ensures var inserted := state[ck := stored];
      && SoundLeaf(codec, MemoryLeaf(inserted))
      && ViewLeaf(codec, MemoryLeaf(inserted)).cells
        == ViewLeaf(codec, MemoryLeaf(state)).cells[ck := TypedCell(entry, None)]
      && Expiries(inserted) == TypedExpiries(ViewLeaf(codec, MemoryLeaf(inserted)).cells)
  {
  }

  lemma DroppedView(codec: Codec, state: HashMapStores.Contents, dropped: set<string>)
    requires SoundLeaf(codec, MemoryLeaf(state))
    ensures SoundLeaf(codec, MemoryLeaf(state - dropped))
    ensures ViewLeaf(codec, MemoryLeaf(state - dropped)).cells == ViewLeaf(codec, MemoryLeaf(state)).cells - dropped
  {
  }

  lemma MemorySetRefines(codec: Codec, leaf: Leaf, id: nat, ck: string, stored: StoredEntry, entry: Entry, env: Env)
    requires codec.RoundTrips() && SoundLeaf(codec, leaf) && leaf.MemoryLeaf?
    requires Represents(codec, stored, entry) && codec.encode(entry).Some?
    ensures var (done, after) := LeafSet(leaf, id, ck, stored, env);
      && done.Ok? && SoundLeaf(codec, after)
      && ViewLeaf(codec, after) == TypedSet(ViewLeaf(codec, leaf), id, ck, entry, env)
  {
    var inserted := leaf.state[ck := stored];
    InsertedView(codec, leaf.state, ck, stored, entry);
    DroppedView(codec, inserted, env.dropped(id, Expiries(inserted)));
  }

  lemma RedisSetRefines(codec: Codec, leaf: Leaf, id: nat, ck: string, stored: StoredEntry, entry: Entry, env: Env)
    requires codec.RoundTrips() && SoundLeaf(codec, leaf) && leaf.RedisLeaf? && stored.Serialized?
    requires Represents(codec, stored, entry) && codec.encode(entry).Some?
    ensures var (done, after) := LeafSet(leaf, id, ck, stored, env);
      && done == (if env.reachable(id) then Ok(()) else Err(OperationError)) && SoundLeaf(codec, after)
      && ViewLeaf(codec, after) == TypedSet(ViewLeaf(codec, leaf), id, ck, entry, env)
  {
    var after := LeafSet(leaf, id, ck, stored, env).1;
    assert ViewLeaf(codec, after).cells == TypedSet(ViewLeaf(codec, leaf), id, ck, entry, env).cells;
  }

  // ---------------------------------------------------------------- worlds

  lemma ViewUpdate(codec: Codec, w: World, id: nat, leaf: Leaf)
    requires id < |w|
    ensures View(codec, w[id := leaf]) == View(codec, w)[id := ViewLeaf(codec, leaf)]
  {
  }

  ghost predicate Within(ids: seq<nat>, n: nat) {
    forall id :: id in ids ==> id < n
  }

  /** Filling two disjoint groups of leaves one after the other fills them both, in any order. */
  lemma FillTwice(xs: seq<nat>, ys: seq<nat>, zs: seq<nat>, tw: seq<TypedLeaf>, ck: string, entry: Entry, env: Env)
    requires forall x :: x in xs ==> x !in ys
    requires forall z :: z in zs <==> z in xs || z in ys
    ensures FillFlat(ys, FillFlat(xs, tw, ck, entry, env), ck, entry, env) == FillFlat(zs, tw, ck, entry, env)
  {
  }

  lemma AcceptAfterFill(xs: seq<nat>, ys: seq<nat>, tw: seq<TypedLeaf>, ck: string, entry: Entry, env: Env)
    ensures AllAccept(xs + ys, tw, env) <==>
      AllAccept(xs, tw, env) && AllAccept(ys, FillFlat(xs, tw, ck, entry, env), env)
  {
    var filled := FillFlat(xs, tw, ck, entry, env);
    assert forall id :: 0 <= id < |tw| ==> filled[id].kind == tw[id].kind;
    assert forall id :: id in xs + ys <==> id in xs || id in ys;
  }

  ghost predicate SetRefinesFlat(codec: Codec, ids: seq<nat>, w: World, after: (Result<(), CacheError>, World),
      ck: string, entry: Entry, env: Env) {
    && SoundWorld(codec, after.1) && |after.1| == |w|
    && (after.0, View(codec, after.1)) == SetFlat(ids, View(codec, w), ck, entry, env)
  }

  lemma LeafStoreSetRefines(codec: Codec, id: nat, w: World, ck: string, stored: StoredEntry, entry: Entry, env: Env)
    requires SoundWorld(codec, w) && id < |w| && (w[id].RedisLeaf? ==> stored.Serialized?)
    requires Represents(codec, stored, entry) && codec.encode(entry).Some?
    ensures SetRefinesFlat(codec, [id], w, Set(codec, LeafStore(id), w, ck, stored, env), ck, entry, env)
  {
    if w[id].MemoryLeaf? {
      MemorySetRefines(codec, w[id], id, ck, stored, entry, env);
    } else {
      RedisSetRefines(codec, w[id], id, ck, stored, entry, env);
    }
    var (done, after) := Set(codec, LeafStore(id), w, ck, stored, env);
    ViewUpdate(codec, w, id, after[id]);
    assert View(codec, after) == FillFlat([id], View(codec, w), ck, entry, env);
  }

  lemma {:induction false} SetTierRefines(codec: Codec, tier: Store, w: World, ck: string, stored: StoredEntry,
      entry: Entry, env: Env)
    requires SoundWorld(codec, w) && Distinct(Leaves(tier)) && Within(Leaves(tier), |w|)
    requires Represents(codec, stored, entry) && codec.encode(entry).Some?
    ensures SetRefinesFlat(codec, Leaves(tier), w, SetTier(codec, tier, w, ck, stored, env), ck, entry, env)
    decreases tier, 1
  {
    ConvertedRepresents(codec, stored, entry, Mode(w, tier));
    var converted := ConvertForMode(codec, stored, Mode(w, tier)).value;
    match tier
    case LeafStore(id) =>
      assert id in Leaves(tier);
      LeafStoreSetRefines(codec, id, w, ck, converted, entry, env);
    case Tiered(tiers) => SetAllRefines(codec, tiers, w, ck, converted, entry, env);
  }

  lemma {:induction false} SetAllRefines(codec: Codec, tiers: seq<Store>, w: World, ck: string, stored: StoredEntry,
      entry: Entry, env: Env)
    requires SoundWorld(codec, w) && Distinct(LeavesOf(tiers)) && Within(LeavesOf(tiers), |w|)
    requires Represents(codec, stored, entry) && codec.encode(entry).Some?
    ensures SetRefinesFlat(codec, LeavesOf(tiers), w, SetAll(codec, tiers, w, ck, stored, env), ck, entry, env)
    decreases tiers, 0
  {
    if tiers == [] {
      assert View(codec, w) == FillFlat([], View(codec, w), ck, entry, env);
    } else {
      var xs, ys := Leaves(tiers[0]), LeavesOf(tiers[1..]);
      DistinctParts(xs, ys);
      var (done, w1) := SetTier(codec, tiers[0], w, ck, stored, env);
      SetTierRefines(codec, tiers[0], w, ck, stored, entry, env);
      SetAllRefines(codec, tiers[1..], w1, ck, stored, entry, env);
      FillTwice(xs, ys, xs + ys, View(codec, w), ck, entry, env);
      AcceptAfterFill(xs, ys, View(codec, w), ck, entry, env);
    }
  }

  lemma {:induction false} BackfillRefines(codec: Codec, lower: seq<Store>, w: World, ck: string, stored: StoredEntry,
      entry: Entry, env: Env)
    requires SoundWorld(codec, w) && Distinct(LeavesOf(lower)) && Within(LeavesOf(lower), |w|)
    requires Represents(codec, stored, entry) && codec.encode(entry).Some?
    ensures var after := Backfill(codec, lower, w, ck, stored, env);
      && SoundWorld(codec, after) && |after| == |w|
      && View(codec, after) == FillFlat(LeavesOf(lower), View(codec, w), ck, entry, env)
    decreases |lower|
  {
    if lower == [] {
      assert View(codec, w) == FillFlat([], View(codec, w), ck, entry, env);
    } else {
      var xs, ys := Leaves(lower[0]), LeavesOf(lower[1..]);
      DistinctParts(xs, ys);
      SetTierRefines(codec, lower[0], w, ck, stored, entry, env);
      BackfillRefines(codec, lower[1..], SetTier(codec, lower[0], w, ck, stored, env).1, ck, stored, entry, env);
      FillTwice(xs, ys, xs + ys, View(codec, w), ck, entry, env);
    }
  }

  // ---------------------------------------------------------------- reading

  lemma {:induction false} ReadBounds(ids: seq<nat>, tw: seq<TypedLeaf>, ck: string, env: Env)
    ensures var (read, after) := ReadFlat(ids, tw, ck, env);
      (read.Found? ==> read.at < |ids|) && |after| == |tw|
    decreases |ids|
  {
    if ids != [] && ids[0] < |tw| {
      ReadBounds(ids[1..], tw[ids[0] := TypedGet(tw[ids[0]], ids[0], ck, env).1], ck, env);
    }
  }

  function Shift(read: Read, skipped: nat): Read {
    if read.Found? then Found(read.at + skipped, read.entry) else read
  }

  /** Reading two lists in a row goes on with the second exactly when the first misses. */
  lemma {:induction false} ReadConcat(xs: seq<nat>, ys: seq<nat>, tw: seq<TypedLeaf>, ck: string, env: Env)
    ensures var (read, after) := ReadFlat(xs, tw, ck, env);
      ReadFlat(xs + ys, tw, ck, env) ==
        if read.Missed? then (Shift(ReadFlat(ys, after, ck, env).0, |xs|), ReadFlat(ys, after, ck, env).1)
        else (read, after)
    decreases |xs|
  {
    if xs == [] {
      assert xs + ys == ys;
    } else if xs[0] < |tw| {
      assert (xs + ys)[1..] == xs[1..] + ys;
      ReadConcat(xs[1..], ys, tw[xs[0] := TypedGet(tw[xs[0]], xs[0], ck, env).1], ck, env);
    }
  }

  ghost predicate GetRefinesBelow(codec: Codec, above: seq<nat>, ids: seq<nat>, w: World, after: (Reply, World),
      ck: string, env: Env) {
    && SoundWorld(codec, after.1) && |after.1| == |w|
    && (after.0.Ok? && after.0.value.Some? ==> Sound(codec, after.0.value.value))
    && (TypedOf(codec, after.0), View(codec, after.1)) == GetBelow(above, ids, View(codec, w), ck, env)
  }

  lemma LeafStoreGetRefines(codec: Codec, id: nat, w: World, ck: string, env: Env)
    requires SoundWorld(codec, w) && id < |w|
    ensures GetRefinesBelow(codec, [], [id], w, Get(codec, LeafStore(id), w, ck, env), ck, env)
  {
    LeafGetRefines(codec, w[id], id, ck, env);
    var (reply, after) := Get(codec, LeafStore(id), w, ck, env);
    ViewUpdate(codec, w, id, after[id]);
    if reply.Ok? && reply.value.Some? {
      FillNone(View(codec, after), ck, IntoTyped(codec, reply.value.value).value, env);
    }
    assert [] + [id][..0] == [];
    assert [id][1..] == [] && ReadFlat([], View(codec, after), ck, env) == (Missed, View(codec, after));
  }

  lemma FillNone(tw: seq<TypedLeaf>, ck: string, entry: Entry, env: Env)
    ensures FillFlat([], tw, ck, entry, env) == tw
  {
  }

  lemma {:induction false} GetRefines(codec: Codec, store: Store, w: World, ck: string, env: Env)
    requires SoundWorld(codec, w) && Distinct(Leaves(store)) && Within(Leaves(store), |w|)
    ensures GetRefinesBelow(codec, [], Leaves(store), w, Get(codec, store, w, ck, env), ck, env)
    decreases store, 0
  {
    match store
    case LeafStore(id) =>
      assert id in Leaves(store);
      LeafStoreGetRefines(codec, id, w, ck, env);
    case Tiered(tiers) =>
      assert tiers[..0] == [] && tiers[0..] == tiers && LeavesOf([]) == [];
      assert [] + LeavesOf(tiers) == LeavesOf(tiers);
      GetFromRefines(codec, tiers, 0, w, ck, env);
  }

  lemma {:induction false} GetFromRefines(codec: Codec, tiers: seq<Store>, i: nat, w: World, ck: string, env: Env)
    requires i <= |tiers| && SoundWorld(codec, w) && Distinct(LeavesOf(tiers)) && Within(LeavesOf(tiers), |w|)
    ensures GetRefinesBelow(codec, LeavesOf(tiers[..i]), LeavesOf(tiers[i..]), w, GetFrom(codec, tiers, i, w, ck, env),
      ck, env)
    decreases tiers, |tiers| - i
  {
    if i < |tiers| {
      var above, ids, rest := LeavesOf(tiers[..i]), Leaves(tiers[i]), LeavesOf(tiers[i + 1..]);
      LeavesAt(tiers, i);
      DistinctParts(above, ids + rest);
      DistinctParts(ids, rest);
      assert forall id :: id in above + (ids + rest) <==> id in above || id in ids || id in rest;
      var (reply, w1) := Get(codec, tiers[i], w, ck, env);
      GetRefines(codec, tiers[i], w, ck, env);
      ReadConcat(ids, rest, View(codec, w), ck, env);
      ReadBounds(ids, View(codec, w), ck, env);
      if reply.Ok? && reply.value.None? {
        GetFromRefines(codec, tiers, i + 1, w1, ck, env);
        MissedSubtree(above, ids, rest, View(codec, w), ck, env);
      } else if reply.Ok? {
        HitSubtree(codec, tiers, i, w, ck, env);
      }
    }
  }

  lemma LeavesOfOne(tier: Store)
    ensures LeavesOf([tier]) == Leaves(tier)
  {
    assert [tier][1..] == [] && LeavesOf([tier]) == Leaves(tier) + [];
  }

  lemma LeavesAt(tiers: seq<Store>, i: nat)
    requires i < |tiers|
    ensures LeavesOf(tiers) == LeavesOf(tiers[..i]) + (Leaves(tiers[i]) + LeavesOf(tiers[i + 1..]))
    ensures LeavesOf(tiers[i..]) == Leaves(tiers[i]) + LeavesOf(tiers[i + 1..])
    ensures LeavesOf(tiers[..i + 1]) == LeavesOf(tiers[..i]) + Leaves(tiers[i])
  {
    LeavesOfSplit(tiers, i);
    assert tiers[i..][0] == tiers[i] && tiers[i..][1..] == tiers[i + 1..];
    assert tiers[..i + 1][..i] == tiers[..i] && tiers[..i + 1][i..] == [tiers[i]];
    LeavesOfSplit(tiers[..i + 1], i);
    LeavesOfOne(tiers[i]);
  }

  lemma MissedSubtree(above: seq<nat>, ids: seq<nat>, rest: seq<nat>, tw: seq<TypedLeaf>, ck: string, env: Env)
    requires ReadFlat(ids, tw, ck, env).0.Missed?
    ensures GetBelow(above, ids + rest, tw, ck, env)
      == GetBelow(above + ids, rest, ReadFlat(ids, tw, ck, env).1, ck, env)
  {
    var tw1 := ReadFlat(ids, tw, ck, env).1;
    ReadConcat(ids, rest, tw, ck, env);
    ReadBounds(rest, tw1, ck, env);
    var (read, tw2) := ReadFlat(rest, tw1, ck, env);
    if read.Found? {
      assert above + (ids + rest)[..|ids| + read.at] == (above + ids) + rest[..read.at];
    }
  }

  lemma HitSubtree(codec: Codec, tiers: seq<Store>, i: nat, w: World, ck: string, env: Env)
    requires i < |tiers| && SoundWorld(codec, w) && Distinct(LeavesOf(tiers)) && Within(LeavesOf(tiers), |w|)
    requires var (reply, w1) := Get(codec, tiers[i], w, ck, env);
      reply.Ok? && reply.value.Some? && GetRefinesBelow(codec, [], Leaves(tiers[i]), w, (reply, w1), ck, env)
    ensures GetRefinesBelow(codec, LeavesOf(tiers[..i]), LeavesOf(tiers[i..]), w, GetFrom(codec, tiers, i, w, ck, env),
      ck, env)
  {
    var above, ids, rest := LeavesOf(tiers[..i]), Leaves(tiers[i]), LeavesOf(tiers[i + 1..]);
    LeavesAt(tiers, i);
    DistinctParts(above, ids + rest);
    assert forall id :: id in above + (ids + rest) <==> id in above || id in ids || id in rest;
    var (reply, w1) := Get(codec, tiers[i], w, ck, env);
    var stored := reply.value.value;
    var entry :| Represents(codec, stored, entry) && codec.encode(entry).Some?;
    BackfillRefines(codec, tiers[..i], w1, ck, stored, entry, env);
    ReadConcat(ids, rest, View(codec, w), ck, env);
    ReadBounds(ids, View(codec, w), ck, env);
    var (read, tw1) := ReadFlat(ids, View(codec, w), ck, env);
    assert (ids + rest)[..read.at] == ids[..read.at] && [] + ids[..read.at] == ids[..read.at];
    FillTwice(ids[..read.at], above, above + ids[..read.at], tw1, ck, entry, env);
  }

  // ---------------------------------------------------------------- removing

  lemma LeafRemoveRefines(codec: Codec, leaf: Leaf, id: nat, ck: string, env: Env)
    requires codec.RoundTrips() && SoundLeaf(codec, leaf)
    ensures var (done, after) := LeafRemove(leaf, id, ck, env);
      var view := ViewLeaf(codec, leaf);
      && SoundLeaf(codec, after)
      && done == (if Accepts(view, id, env) then Ok(()) else Err(OperationError))
      && ViewLeaf(codec, after) == (if Accepts(view, id, env) then TypedLeaf(view.kind, view.cells - {ck}) else view)
  {
    var (done, after) := LeafRemove(leaf, id, ck, env);
    var view := ViewLeaf(codec, leaf);
    assert Accepts(view, id, env) ==> ViewLeaf(codec, after).cells == view.cells - {ck};
  }

  ghost predicate RemoveRefinesFlat(codec: Codec, ids: seq<nat>, w: World, after: (Result<(), CacheError>, World),
      ck: string, env: Env) {
    && SoundWorld(codec, after.1) && |after.1| == |w|
    && (after.0, View(codec, after.1)) == RemoveFlat(ids, View(codec, w), ck, env)
  }

  lemma {:induction false} RemoveRefines(codec: Codec, store: Store, w: World, ck: string, env: Env)
    requires SoundWorld(codec, w) && Distinct(Leaves(store)) && Within(Leaves(store), |w|)
    ensures RemoveRefinesFlat(codec, Leaves(store), w, Remove(store, w, ck, env), ck, env)
    decreases store, 0
  {
    match store
    case LeafStore(id) =>
      assert id in Leaves(store);
      LeafRemoveRefines(codec, w[id], id, ck, env);
      ViewUpdate(codec, w, id, LeafRemove(w[id], id, ck, env).1);
      assert View(codec, Remove(store, w, ck, env).1) == RemoveFlat([id], View(codec, w), ck, env).1;
    case Tiered(tiers) => RemoveAllRefines(codec, tiers, w, ck, env);
  }

  lemma {:induction false} RemoveAllRefines(codec: Codec, tiers: seq<Store>, w: World, ck: string, env: Env)
    requires SoundWorld(codec, w) && Distinct(LeavesOf(tiers)) && Within(LeavesOf(tiers), |w|)
    ensures RemoveRefinesFlat(codec, LeavesOf(tiers), w, RemoveAll(tiers, w, ck, env), ck, env)
    decreases tiers, 0
  {
    if tiers == [] {
      assert View(codec, w) == RemoveFlat([], View(codec, w), ck, env).1;
    } else {
      var xs, ys := Leaves(tiers[0]), LeavesOf(tiers[1..]);
      DistinctParts(xs, ys);
      RemoveRefines(codec, tiers[0], w, ck, env);
      RemoveAllRefines(codec, tiers[1..], Remove(tiers[0], w, ck, env).1, ck, env);
      RemoveTwice(xs, ys, View(codec, w), ck, env);
    }
  }

  lemma RemoveTwice(xs: seq<nat>, ys: seq<nat>, tw: seq<TypedLeaf>, ck: string, env: Env)
    requires forall x :: x in xs ==> x !in ys
    ensures RemoveFlat(xs + ys, tw, ck, env).1 == RemoveFlat(ys, RemoveFlat(xs, tw, ck, env).1, ck, env).1
    ensures AllAccept(xs + ys, tw, env) <==> AllAccept(xs, tw, env) && AllAccept(ys, RemoveFlat(xs, tw, ck, env).1, env)
  {
    var removed := RemoveFlat(xs, tw, ck, env).1;
    assert forall id :: 0 <= id < |tw| ==> removed[id].kind == tw[id].kind;
    assert forall id :: id in xs + ys <==> id in xs || id in ys;
  }

  // ---------------------------------------------------------------- flattening

  /** An operation of a cache on the stack, in its circumstances. */
  datatype Op =
    | GetOp(ck: string, env: Env)
    | SetOp(ck: string, entry: Entry, env: Env)
    | RemoveOp(ck: string, env: Env)

  function Apply(codec: Codec, store: Store, w: World, op: Op): (TypedReply, World) {
    match op
    case GetOp(ck, env) =>
      var (reply, after) := Get(codec, store, w, ck, env);
      (TypedOf(codec, reply), after)
    case SetOp(ck, entry, env) =>
      (match BuildStored(codec, entry, Mode(w, store))
       case Err(e) => (Err(e), w)
       case Ok(stored) =>
         var (done, after) := Set(codec, store, w, ck, stored, env);
         (if done.Ok? then Ok(None) else Err(done.error), after))
    case RemoveOp(ck, env) =>
      var (done, after) := Remove(store, w, ck, env);
      (if done.Ok? then Ok(None) else Err(done.error), after)
  }

  function ApplyFlat(ids: seq<nat>, tw: seq<TypedLeaf>, op: Op): (TypedReply, seq<TypedLeaf>) {
    match op
    case GetOp(ck, env) => GetFlat(ids, tw, ck, env)
    case SetOp(ck, entry, env) =>
      var (done, after) := SetFlat(ids, tw, ck, entry, env);
      (if done.Ok? then Ok(None) else Err(done.error), after)
    case RemoveOp(ck, env) =>
      var (done, after) := RemoveFlat(ids, tw, ck, env);
      (if done.Ok? then Ok(None) else Err(done.error), after)
  }

  ghost predicate Serializable(codec: Codec, op: Op) {
    op.SetOp? ==> codec.encode(op.entry).Some?
  }

  /** `Set` of an entry in the store's own mode; conversion to that mode again changes nothing. */
  lemma SetRefines(codec: Codec, store: Store, w: World, ck: string, entry: Entry, env: Env)
    requires SoundWorld(codec, w) && Distinct(Leaves(store)) && Within(Leaves(store), |w|) && codec.encode(entry).Some?
    ensures var stored := BuildStored(codec, entry, Mode(w, store));
      && stored.Ok?
      && SetRefinesFlat(codec, Leaves(store), w, Set(codec, store, w, ck, stored.value, env), ck, entry, env)
  {
    BuiltRepresents(codec, entry, Mode(w, store));
    SetTierRefines(codec, store, w, ck, BuildStored(codec, entry, Mode(w, store)).value, entry, env);
  }

  /** One operation on any tree does to the typed leaves, and answers, what the flat reference does. */
  lemma ApplyRefines(codec: Codec, store: Store, w: World, op: Op)
    requires SoundWorld(codec, w) && Distinct(Leaves(store)) && Within(Leaves(store), |w|) && Serializable(codec, op)
    ensures var (reply, after) := Apply(codec, store, w, op);
      && SoundWorld(codec, after) && |after| == |w|
      && (reply, View(codec, after)) == ApplyFlat(Leaves(store), View(codec, w), op)
  {
    match op
    case GetOp(ck, env) => GetRefines(codec, store, w, ck, env);
    case SetOp(ck, entry, env) => SetRefines(codec, store, w, ck, entry, env);
    case RemoveOp(ck, env) => RemoveRefines(codec, store, w, ck, env);
  }

  function Replies(codec: Codec, store: Store, w: World, ops: seq<Op>): (seq<TypedReply>, World)
    decreases |ops|
  {
    if ops == [] then ([], w) else
    var (reply, w1) := Apply(codec, store, w, ops[0]);
    var (rest, w2) := Replies(codec, store, w1, ops[1..]);
    ([reply] + rest, w2)
  }

  function RepliesFlat(ids: seq<nat>, tw: seq<TypedLeaf>, ops: seq<Op>): (seq<TypedReply>, seq<TypedLeaf>)
    decreases |ops|
  {
    if ops == [] then ([], tw) else
    var (reply, tw1) := ApplyFlat(ids, tw, ops[0]);
    var (rest, tw2) := RepliesFlat(ids, tw1, ops[1..]);
    ([reply] + rest, tw2)
  }

  lemma {:induction false} TreeRefinesFlat(codec: Codec, store: Store, w: World, ops: seq<Op>)
    requires SoundWorld(codec, w) && Distinct(Leaves(store)) && Within(Leaves(store), |w|)
    requires forall op :: op in ops ==> Serializable(codec, op)
    ensures var (replies, after) := Replies(codec, store, w, ops);
      (replies, View(codec, after)) == RepliesFlat(Leaves(store), View(codec, w), ops)
    decreases |ops|
  {
    if ops == [] {
    } else {
      assert Serializable(codec, ops[0]);
      ApplyRefines(codec, store, w, ops[0]);
      TreeRefinesFlat(codec, store, Apply(codec, store, w, ops[0]).1, ops[1..]);
    }
  }

  /** The flat `TieredStore` over the same leaves in the same order. */
  function Flat(ids: seq<nat>): Store {
    Tiered(seq(|ids|, i requires 0 <= i < |ids| => LeafStore(ids[i])))
  }

  lemma {:induction false} LeavesOfFlat(ids: seq<nat>)
    ensures Leaves(Flat(ids)) == ids
  {
    if ids == [] {
      assert Flat(ids).tiers == [];
    } else {
      LeavesOfFlat(ids[1..]);
      assert Flat(ids).tiers[0] == LeafStore(ids[0]);
      assert Flat(ids).tiers[1..] == Flat(ids[1..]).tiers;
      assert Leaves(LeafStore(ids[0])) == [ids[0]];
      assert LeavesOf(Flat(ids).tiers) == [ids[0]] + LeavesOf(Flat(ids[1..]).tiers);
      assert LeavesOf(Flat(ids[1..]).tiers) == ids[1..];
    }
  }

  /** Flattening. For any tree over distinct leaves, any circumstances (unreachable leaves and evictions
      included) and any sequence of operations on entries that serialize, with backfills drained: the
      tree and the flat store over its leaves give the same typed replies, the same errors and leave
      the same typed contents, deadlines included, in every leaf. */
  lemma Flattening(codec: Codec, store: Store, w: World, ops: seq<Op>)
    requires SoundWorld(codec, w) && Distinct(Leaves(store)) && Within(Leaves(store), |w|)
    requires forall op :: op in ops ==> Serializable(codec, op)
    ensures var (replies, after) := Replies(codec, store, w, ops);
      var (replies', after') := Replies(codec, Flat(Leaves(store)), w, ops);
      replies == replies' && View(codec, after) == View(codec, after')
  {
    LeavesOfFlat(Leaves(store));
    TreeRefinesFlat(codec, store, w, ops);
    TreeRefinesFlat(codec, Flat(Leaves(store)), w, ops);
  }

  // ---------------------------------------------------------------- promotion

  /** Every leaf takes its writes, and nothing is evicted. */
  ghost predicate Roomy(ids: seq<nat>, tw: seq<TypedLeaf>, env: Env) {
    AllAccept(ids, tw, env) && forall id, m :: env.dropped(id, m) == {}
  }

  /** The leaves from place `start` of the list on are the same in both. */
  ghost predicate SameFrom(ids: seq<nat>, start: nat, tw1: seq<TypedLeaf>, tw2: seq<TypedLeaf>) {
    |tw1| == |tw2| && forall p :: start <= p < |ids| && ids[p] < |tw1| ==> tw1[ids[p]] == tw2[ids[p]]
  }

  lemma {:induction false} ReadLeaves(ids: seq<nat>, tw: seq<TypedLeaf>, ck: string, env: Env)
    requires Distinct(ids) && Within(ids, |tw|)
    ensures var (read, after) := ReadFlat(ids, tw, ck, env);
      && |after| == |tw|
      && (forall i :: 0 <= i < |tw| ==> after[i].kind == tw[i].kind)
      && (read.Found? ==>
          && read.at < |ids| && ids[read.at] < |tw|
          && SameFrom(ids, read.at, after, tw)
          && TypedGet(tw[ids[read.at]], ids[read.at], ck, env) == (Ok(Some(read.entry)), tw[ids[read.at]]))
    decreases |ids|
  {
    if ids != [] && ids[0] < |tw| {
      var (reply, leaf) := TypedGet(tw[ids[0]], ids[0], ck, env);
      assert ids == [ids[0]] + ids[1..];
      DistinctParts([ids[0]], ids[1..]);
      ReadLeaves(ids[1..], tw[ids[0] := leaf], ck, env);
    }
  }

  lemma FilledLeafAnswers(leaf: TypedLeaf, id: nat, ck: string, entry: Entry, env: Env)
    requires Accepts(leaf, id, env) && forall id, m :: env.dropped(id, m) == {}
    ensures var filled := TypedSet(leaf, id, ck, entry, env);
      if !entry.IsExpired(env.now) || leaf.kind == Redis(true)
      then TypedGet(filled, id, ck, env) == (Ok(Some(entry)), filled)
      else TypedGet(filled, id, ck, env).0 == Ok(None)
  {
  }

  /** What a flat `get` leaves after a hit below the first leaf. */
  lemma AfterFlatHit(ids: seq<nat>, tw: seq<TypedLeaf>, ck: string, env: Env)
    requires Distinct(ids) && Within(ids, |tw|)
    requires ReadFlat(ids, tw, ck, env).0.Found? && ReadFlat(ids, tw, ck, env).0.at > 0
    ensures var (read, tw1) := ReadFlat(ids, tw, ck, env);
      var after := GetFlat(ids, tw, ck, env).1;
      && GetFlat(ids, tw, ck, env).0 == Ok(Some(read.entry))
      && SameFrom(ids, read.at, after, tw)
      && ids[0] < |tw| == |tw1| && tw1[ids[0]].kind == tw[ids[0]].kind
      && after[ids[0]] == TypedSet(tw1[ids[0]], ids[0], ck, read.entry, env)
  {
    ReadLeaves(ids, tw, ck, env);
    var (read, tw1) := ReadFlat(ids, tw, ck, env);
    assert [] + ids[..read.at] == ids[..read.at];
    assert forall p :: read.at <= p < |ids| ==> ids[p] !in ids[..read.at];
    assert ids[0] in ids[..read.at] && ids[0] in ids;
  }

  lemma ReadFirst(ids: seq<nat>, tw: seq<TypedLeaf>, ck: string, entry: Entry, env: Env)
    requires ids != [] && ids[0] < |tw|
    ensures ReadFlat(ids, tw, ck, env) == (Found(0, entry), tw) <==>
      TypedGet(tw[ids[0]], ids[0], ck, env) == (Ok(Some(entry)), tw[ids[0]])
  {
    var (reply, leaf) := TypedGet(tw[ids[0]], ids[0], ck, env);
    if reply == Ok(Some(entry)) {
      assert tw[ids[0] := leaf] == tw <==> leaf == tw[ids[0]];
    }
  }

  /** Promotion, on the leaves: a hit below the first leaf leaves the leaves from the hit on as they were,
      and the next read at the same time finds the same entry in the first leaf, unless it was expired
      when found and the first leaf does not serve expired entries. */
  lemma FlatPromotion(ids: seq<nat>, tw: seq<TypedLeaf>, ck: string, env: Env)
    requires Distinct(ids) && Within(ids, |tw|) && Roomy(ids, tw, env)
    requires ReadFlat(ids, tw, ck, env).0.Found? && ReadFlat(ids, tw, ck, env).0.at > 0
    ensures var read := ReadFlat(ids, tw, ck, env).0;
      var after := GetFlat(ids, tw, ck, env).1;
      && GetFlat(ids, tw, ck, env).0 == Ok(Some(read.entry))
      && SameFrom(ids, read.at, after, tw)
      && ids[0] < |tw|
      && (ReadFlat(ids, after, ck, env) == (Found(0, read.entry), after) <==>
            !read.entry.IsExpired(env.now) || tw[ids[0]].kind == Redis(true))
  {
    AfterFlatHit(ids, tw, ck, env);
    var (read, tw1) := ReadFlat(ids, tw, ck, env);
    assert ids[0] in ids && Accepts(tw1[ids[0]], ids[0], env);
    FilledLeafAnswers(tw1[ids[0]], ids[0], ck, read.entry, env);
    ReadFirst(ids, GetFlat(ids, tw, ck, env).1, ck, read.entry, env);
  }

  /** The same for any tree: after a hit below the first leaf and a drained backfill, a repeated `get` at the
      same time is answered by the first leaf with the same typed entry and changes nothing. */
  lemma Promotion(codec: Codec, store: Store, w: World, ck: string, env: Env)
    requires SoundWorld(codec, w) && Distinct(Leaves(store)) && Within(Leaves(store), |w|)
    requires Roomy(Leaves(store), View(codec, w), env)
    requires var read := ReadFlat(Leaves(store), View(codec, w), ck, env).0;
      read.Found? && read.at > 0 && !read.entry.IsExpired(env.now)
    ensures var ids, read := Leaves(store), ReadFlat(Leaves(store), View(codec, w), ck, env).0;
      var (reply, w1) := Get(codec, store, w, ck, env);
      var (again, w2) := Get(codec, store, w1, ck, env);
      && TypedOf(codec, reply) == TypedOf(codec, again) == Ok(Some(read.entry))
      && View(codec, w2) == View(codec, w1)
      && ReadFlat(ids, View(codec, w1), ck, env).0 == Found(0, read.entry)
      && SameFrom(ids, read.at, View(codec, w1), View(codec, w))
  {
    var ids, w1 := Leaves(store), Get(codec, store, w, ck, env).1;
    FlatPromotion(ids, View(codec, w), ck, env);
    GetRefines(codec, store, w, ck, env);
    GetRefines(codec, store, w1, ck, env);
    assert [] + ids[..0] == [];
    FillNone(View(codec, w1), ck, ReadFlat(ids, View(codec, w), ck, env).0.entry, env);
  }
}
