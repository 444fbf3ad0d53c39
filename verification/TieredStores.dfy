/** Stacks of stores (src/tiered.rs). A `TieredStore` is itself a store, so stacks form trees; its list of
    tiers never changes, so the tree is a value, and what changes is the leaves. */
module TieredStores {
  import opened Wrappers
  import opened Entries
  import HashMapStores
  import RedisStores

  datatype Leaf =
    | MemoryLeaf(state: HashMapStores.Contents)
    | RedisLeaf(db: RedisStores.Db, disableExpiration: bool)

  /** Leaves by number; a store names the leaves it is built on. */
  type World = seq<Leaf>

  datatype Store = LeafStore(id: nat) | Tiered(tiers: seq<Store>)

  /** The circumstances of one operation: its time, which leaves can be reached, and what a leaf drops
      after a write, given the expiry of everything it then holds. */
  datatype Env = Env(now: int, reachable: nat -> bool, dropped: (nat, map<string, int>) -> set<string>)

  type Reply = Result<Option<StoredEntry>, CacheError>

  // ---------------------------------------------------------------- leaves

  function LeafGet(codec: Codec, leaf: Leaf, id: nat, ck: string, env: Env): (Reply, Leaf) {
    match leaf
    case MemoryLeaf(state) =>
      var (found, left) := HashMapStores.GetSpec(state, ck, env.now);
      (Ok(found), MemoryLeaf(left))
    case RedisLeaf(db, disableExpiration) =>
      if !env.reachable(id) then (Err(OperationError), leaf) else
      var answer := RedisStores.GetSpec(codec, db, ck, env.now, disableExpiration);
      (answer.reply, if answer.expired then RedisLeaf(db - {ck}, disableExpiration) else leaf)
  }

  function Expiries(state: HashMapStores.Contents): map<string, int> {
    map ck | ck in state :: state[ck].staleUntil
  }

  function LeafSet(leaf: Leaf, id: nat, ck: string, stored: StoredEntry, env: Env): (Result<(), CacheError>, Leaf) {
    match leaf
    case MemoryLeaf(state) =>
      var inserted := state[ck := stored];
      (Ok(()), MemoryLeaf(inserted - env.dropped(id, Expiries(inserted))))
    case RedisLeaf(db, disableExpiration) =>
      if stored.Typed? then (Err(SerializationError), leaf)
      else if !env.reachable(id) then (Err(OperationError), leaf)
      else
        var cell := RedisStores.NewCell(stored.data, stored.staleUntil, env.now, env.now, disableExpiration);
        (Ok(()), RedisLeaf(db[ck := cell], disableExpiration))
  }

  function LeafRemove(leaf: Leaf, id: nat, ck: string, env: Env): (Result<(), CacheError>, Leaf) {
    match leaf
    case MemoryLeaf(state) => (Ok(()), MemoryLeaf(state - {ck}))
    case RedisLeaf(db, disableExpiration) =>
      if !env.reachable(id) then (Err(OperationError), leaf) else (Ok(()), RedisLeaf(db - {ck}, disableExpiration))
  }

  lemma SubmapIsLeafSet(state: HashMapStores.Contents, id: nat, ck: string, stored: StoredEntry,
      after: HashMapStores.Contents, now: int)
    requires HashMapStores.Submap(after, state[ck := stored])
    ensures exists env: Env :: env.now == now && LeafSet(MemoryLeaf(state), id, ck, stored, env).1 == MemoryLeaf(after)
  {
    var inserted := state[ck := stored];
    var dropped := inserted.Keys - after.Keys;
    var env := Env(now, _ => true, (_, _) => dropped);
    assert inserted - env.dropped(id, Expiries(inserted)) == after;
  }

  /** Whatever a `set` of the in-memory store and its eviction leave is what a memory leaf leaves for some
      choice of drops. */
  lemma EvictingSetIsLeafSet(state: HashMapStores.Contents, id: nat, ck: string, stored: StoredEntry,
      after: HashMapStores.Contents, now: int, maxItems: nat)
    requires HashMapStores.Evicted(state[ck := stored], after, now, maxItems)
    ensures exists env: Env :: env.now == now && LeafSet(MemoryLeaf(state), id, ck, stored, env).1 == MemoryLeaf(after)
  {
    HashMapStores.EvictedIsSubmap(state[ck := stored], after, now, maxItems);
    SubmapIsLeafSet(state, id, ck, stored, after, now);
  }

  // ---------------------------------------------------------------- stores

  function Mode(w: World, store: Store): StorageMode {
    match store
    case LeafStore(id) => if id < |w| && w[id].MemoryLeaf? then TypedMode else SerializedMode
    case Tiered(tiers) => if tiers == [] then SerializedMode else Mode(w, tiers[0])
  }

  function Get(codec: Codec, store: Store, w: World, ck: string, env: Env): (Reply, World)
    decreases store, 0
  {
    match store
    case LeafStore(id) =>
      if id >= |w| then (Err(OperationError), w) else
      var (reply, leaf) := LeafGet(codec, w[id], id, ck, env);
      (reply, w[id := leaf])
    case Tiered(tiers) => GetFrom(codec, tiers, 0, w, ck, env)
  }

  /** The loop of `get`, from tier `i` on; a backfill is drained where it is spawned. */
  function GetFrom(codec: Codec, tiers: seq<Store>, i: nat, w: World, ck: string, env: Env): (Reply, World)
    decreases tiers, |tiers| - i
  {
    if i >= |tiers| then (Ok(None), w) else
    var (reply, w1) := Get(codec, tiers[i], w, ck, env);
    match reply
    case Err(e) => (Err(e), w1)
    case Ok(None) => GetFrom(codec, tiers, i + 1, w1, ck, env)
    case Ok(Some(stored)) => (reply, Backfill(codec, tiers[..i], w1, ck, stored, env))
  }

  /** The spawned loop of `get`: a tier that refuses the entry is passed over. */
  function Backfill(codec: Codec, lower: seq<Store>, w: World, ck: string, stored: StoredEntry, env: Env): World
    decreases |lower|
  {
    if lower == [] then w
    else Backfill(codec, lower[1..], SetTier(codec, lower[0], w, ck, stored, env).1, ck, stored, env)
  }

  function Set(codec: Codec, store: Store, w: World, ck: string, stored: StoredEntry, env: Env):
      (Result<(), CacheError>, World)
    decreases store, 1
  {
    match store
    case LeafStore(id) =>
      if id >= |w| then (Err(OperationError), w) else
      var (done, leaf) := LeafSet(w[id], id, ck, stored, env);
      (done, w[id := leaf])
    case Tiered(tiers) => SetAll(codec, tiers, w, ck, stored, env)
  }

  /** Every tier is attempted; the first error is reported. */
  function SetAll(codec: Codec, tiers: seq<Store>, w: World, ck: string, stored: StoredEntry, env: Env):
      (Result<(), CacheError>, World)
    decreases tiers, 0
  {
    if tiers == [] then (Ok(()), w) else
    var (done, w1) := SetTier(codec, tiers[0], w, ck, stored, env);
    var (rest, w2) := SetAll(codec, tiers[1..], w1, ck, stored, env);
    (if done.Err? then done else rest, w2)
  }

  function SetTier(codec: Codec, tier: Store, w: World, ck: string, stored: StoredEntry, env: Env):
      (Result<(), CacheError>, World)
    decreases tier, 2
  {
    match ConvertForMode(codec, stored, Mode(w, tier))
    case Ok(converted) => Set(codec, tier, w, ck, converted, env)
    case Err(e) => (Err(e), w)
  }

  function Remove(store: Store, w: World, ck: string, env: Env): (Result<(), CacheError>, World)
    decreases store, 0
  {
    match store
    case LeafStore(id) =>
      if id >= |w| then (Err(OperationError), w) else
      var (done, leaf) := LeafRemove(w[id], id, ck, env);
      (done, w[id := leaf])
    case Tiered(tiers) => RemoveAll(tiers, w, ck, env)
  }

  function RemoveAll(tiers: seq<Store>, w: World, ck: string, env: Env): (Result<(), CacheError>, World)
    decreases tiers, 0
  {
    if tiers == [] then (Ok(()), w) else
    var (done, w1) := Remove(tiers[0], w, ck, env);
    var (rest, w2) := RemoveAll(tiers[1..], w1, ck, env);
    (if done.Err? then done else rest, w2)
  }
}
