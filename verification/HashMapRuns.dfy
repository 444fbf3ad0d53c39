/** The in-memory store under concurrency: lock sections of any number of operations, interleaved. */
module HashMapRuns {
  import opened Wrappers
  import opened Entries
  import opened HashMapStores

  /** One lock section. `Evict` names its outcome, which the map's iteration order decides. */
  datatype Section =
    | Lookup(ck: string, now: int)
    | DropExpired(ck: string)
    | Insert(ck: string, entry: StoredEntry)
    | Evict(now: int, roll: real, after: Contents)
    | Remove(cks: set<string>)

  /** `ideal` has the latest insert of every key not removed since. `dropsDue` are the `get` calls
      between their two sections, `evictsDue` the `set` calls that have inserted but not yet evicted,
      `evicted` the keys that an eviction dropped since they were last inserted. */
  datatype Mem = Mem(state: Contents, ideal: Contents, dropsDue: multiset<string>, evictsDue: nat, evicted: set<string>)

  const EMPTY := Mem(map[], map[], multiset{}, 0, {})

  /** The section can be the next one. */
  ghost predicate Open(config: Option<EvictOnSet>, m: Mem, s: Section) {
    match s
    case DropExpired(ck) => ck in m.dropsDue
    case Evict(now, roll, after) =>
      m.evictsDue > 0
      && if ShouldEvict(config, roll) then Evicted(m.state, after, now, config.value.maxItems) else after == m.state
    case _ => true
  }

  function After(m: Mem, s: Section): Mem {
    match s
    case Lookup(ck, now) =>
      if ck in m.state && m.state[ck].IsExpired(now) then m.(dropsDue := m.dropsDue + multiset{ck}) else m
    case DropExpired(ck) => m.(state := m.state - {ck}, dropsDue := m.dropsDue - multiset{ck})
    case Insert(ck, entry) =>
      Mem(m.state[ck := entry], m.ideal[ck := entry], m.dropsDue, m.evictsDue + 1, m.evicted - {ck})
    case Evict(_, _, after) =>
      var due := if m.evictsDue > 0 then m.evictsDue - 1 else 0;
      Mem(after, m.ideal, m.dropsDue, due, m.evicted + (m.state.Keys - after.Keys))
    case Remove(cks) => Mem(m.state - cks, m.ideal - cks, m.dropsDue, m.evictsDue, m.evicted - cks)
  }

  function Run(m: Mem, sections: seq<Section>): Mem
    decreases |sections|
  {
    if sections == [] then m else Run(After(m, sections[0]), sections[1..])
  }

  ghost predicate Possible(config: Option<EvictOnSet>, m: Mem, sections: seq<Section>)
    decreases |sections|
  {
    sections != [] ==> Open(config, m, sections[0]) && Possible(config, After(m, sections[0]), sections[1..])
  }

  // ---------------------------------------------------------------- when an eviction takes place

  /** An expired entry, or more than `maxItems`: something an eviction would drop. */
  ghost predicate HasToDrop(m: Contents, now: int, maxItems: nat) {
    |m| > maxItems || exists ck :: ck in m && m[ck].staleUntil <= now
  }

  lemma EvictionDrops(m: Contents, after: Contents, now: int, maxItems: nat)
    requires ExactlyEvicts(m, after, now, maxItems) && HasToDrop(m, now, maxItems)
    ensures after != m
  {
    if |m| <= maxItems {
      var ck :| ck in m && m[ck].staleUntil <= now;
      assert ck !in LiveKeys(m, now);
    }
  }

  /** The eviction section of a `set` leaves the map as it is without a configuration, at a frequency of zero or less,
      and below one at every roll from the frequency up; at every roll below the frequency, and from one up at
      every roll, it evicts exactly, and so changes the map whenever there is something to drop. */
  lemma EvictSectionExactly(config: Option<EvictOnSet>, m: Mem, now: int, roll: real, after: Contents)
    ensures (config.None? || config.value.frequency <= 0.0) ==>
      (Open(config, m, Evict(now, roll, after)) <==> m.evictsDue > 0 && after == m.state)
    ensures config.Some? && 0.0 < config.value.frequency < 1.0 && roll >= config.value.frequency ==>
      (Open(config, m, Evict(now, roll, after)) <==> m.evictsDue > 0 && after == m.state)
    ensures config.Some? && 0.0 < config.value.frequency < 1.0 && roll < config.value.frequency ==>
      (Open(config, m, Evict(now, roll, after)) <==>
         m.evictsDue > 0 && ExactlyEvicts(m.state, after, now, config.value.maxItems))
    ensures config.Some? && 1.0 <= config.value.frequency ==>
      (Open(config, m, Evict(now, roll, after)) <==>
         m.evictsDue > 0 && ExactlyEvicts(m.state, after, now, config.value.maxItems))
    ensures config.Some? && HasToDrop(m.state, now, config.value.maxItems) ==>
      ExactlyEvicts(m.state, after, now, config.value.maxItems) ==> after != m.state
  {
    if config.Some? {
      EvictedExactly(m.state, after, now, config.value.maxItems);
      if ExactlyEvicts(m.state, after, now, config.value.maxItems) && HasToDrop(m.state, now, config.value.maxItems) {
        EvictionDrops(m.state, after, now, config.value.maxItems);
      }
    }
  }

  /** Without a configuration, or at a frequency of zero or less, no run ever drops anything by eviction. */
  lemma {:induction false} NeverEvicts(config: Option<EvictOnSet>, m: Mem, sections: seq<Section>)
    requires config.None? || config.value.frequency <= 0.0
    requires m.evicted == {} && Possible(config, m, sections)
    ensures Run(m, sections).evicted == {}
    decreases |sections|
  {
    if sections == [] {
    } else {
      var s := sections[0];
      if s.Evict? {
        EvictSectionExactly(config, m, s.now, s.roll, s.after);
      }
      NeverEvicts(config, After(m, s), sections[1..]);
    }
  }

  // ---------------------------------------------------------------- last writer

  /** In every interleaving of inserts, removes, evictions and split reads, whatever the map holds is
      what was inserted last under that key and not removed since. */
  lemma {:induction false} LastWriterAgreement(config: Option<EvictOnSet>, m: Mem, sections: seq<Section>)
    requires Submap(m.state, m.ideal) && Possible(config, m, sections)
    ensures Submap(Run(m, sections).state, Run(m, sections).ideal)
    decreases |sections|
  {
    if sections == [] {
    } else {
      LastWriterAgreement(config, After(m, sections[0]), sections[1..]);
    }
  }

  // ---------------------------------------------------------------- size

  ghost predicate WithinBound(m: Mem, maxItems: nat) {
    |m.state| <= maxItems + m.evictsDue
  }

  lemma InsertGrowsByOne(m: Contents, ck: string, entry: StoredEntry)
    ensures |m[ck := entry]| <= |m| + 1
  {
    assert m[ck := entry].Keys == m.Keys + {ck};
  }

  lemma SubtractShrinks(m: Contents, cks: set<string>)
    ensures |m - cks| <= |m|
  {
    SubsetSize((m - cks).Keys, m.Keys);
  }

  lemma SubsetSize(a: set<string>, b: set<string>)
    requires a <= b
    ensures |a| <= |b|
  {
    assert b == a + (b - a);
  }

  lemma SectionWithinBound(config: EvictOnSet, m: Mem, s: Section)
    requires config.frequency >= 1.0 && WithinBound(m, config.maxItems) && Open(Some(config), m, s)
    ensures WithinBound(After(m, s), config.maxItems)
  {
    match s
    case Insert(ck, entry) => InsertGrowsByOne(m.state, ck, entry);
    case DropExpired(ck) => SubtractShrinks(m.state, {ck});
    case Remove(cks) => SubtractShrinks(m.state, cks);
    case Evict(now, _, after) => EvictedIsSubmap(m.state, after, now, config.maxItems);
    case _ =>
  }

  /** With a frequency of one or more, in every interleaving the map exceeds `max_items` by no more than
      the number of `set` calls still to evict; so by nothing whenever no `set` is in flight. */
  lemma {:induction false} SizeBound(config: EvictOnSet, m: Mem, sections: seq<Section>)
    requires config.frequency >= 1.0 && WithinBound(m, config.maxItems) && Possible(Some(config), m, sections)
    ensures WithinBound(Run(m, sections), config.maxItems)
    ensures Run(m, sections).evictsDue == 0 ==> |Run(m, sections).state| <= config.maxItems
    decreases |sections|
  {
    if sections == [] {
    } else {
      SectionWithinBound(config, m, sections[0]);
      SizeBound(config, After(m, sections[0]), sections[1..]);
    }
  }

  // ---------------------------------------------------------------- the split read

  /** A `get` that saw an expired entry deletes whatever is there when its second section comes: a write
      made in between is lost, though it is the latest and was never removed. */
  lemma SplitGetLosesWrite(ck: string, expired: StoredEntry, renewed: StoredEntry, now: int)
    requires expired.IsExpired(now) && !renewed.IsExpired(now)
    ensures exists sections ::
      && Possible(None, EMPTY, sections)
      && ck !in Run(EMPTY, sections).state
      && ck in Run(EMPTY, sections).ideal && Run(EMPTY, sections).ideal[ck] == renewed
  {
    var s0, s1, s2, s3 := Insert(ck, expired), Lookup(ck, now), Insert(ck, renewed), DropExpired(ck);
    var m1 := After(EMPTY, s0);
    var m2 := After(m1, s1);
    var m3 := After(m2, s2);
    var m4 := After(m3, s3);
    assert Run(m4, []) == m4 && Possible(None, m4, []);
    assert [s3][1..] == [] && Run(m3, [s3]) == m4 && Possible(None, m3, [s3]);
    assert [s2, s3][1..] == [s3] && Run(m2, [s2, s3]) == m4 && Possible(None, m2, [s2, s3]);
    assert [s1, s2, s3][1..] == [s2, s3] && Run(m1, [s1, s2, s3]) == m4 && Possible(None, m1, [s1, s2, s3]);
    var sections := [s0, s1, s2, s3];
    assert sections[1..] == [s1, s2, s3] && Run(EMPTY, sections) == m4 && Possible(None, EMPTY, sections);
  }

  // ---------------------------------------------------------------- when a write is lost

  /** The latest clock reading of a lookup. */
  function TimeAfter(t: int, s: Section): int {
    if s.Lookup? then s.now else t
  }

  function Until(t: int, sections: seq<Section>): int
    decreases |sections|
  {
    if sections == [] then t else Until(TimeAfter(t, sections[0]), sections[1..])
  }

  /** Lookups read a clock that does not run backwards. */
  ghost predicate Clocked(t: int, sections: seq<Section>)
    decreases |sections|
  {
    sections != [] ==> t <= TimeAfter(t, sections[0]) && Clocked(TimeAfter(t, sections[0]), sections[1..])
  }

  /** The section inserts under `ck` while some `get` is about to delete there. */
  predicate Overwrites(m: Mem, s: Section, ck: string) {
    s.Insert? && s.ck == ck && ck in m.dropsDue
  }

  predicate Careful(m: Mem, sections: seq<Section>, ck: string)
    decreases |sections|
  {
    sections != [] ==> !Overwrites(m, sections[0], ck) && Careful(After(m, sections[0]), sections[1..], ck)
  }

  /** The entry inserted last under `ck` was neither removed nor evicted, has not expired, and is gone. */
  predicate Lost(m: Mem, ck: string, t: int) {
    ck in m.ideal && ck !in m.state && ck !in m.evicted && !m.ideal[ck].IsExpired(t)
  }

  /** Nothing is lost under `ck`, and no delete is due for anything worth keeping. */
  predicate Keeps(m: Mem, ck: string, t: int) {
    && (ck in m.state ==> ck in m.ideal && m.state[ck] == m.ideal[ck])
    && !Lost(m, ck, t)
    && (ck in m.dropsDue && ck in m.state ==> m.state[ck].IsExpired(t))
  }

  lemma SectionKeeps(config: Option<EvictOnSet>, m: Mem, s: Section, ck: string, t: int)
    requires Keeps(m, ck, t) && Open(config, m, s) && t <= TimeAfter(t, s) && !Overwrites(m, s, ck)
    ensures Keeps(After(m, s), ck, TimeAfter(t, s))
  {
    if s.Evict? && ShouldEvict(config, s.roll) {
      EvictedIsSubmap(m.state, s.after, s.now, config.value.maxItems);
    }
  }

  lemma {:induction false} CarefulKeeps(config: Option<EvictOnSet>, m: Mem, sections: seq<Section>, ck: string, t: int)
    requires Keeps(m, ck, t) && Possible(config, m, sections) && Careful(m, sections, ck) && Clocked(t, sections)
    ensures Keeps(Run(m, sections), ck, Until(t, sections))
    decreases |sections|
  {
    if sections == [] {
    } else {
      SectionKeeps(config, m, sections[0], ck, t);
      CarefulKeeps(config, After(m, sections[0]), sections[1..], ck, TimeAfter(t, sections[0]));
    }
  }

  ghost predicate NoInsert(sections: seq<Section>, ck: string) {
    forall s :: s in sections && s.Insert? ==> s.ck != ck
  }

  lemma {:induction false} NoInsertIsCareful(m: Mem, sections: seq<Section>, ck: string)
    requires NoInsert(sections, ck)
    ensures Careful(m, sections, ck)
    decreases |sections|
  {
    if sections == [] {
    } else {
      assert sections[0] in sections;
      NoInsertIsCareful(After(m, sections[0]), sections[1..], ck);
    }
  }

  /** Some way of going on without another insertion under `ck` loses the entry that is there. */
  ghost predicate CanLose(config: Option<EvictOnSet>, m: Mem, ck: string, t: int) {
    exists sections ::
      && Possible(config, m, sections) && NoInsert(sections, ck) && Clocked(t, sections)
      && Lost(Run(m, sections), ck, Until(t, sections))
  }

  lemma DropLoses(config: Option<EvictOnSet>, m: Mem, ck: string, t: int)
    requires ck in m.dropsDue && ck in m.ideal && ck !in m.evicted && !m.ideal[ck].IsExpired(t)
    ensures CanLose(config, m, ck, t)
  {
    var drop := DropExpired(ck);
    var m' := After(m, drop);
    assert [drop][1..] == [] && Run(m', []) == m' && Until(t, []) == t && Possible(config, m', []) && Clocked(t, []);
    assert Run(m, [drop]) == m' && Until(t, [drop]) == t && Possible(config, m, [drop]) && Clocked(t, [drop]);
    assert Lost(m', ck, t);
  }

  /** After any run, with any evictions: an insertion can be lost, other than to expiry, eviction, removal or a later
      insertion, if and only if a `get` that saw an expired entry under that key has yet to delete, and the
      new entry has not expired. */
  lemma WriteLostExactly(config: Option<EvictOnSet>, before: seq<Section>, start: int, ck: string, entry: StoredEntry)
    requires Possible(config, EMPTY, before) && Clocked(start, before)
    ensures var m, t := Run(EMPTY, before), Until(start, before);
      CanLose(config, After(m, Insert(ck, entry)), ck, t) <==> ck in m.dropsDue && !entry.IsExpired(t)
  {
    var m, t := Run(EMPTY, before), Until(start, before);
    var m' := After(m, Insert(ck, entry));
    if ck in m.dropsDue && !entry.IsExpired(t) {
      DropLoses(config, m', ck, t);
    } else {
      assert Keeps(m', ck, t);
      forall sections | Possible(config, m', sections) && NoInsert(sections, ck) && Clocked(t, sections)
        ensures !Lost(Run(m', sections), ck, Until(t, sections))
      {
        NoInsertIsCareful(m', sections, ck);
        CarefulKeeps(config, m', sections, ck, t);
      }
    }
  }

  /** What a store that never deletes would show. */
  function Shown(m: Contents, ck: string, now: int): Option<StoredEntry> {
    if ck in m && now < m[ck].staleUntil then Some(m[ck]) else None
  }

  /** After any run in which nothing is inserted under `ck` while a delete is due there, a lookup of `ck` answers as a
      store that never deletes and filters by expiry, except that it misses what an eviction dropped. */
  lemma LookupsAreIdeal(config: Option<EvictOnSet>, before: seq<Section>, start: int, ck: string, now: int)
    requires Possible(config, EMPTY, before) && Careful(EMPTY, before, ck) && Clocked(start, before)
    requires Until(start, before) <= now
    ensures var m := Run(EMPTY, before);
      GetSpec(m.state, ck, now).0 == if ck in m.evicted && ck !in m.state then None else Shown(m.ideal, ck, now)
  {
    CarefulKeeps(config, EMPTY, before, ck, start);
  }

  /** And without a configuration, or at a frequency of zero or less, without that exception. */
  lemma LookupsAreIdealWithoutEviction(config: Option<EvictOnSet>, before: seq<Section>, start: int, ck: string,
      now: int)
    requires config.None? || config.value.frequency <= 0.0
    requires Possible(config, EMPTY, before) && Careful(EMPTY, before, ck) && Clocked(start, before)
    requires Until(start, before) <= now
    ensures GetSpec(Run(EMPTY, before).state, ck, now).0 == Shown(Run(EMPTY, before).ideal, ck, now)
  {
    NeverEvicts(config, EMPTY, before);
    LookupsAreIdeal(config, before, start, ck, now);
  }

  // ---------------------------------------------------------------- lazy deletion

  /** An operation that nothing interrupts, and the time at which it runs. */
  datatype Op =
    | GetOp(ck: string, now: int)
    | SetOp(ck: string, entry: StoredEntry, now: int)
    | RemoveOp(cks: set<string>, now: int)

  /** The store: expired entries are deleted when read. */
  function LazyAnswers(m: Contents, ops: seq<Op>): seq<Option<StoredEntry>>
    decreases |ops|
  {
    if ops == [] then [] else
    match ops[0]
    case GetOp(ck, now) => [GetSpec(m, ck, now).0] + LazyAnswers(GetSpec(m, ck, now).1, ops[1..])
    case SetOp(ck, entry, _) => LazyAnswers(m[ck := entry], ops[1..])
    case RemoveOp(cks, _) => LazyAnswers(m - cks, ops[1..])
  }

  /** The ideal: nothing is ever deleted on a read; an entry is visible until it expires. */
  function FilteredAnswers(m: Contents, ops: seq<Op>): seq<Option<StoredEntry>>
    decreases |ops|
  {
    if ops == [] then [] else
    match ops[0]
    case GetOp(ck, now) =>
      [Shown(m, ck, now)] + FilteredAnswers(m, ops[1..])
    case SetOp(ck, entry, _) => FilteredAnswers(m[ck := entry], ops[1..])
    case RemoveOp(cks, _) => FilteredAnswers(m - cks, ops[1..])
  }

  ghost predicate TimesFrom(t: int, ops: seq<Op>)
    decreases |ops|
  {
    ops != [] ==> t <= ops[0].now && TimesFrom(ops[0].now, ops[1..])
  }

  /** `lazy` lacks only entries that had expired by `t`. */
  ghost predicate LacksExpired(lazy: Contents, full: Contents, t: int) {
    Submap(lazy, full) && forall ck :: ck in full && ck !in lazy ==> full[ck].IsExpired(t)
  }

  /** Deleting on read cannot be observed: every `get` answers as the ideal does, for every sequence of
      operations under a clock that does not run backwards. */
  lemma {:induction false} LazyDeletionInvisible(lazy: Contents, full: Contents, t: int, ops: seq<Op>)
    requires LacksExpired(lazy, full, t) && TimesFrom(t, ops)
    ensures LazyAnswers(lazy, ops) == FilteredAnswers(full, ops)
    decreases |ops|
  {
    if ops == [] {
    } else {
      var now := ops[0].now;
      match ops[0] {
        case GetOp(ck, _) => LazyDeletionInvisible(GetSpec(lazy, ck, now).1, full, now, ops[1..]);
        case SetOp(ck, entry, _) => LazyDeletionInvisible(lazy[ck := entry], full[ck := entry], now, ops[1..]);
        case RemoveOp(cks, _) => LazyDeletionInvisible(lazy - cks, full - cks, now, ops[1..]);
      }
    }
  }

  /** A clock set back by one reading is enough to tell them apart. */
  lemma BackwardClockReveals(ck: string, entry: StoredEntry)
    ensures LazyAnswers(map[ck := entry], [GetOp(ck, entry.staleUntil), GetOp(ck, entry.staleUntil - 1)])
         != FilteredAnswers(map[ck := entry], [GetOp(ck, entry.staleUntil), GetOp(ck, entry.staleUntil - 1)])
  {
    var first, second := GetOp(ck, entry.staleUntil), GetOp(ck, entry.staleUntil - 1);
    var m: Contents := map[ck := entry];
    assert [first, second][1..] == [second] && [second][1..] == [];
    assert [second][1..] == [] && FilteredAnswers(m, []) == [];
    assert m[ck] == entry && second.now < m[ck].staleUntil;
    assert FilteredAnswers(m, [second]) == [Some(entry)] + FilteredAnswers(m, [second][1..]);
    assert LazyAnswers(m - {ck}, [second]) == [None] && FilteredAnswers(m, [second]) == [Some(entry)];
    assert LazyAnswers(m, [first, second]) == [None] + LazyAnswers(m - {ck}, [second]);
    assert FilteredAnswers(m, [first, second]) == [None] + FilteredAnswers(m, [second]);
    assert LazyAnswers(m, [first, second])[1] == None && FilteredAnswers(m, [first, second])[1] == Some(entry);
  }
}
