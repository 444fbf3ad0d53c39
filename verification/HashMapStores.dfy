/** The in-memory store (src/stores/memory.rs): one map, changed in place under a lock. */
module HashMapStores {
  import opened Wrappers
  import opened Entries
  import opened Keys

  type Contents = map<string, StoredEntry>

  datatype EvictOnSet = EvictOnSet(frequency: real, maxItems: nat)

  predicate ShouldEvict(config: Option<EvictOnSet>, roll: real) {
    match config
    case None => false
    case Some(c) => c.frequency > 0.0 && (c.frequency >= 1.0 || roll < c.frequency)
  }

  function Unexpired(m: Contents, now: int): Contents {
    map ck | ck in m && m[ck].staleUntil > now :: m[ck]
  }

  ghost predicate Submap(small: Contents, big: Contents) {
    forall ck :: ck in small ==> ck in big && small[ck] == big[ck]
  }

  /** `after` is what an eviction leaves of the unexpired entries `u`: all of them if they fit, otherwise
      `maxItems` of them, none expiring earlier than one that was dropped. */
  ghost predicate Newest(u: Contents, after: Contents, maxItems: nat) {
    if |u| <= maxItems then after == u
    else
      && |after| == maxItems
      && Submap(after, u)
      && forall kept, dropped :: kept in after && dropped in u && dropped !in after ==>
           u[dropped].staleUntil <= u[kept].staleUntil
  }

  ghost predicate Evicted(before: Contents, after: Contents, now: int, maxItems: nat) {
    Newest(Unexpired(before, now), after, maxItems)
  }

  lemma EvictedIsSubmap(before: Contents, after: Contents, now: int, maxItems: nat)
    requires Evicted(before, after, now, maxItems)
    ensures Submap(after, before) && |after| <= maxItems
  {
  }

  /** The keys that have not expired at `now`. */
  function LiveKeys(m: Contents, now: int): set<string> {
    set ck | ck in m && m[ck].staleUntil > now
  }

  /** What an eviction is, entry by entry: it leaves unexpired entries only, as they were; all of them if they are
      `maxItems` or fewer, otherwise `maxItems`; and it drops no unexpired entry for one that expires earlier. */
  ghost predicate ExactlyEvicts(before: Contents, after: Contents, now: int, maxItems: nat) {
    var live := LiveKeys(before, now);
    && (forall ck :: ck in after ==> ck in live && after[ck] == before[ck])
    && |after| == (if |live| <= maxItems then |live| else maxItems)
    && forall kept, dropped :: kept in after && dropped in live && dropped !in after ==>
         before[dropped].staleUntil <= before[kept].staleUntil
  }

  lemma UnexpiredAreLive(m: Contents, now: int)
    ensures Unexpired(m, now).Keys == LiveKeys(m, now) && |Unexpired(m, now)| == |LiveKeys(m, now)|
    ensures forall ck :: ck in Unexpired(m, now) ==> Unexpired(m, now)[ck] == m[ck]
  {
    assert Unexpired(m, now).Keys == LiveKeys(m, now);
  }

  lemma FullSubmap(small: Contents, big: Contents)
    requires Submap(small, big) && |small| == |big|
    ensures small == big
  {
    assert big.Keys == small.Keys + (big.Keys - small.Keys);
    assert big.Keys - small.Keys == {};
  }

  lemma EvictedExactly(before: Contents, after: Contents, now: int, maxItems: nat)
    ensures Evicted(before, after, now, maxItems) <==> ExactlyEvicts(before, after, now, maxItems)
  {
    UnexpiredAreLive(before, now);
    var u := Unexpired(before, now);
    if ExactlyEvicts(before, after, now, maxItems) && |u| <= maxItems {
      FullSubmap(after, u);
    }
  }

  /** An atomic `get`: what it answers, and what it leaves. */
  function GetSpec(m: Contents, ck: string, now: int): (Option<StoredEntry>, Contents) {
    if ck !in m then (None, m)
    else if m[ck].IsExpired(now) then (None, m - {ck})
    else (Some(m[ck]), m)
  }

  // ---------------------------------------------------------------- the sort of the eviction

  type Expiry = (string, int)

  ghost predicate SortedByExpiry(entries: seq<Expiry>) {
    forall i, j :: 0 <= i < j < |entries| ==> entries[i].1 <= entries[j].1
  }

  ghost predicate DistinctKeys(entries: seq<Expiry>) {
    forall i, j :: 0 <= i < j < |entries| ==> entries[i].0 != entries[j].0
  }

  ghost predicate SameElements(xs: seq<Expiry>, ys: seq<Expiry>) {
    |xs| == |ys| && forall x :: x in xs <==> x in ys
  }

  function InsertByExpiry(x: Expiry, entries: seq<Expiry>): seq<Expiry> {
    if entries == [] || x.1 < entries[0].1 then [x] + entries
    else [entries[0]] + InsertByExpiry(x, entries[1..])
  }

  /** `sort_by_key`, a library call: only that it sorts and permutes is used. */
  function SortByExpiry(entries: seq<Expiry>): seq<Expiry> {
    if entries == [] then [] else InsertByExpiry(entries[0], SortByExpiry(entries[1..]))
  }

  lemma {:induction false} InsertKeepsElements(x: Expiry, entries: seq<Expiry>)
    ensures SameElements(InsertByExpiry(x, entries), [x] + entries)
  {
    if entries != [] && x.1 >= entries[0].1 {
      InsertKeepsElements(x, entries[1..]);
      assert entries == [entries[0]] + entries[1..];
      assert forall y :: y in [x] + entries <==> y == entries[0] || y in [x] + entries[1..];
    }
  }

  lemma {:induction false} InsertSorts(x: Expiry, entries: seq<Expiry>)
    requires SortedByExpiry(entries)
    ensures SortedByExpiry(InsertByExpiry(x, entries))
  {
    if entries != [] && x.1 >= entries[0].1 {
      var rest := InsertByExpiry(x, entries[1..]);
      InsertSorts(x, entries[1..]);
      InsertKeepsElements(x, entries[1..]);
      forall i | 0 <= i < |rest| ensures entries[0].1 <= rest[i].1 {
        assert rest[i] in [x] + entries[1..];
      }
    }
  }

  lemma {:induction false} InsertKeepsDistinct(x: Expiry, entries: seq<Expiry>)
    requires DistinctKeys(entries) && forall y :: y in entries ==> y.0 != x.0
    ensures DistinctKeys(InsertByExpiry(x, entries))
  {
    if entries != [] && x.1 >= entries[0].1 {
      var rest := InsertByExpiry(x, entries[1..]);
      InsertKeepsDistinct(x, entries[1..]);
      InsertKeepsElements(x, entries[1..]);
      forall i | 0 <= i < |rest| ensures entries[0].0 != rest[i].0 {
        assert rest[i] in [x] + entries[1..];
      }
    }
  }

  lemma {:induction false} SortIsSort(entries: seq<Expiry>)
    requires DistinctKeys(entries)
    ensures var r := SortByExpiry(entries); SortedByExpiry(r) && SameElements(r, entries) && DistinctKeys(r)
  {
    if entries == [] {
    } else {
      var x, rest := entries[0], SortByExpiry(entries[1..]);
      SortIsSort(entries[1..]);
      assert entries == [x] + entries[1..];
      InsertKeepsElements(x, rest);
      InsertSorts(x, rest);
      assert forall y :: y in rest ==> y in entries[1..];
      InsertKeepsDistinct(x, rest);
    }
  }

  /** `entries` lists the keys of `m` once each, with their expiry. */
  ghost predicate Lists(entries: seq<Expiry>, m: Contents) {
    && DistinctKeys(entries)
    && (forall x :: x in entries ==> x.0 in m && x.1 == m[x.0].staleUntil)
    && (forall ck :: ck in m ==> (ck, m[ck].staleUntil) in entries)
    && |entries| == |m|
  }

  /** The keys of the first `n` of a listing. */
  function FirstKeys(entries: seq<Expiry>, n: nat): set<string>
    requires n <= |entries|
  {
    set i | 0 <= i < n :: entries[i].0
  }

  /** One more key of the listing is dropped. */
  lemma FirstKeysNext(entries: seq<Expiry>, n: nat)
    requires n < |entries|
    ensures FirstKeys(entries, n + 1) == FirstKeys(entries, n) + {entries[n].0}
  {
  }

  lemma {:induction false} FirstKeysSize(entries: seq<Expiry>, n: nat)
    requires DistinctKeys(entries) && n <= |entries|
    ensures |FirstKeys(entries, n)| == n
  {
    if n == 0 {
      assert FirstKeys(entries, 0) == {};
    } else {
      FirstKeysSize(entries, n - 1);
      FirstKeysNext(entries, n - 1);
      assert entries[n - 1].0 !in FirstKeys(entries, n - 1);
    }
  }

  lemma SubtractSize(m: Contents, cks: set<string>)
    requires cks <= m.Keys
    ensures |m - cks| == |m| - |cks|
  {
    assert (m - cks).Keys == m.Keys - cks;
  }

  lemma SubtractTwice(m: Contents, a: set<string>, b: set<string>)
    ensures m - a - b == m - (a + b)
  {
  }

  lemma SubtractFirst(m: Contents, entries: seq<Expiry>, n: nat)
    requires n < |entries|
    ensures m - FirstKeys(entries, 0) == m
    ensures m - FirstKeys(entries, n) - {entries[n].0} == m - FirstKeys(entries, n + 1)
  {
    FirstKeysNext(entries, n);
    SubtractTwice(m, FirstKeys(entries, n), {entries[n].0});
  }

  /** A listing names each key once, so dropping its first `n` keys drops `n` entries. */
  lemma DroppedSize(m: Contents, entries: seq<Expiry>, n: nat)
    requires Lists(entries, m) && n <= |entries|
    ensures |m - FirstKeys(entries, n)| == |m| - n
  {
    FirstKeysSize(entries, n);
    forall i | 0 <= i < n ensures entries[i].0 in m.Keys {
      assert entries[i] in entries;
    }
    SubtractSize(m, FirstKeys(entries, n));
  }

  /** What is kept stands in the listing after everything that is dropped. */
  lemma DroppedComesFirst(u: Contents, entries: seq<Expiry>, n: nat, kept: string, dropped: string)
    requires Lists(entries, u) && SortedByExpiry(entries) && n <= |entries|
    requires kept in u && kept !in FirstKeys(entries, n) && dropped in FirstKeys(entries, n)
    ensures dropped in u && u[dropped].staleUntil <= u[kept].staleUntil
  {
    var i :| 0 <= i < n && entries[i].0 == dropped;
    assert entries[i] in entries && (kept, u[kept].staleUntil) in entries;
    var j :| 0 <= j < |entries| && entries[j] == (kept, u[kept].staleUntil);
  }

  /** Dropping the first of a sorted listing leaves the newest. */
  lemma DroppingOldestLeavesNewest(u: Contents, entries: seq<Expiry>, n: nat)
    requires Lists(entries, u) && SortedByExpiry(entries) && n <= |entries|
    ensures Newest(u, u - FirstKeys(entries, n), |u| - n)
  {
    var after := u - FirstKeys(entries, n);
    DroppedSize(u, entries, n);
    if n == 0 {
      assert after == u;
    } else {
      forall kept, dropped | kept in after && dropped in u && dropped !in after
        ensures u[dropped].staleUntil <= u[kept].staleUntil
      {
        DroppedComesFirst(u, entries, n, kept, dropped);
      }
    }
  }

  class HashMapStore {
    var state: Contents
    const evictOnSet: Option<EvictOnSet>

    constructor (evictOnSet: Option<EvictOnSet>)
      ensures state == map[] && this.evictOnSet == evictOnSet
    {
      state := map[];
      this.evictOnSet := evictOnSet;
    }

    /** The map's entries in whatever order it iterates. */
    method CollectExpiries() returns (entries: seq<Expiry>)
      ensures Lists(entries, state)
    {
      entries := [];
      var todo := state.Keys;
      while todo != {}
        invariant todo <= state.Keys && |entries| + |todo| == |state|
        invariant DistinctKeys(entries)
        invariant forall x :: x in entries ==> x.0 in state && x.0 !in todo && x.1 == state[x.0].staleUntil
        invariant forall ck :: ck in state && ck !in todo ==> (ck, state[ck].staleUntil) in entries
      {
        var ck :| ck in todo;
        todo := todo - {ck};
        entries := entries + [(ck, state[ck].staleUntil)];
      }
    }

    /** Eviction is exact, whatever the iteration order. */
    method MaybeEvict(now: int, roll: real)
      modifies this
      ensures if ShouldEvict(evictOnSet, roll) then Evicted(old(state), state, now, evictOnSet.value.maxItems)
              else state == old(state)
      ensures evictOnSet.None? || evictOnSet.value.frequency <= 0.0 ==> state == old(state)
      ensures evictOnSet.Some? && (evictOnSet.value.frequency >= 1.0 || 0.0 <= roll < evictOnSet.value.frequency) ==>
        ExactlyEvicts(old(state), state, now, evictOnSet.value.maxItems)
      ensures evictOnSet.Some? && evictOnSet.value.frequency < 1.0 && roll >= evictOnSet.value.frequency ==>
        state == old(state)
    {
      if evictOnSet.None? || evictOnSet.value.frequency <= 0.0 {
        return;
      }
      var shouldEvict := if evictOnSet.value.frequency >= 1.0 then true else roll < evictOnSet.value.frequency;
      if !shouldEvict {
        return;
      }
      state := Unexpired(state, now);
      var maxItems := evictOnSet.value.maxItems;
      if |state| > maxItems {
        var entries := CollectExpiries();
        SortIsSort(entries);
        RemoveOldest(SortByExpiry(entries), |state| - maxItems);
      }
      EvictedExactly(old(state), state, now, maxItems);
    }

    /** The eviction loop, over the sorted entries. */
    method RemoveOldest(entries: seq<Expiry>, toRemove: nat)
      requires Lists(entries, state) && SortedByExpiry(entries) && toRemove <= |entries|
      modifies this
      ensures Newest(old(state), state, |old(state)| - toRemove)
    {
      assert state - FirstKeys(entries, 0) == state;
      for i := 0 to toRemove
        invariant state == old(state) - FirstKeys(entries, i)
      {
        SubtractFirst(old(state), entries, i);
        state := state - {entries[i].0};
      }
      DroppingOldestLeavesNewest(old(state), entries, toRemove);
    }

    /** The read-lock section of `get`; `expired` says that the write-lock section is to follow. */
    method Lookup(ns: string, key: string, now: int) returns (found: Option<StoredEntry>, expired: bool)
      ensures var ck := BuildCacheKey(ns, key);
        && (expired <==> ck in state && state[ck].IsExpired(now))
        && found == GetSpec(state, ck, now).0
    {
      var ck := BuildCacheKey(ns, key);
      if ck !in state {
        return None, false;
      }
      if state[ck].IsExpired(now) {
        return None, true;
      }
      return Some(state[ck]), false;
    }

    /** The write-lock section of `get`, after an expired lookup; it does not look again. */
    method DropExpired(ns: string, key: string)
      modifies this
      ensures state == old(state) - {BuildCacheKey(ns, key)}
    {
      state := state - {BuildCacheKey(ns, key)};
    }

    /** `get`, when nothing comes between its two sections. */
    method Get(ns: string, key: string, now: int) returns (found: Option<StoredEntry>)
      modifies this
      ensures (found, state) == GetSpec(old(state), BuildCacheKey(ns, key), now)
    {
      var expired;
      found, expired := Lookup(ns, key, now);
      if expired {
        DropExpired(ns, key);
      }
    }

    /** `set`, when nothing comes between the insertion and the eviction. */
    method Set(ns: string, key: string, entry: StoredEntry, now: int, roll: real)
      modifies this
      ensures var inserted := old(state)[BuildCacheKey(ns, key) := entry];
        if ShouldEvict(evictOnSet, roll) then Evicted(inserted, state, now, evictOnSet.value.maxItems)
        else state == inserted
      ensures var inserted := old(state)[BuildCacheKey(ns, key) := entry];
        && (evictOnSet.None? || evictOnSet.value.frequency <= 0.0 ==> state == inserted)
        && (evictOnSet.Some? && (evictOnSet.value.frequency >= 1.0 || 0.0 <= roll < evictOnSet.value.frequency) ==>
              ExactlyEvicts(inserted, state, now, evictOnSet.value.maxItems))
        && (evictOnSet.Some? && evictOnSet.value.frequency < 1.0 && roll >= evictOnSet.value.frequency ==>
          state == inserted)
    {
      state := state[BuildCacheKey(ns, key) := entry];
      MaybeEvict(now, roll);
    }

    method Remove(ns: string, keys: seq<string>)
      modifies this
      ensures state == old(state) - set i | 0 <= i < |keys| :: BuildCacheKey(ns, keys[i])
    {
      for n := 0 to |keys|
        invariant state == old(state) - set i | 0 <= i < n :: BuildCacheKey(ns, keys[i])
      {
        state := state - {BuildCacheKey(ns, keys[n])};
      }
    }
  }

  /** With distinct expiries there is only one exact outcome. */
  lemma NewestIsUnique(u: Contents, a: Contents, b: Contents, maxItems: nat)
    requires Newest(u, a, maxItems) && Newest(u, b, maxItems)
    requires forall k1, k2 :: k1 in u && k2 in u && u[k1].staleUntil == u[k2].staleUntil ==> k1 == k2
    ensures a == b
  {
    if |u| > maxItems {
      assert forall k, d :: k in a.Keys - b.Keys && d in b.Keys - a.Keys ==> k == d;
      EqualSizes(a.Keys, b.Keys);
    }
  }

  lemma EqualSizes(a: set<string>, b: set<string>)
    requires |a| == |b|
    ensures a == b || exists k, d :: k in a - b && d in b - a
  {
    assert a == (a * b) + (a - b) && b == (a * b) + (b - a);
    assert |a - b| == |b - a|;
    if a - b != {} {
      var k :| k in a - b;
      var d :| d in b - a;
    }
  }
}
