/** The composite key under which stores and the revalidation map file an entry (src/utils.rs). */
module Keys {

  /** The separator is a single colon; the doc comment beside the code promises two. */
  function BuildCacheKey(ns: string, key: string): (ck: string) {
    ns + ":" + key
  }

  predicate ColonFree(s: string) {
    ':' !in s
  }

  /** Two colon-free namespaces can only agree on a composite key if they are the same namespace. */
  lemma SamePrefix(ns1: string, key1: string, ns2: string, key2: string)
    requires ColonFree(ns1) && ColonFree(ns2)
    requires BuildCacheKey(ns1, key1) == BuildCacheKey(ns2, key2)
    ensures |ns1| == |ns2|
  {
    var ck := BuildCacheKey(ns1, key1);
    assert ck[|ns1|] == ':' == ck[|ns2|];
    assert forall i :: 0 <= i < |ns1| ==> ck[i] == ns1[i] != ':';
    assert forall i :: 0 <= i < |ns2| ==> ck[i] == ns2[i] != ':';
  }

  /** On colon-free namespaces the key is injective; keys may contain colons. */
  lemma KeyIsInjective(ns1: string, key1: string, ns2: string, key2: string)
    requires ColonFree(ns1) && ColonFree(ns2)
    ensures BuildCacheKey(ns1, key1) == BuildCacheKey(ns2, key2) <==> ns1 == ns2 && key1 == key2
  {
    if BuildCacheKey(ns1, key1) == BuildCacheKey(ns2, key2) {
      SamePrefix(ns1, key1, ns2, key2);
      var ck, n := BuildCacheKey(ns1, key1), |ns1|;
      assert ns1 == ck[..n] == ns2;
      assert key1 == ck[n + 1..] == key2;
    }
  }

  /** The namespaces that share a composite key with `ns` are exactly those it extends, or that
      extend it, at a colon: isolation between two caches fails precisely there. */
  lemma CollisionExactly(ns1: string, ns2: string)
    requires |ns1| < |ns2|
    ensures (exists key1, key2 :: BuildCacheKey(ns1, key1) == BuildCacheKey(ns2, key2))
       <==> ns1 + ":" <= ns2
  {
    if ns1 + ":" <= ns2 {
      var key1 := ns2[|ns1| + 1..] + ":";
      assert ns2 == ns1 + ":" + ns2[|ns1| + 1..];
      assert BuildCacheKey(ns1, key1) == BuildCacheKey(ns2, "");
    }
    forall key1, key2 | BuildCacheKey(ns1, key1) == BuildCacheKey(ns2, key2)
      ensures ns1 + ":" <= ns2
    {
      var ck := BuildCacheKey(ns1, key1);
      assert ns1 + ":" == ck[..|ns1| + 1];
      assert ns2[..|ns1| + 1] == ck[..|ns1| + 1];
    }
  }
}
