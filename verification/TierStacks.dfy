/** The loops of src/tiered.rs, over leaves that are changed in place. */
module TierStacks {
  import opened Wrappers
  import opened Entries
  import T = TieredStores

  class TierStack {
    var leaves: T.World
    const codec: Codec

    constructor (codec: Codec, leaves: T.World)
      ensures this.leaves == leaves && this.codec == codec
    {
      this.codec := codec;
      this.leaves := leaves;
    }

    /** The first hit, in the order of the tiers; the tiers before it are filled in the background. */
    method Get(store: T.Store, ck: string, env: T.Env) returns (reply: T.Reply)
      modifies this
      ensures (reply, leaves) == T.Get(codec, store, old(leaves), ck, env)
      decreases store
    {
      match store {
        case LeafStore(id) =>
          if id >= |leaves| {
            return Err(OperationError);
          }
          var (answer, leaf) := T.LeafGet(codec, leaves[id], id, ck, env);
          leaves := leaves[id := leaf];
          return answer;
        case Tiered(tiers) =>
          if tiers == [] {
            return Ok(None);
          }
          for i := 0 to |tiers|
            invariant T.GetFrom(codec, tiers, i, leaves, ck, env) == T.GetFrom(codec, tiers, 0, old(leaves), ck, env)
          {
            var res := Get(tiers[i], ck, env);
            if res.Err? {
              return res;
            }
            if res.value.Some? {
              if i > 0 {
                Backfill(tiers[..i], ck, res.value.value, env);
              }
              return res;
            }
          }
          return Ok(None);
      }
    }

    /** The spawned task of `Get`: it converts for each tier and goes on past a tier that refuses. */
    method Backfill(lower: seq<T.Store>, ck: string, stored: StoredEntry, env: T.Env)
      modifies this
      ensures leaves == T.Backfill(codec, lower, old(leaves), ck, stored, env)
    {
      for i := 0 to |lower|
        invariant T.Backfill(codec, lower[i..], leaves, ck, stored, env)
          == T.Backfill(codec, lower, old(leaves), ck, stored, env)
      {
        assert lower[i..][1..] == lower[i + 1..];
        var converted := ConvertForMode(codec, stored, T.Mode(leaves, lower[i]));
        if converted.Ok? {
          var _ := Set(lower[i], ck, converted.value, env);
        }
      }
    }

    /** Every tier is attempted; the first error is reported. */
    method Set(store: T.Store, ck: string, stored: StoredEntry, env: T.Env) returns (done: Result<(), CacheError>)
      modifies this
      ensures (done, leaves) == T.Set(codec, store, old(leaves), ck, stored, env)
      decreases store
    {
      match store {
        case LeafStore(id) =>
          if id >= |leaves| {
            return Err(OperationError);
          }
          var (result, leaf) := T.LeafSet(leaves[id], id, ck, stored, env);
          leaves := leaves[id := leaf];
          return result;
        case Tiered(tiers) =>
          done := Ok(());
          for i := 0 to |tiers|
            invariant var rest := T.SetAll(codec, tiers[i..], leaves, ck, stored, env);
              (if done.Err? then done else rest.0, rest.1) == T.SetAll(codec, tiers, old(leaves), ck, stored, env)
          {
            assert tiers[i..][1..] == tiers[i + 1..];
            var converted := ConvertForMode(codec, stored, T.Mode(leaves, tiers[i]));
            var result: Result<(), CacheError>;
            if converted.Ok? {
              result := Set(tiers[i], ck, converted.value, env);
            } else {
              result := Err(converted.error);
            }
            if done.Ok? {
              done := result;
            }
          }
          assert tiers[|tiers|..] == [] && (done.Ok? ==> done.value == ());
      }
    }

    method Remove(store: T.Store, ck: string, env: T.Env) returns (done: Result<(), CacheError>)
      modifies this
      ensures (done, leaves) == T.Remove(store, old(leaves), ck, env)
      decreases store
    {
      match store {
        case LeafStore(id) =>
          if id >= |leaves| {
            return Err(OperationError);
          }
          var (result, leaf) := T.LeafRemove(leaves[id], id, ck, env);
          leaves := leaves[id := leaf];
          return result;
        case Tiered(tiers) =>
          done := Ok(());
          for i := 0 to |tiers|
            invariant var rest := T.RemoveAll(tiers[i..], leaves, ck, env);
              (if done.Err? then done else rest.0, rest.1) == T.RemoveAll(tiers, old(leaves), ck, env)
          {
            assert tiers[i..][1..] == tiers[i + 1..];
            var result := Remove(tiers[i], ck, env);
            if done.Ok? {
              done := result;
            }
          }
          assert tiers[|tiers|..] == [] && (done.Ok? ==> done.value == ());
      }
    }
  }
}
