/** Cache entries and their two stored forms (src/entry.rs). */
module Entries {
  import opened Wrappers

  /** The type a cache holds; nothing is assumed about it. */
  type Value(!new)

  datatype CacheError = OperationError | SerializationError

  datatype StorageMode = TypedMode | SerializedMode

  datatype Entry = Entry(value: Value, freshUntil: int, staleUntil: int) {
    predicate IsFresh(now: int) { now < freshUntil }

    predicate IsStale(now: int) { freshUntil <= now < staleUntil }

    predicate IsExpired(now: int) { staleUntil <= now }
  }

  datatype Metadata = Metadata(freshUntil: int, staleUntil: int)

  /** serde_json, seen from outside: `encode` may refuse a value, `metadata` is the partial decode
      that reads the two timestamps only. */
  datatype Codec = Codec(
    encode: Entry -> Option<string>,
    decode: string -> Option<Entry>,
    metadata: string -> Option<Metadata>)
  {
    ghost predicate RoundTrips() {
      && (forall e :: encode(e).Some? ==> decode(encode(e).value) == Some(e))
      && (forall s :: decode(s).Some? ==>
            metadata(s) == Some(Metadata(decode(s).value.freshUntil, decode(s).value.staleUntil)))
    }
  }

  /** `serializer` is the closure of src/entry.rs:121-126, given by the entry it captured. */
  datatype StoredEntry =
    | Typed(value: Value, freshUntil: int, staleUntil: int, serializer: Option<Entry>)
    | Serialized(data: string, freshUntil: int, staleUntil: int)
  {
    predicate IsExpired(now: int) { staleUntil <= now }
  }

  function FromTypedWithSerializer(value: Value, freshUntil: int, staleUntil: int): StoredEntry {
    Typed(value, freshUntil, staleUntil, Some(Entry(value, freshUntil, staleUntil)))
  }

  function IntoTyped(codec: Codec, stored: StoredEntry): Result<Entry, CacheError> {
    match stored
    case Typed(value, freshUntil, staleUntil, _) => Ok(Entry(value, freshUntil, staleUntil))
    case Serialized(data, _, _) =>
      match codec.decode(data)
      case Some(entry) => Ok(entry)
      case None => Err(SerializationError)
  }

  function ToSerialized(codec: Codec, stored: StoredEntry): Result<StoredEntry, CacheError> {
    match stored
    case Serialized(_, _, _) => Ok(stored)
    case Typed(_, freshUntil, staleUntil, Some(captured)) =>
      (match codec.encode(captured)
       case Some(data) => Ok(Serialized(data, freshUntil, staleUntil))
       case None => Err(SerializationError))
    case Typed(_, _, _, None) => Err(SerializationError)
  }

  function ConvertForMode(codec: Codec, stored: StoredEntry, mode: StorageMode): Result<StoredEntry, CacheError> {
    if stored.Typed? && mode.SerializedMode? then ToSerialized(codec, stored) else Ok(stored)
  }

  /** How `set`, `cache_value` and the revalidation task build the entry they hand to the store
      (src/swr.rs:147-159, 180-200, 365-382). */
  function BuildStored(codec: Codec, entry: Entry, mode: StorageMode): Result<StoredEntry, CacheError> {
    match mode
    case TypedMode => Ok(FromTypedWithSerializer(entry.value, entry.freshUntil, entry.staleUntil))
    case SerializedMode =>
      match codec.encode(entry)
      case Some(data) => Ok(Serialized(data, entry.freshUntil, entry.staleUntil))
      case None => Err(SerializationError)
  }

  /** `stored` is a representation of `entry`: it decodes to it, its outer timestamps are the embedded
      ones, and a serializer, when it has one, would write that same entry. */
  ghost predicate Represents(codec: Codec, stored: StoredEntry, entry: Entry) {
    && IntoTyped(codec, stored) == Ok(entry)
    && stored.freshUntil == entry.freshUntil
    && stored.staleUntil == entry.staleUntil
    && (stored.Typed? ==> stored.serializer == Some(entry))
  }

  lemma BuiltRepresents(codec: Codec, entry: Entry, mode: StorageMode)
    requires codec.RoundTrips()
    ensures BuildStored(codec, entry, mode).Ok? <==> mode.TypedMode? || codec.encode(entry).Some?
    ensures BuildStored(codec, entry, mode).Ok? ==>
      && Represents(codec, BuildStored(codec, entry, mode).value, entry)
      && (mode.SerializedMode? <==> BuildStored(codec, entry, mode).value.Serialized?)
  {
  }

  lemma ConvertedRepresents(codec: Codec, stored: StoredEntry, entry: Entry, mode: StorageMode)
    requires codec.RoundTrips()
    requires Represents(codec, stored, entry)
    ensures ConvertForMode(codec, stored, mode).Ok? ==>
      && Represents(codec, ConvertForMode(codec, stored, mode).value, entry)
      && (mode.SerializedMode? ==> ConvertForMode(codec, stored, mode).value.Serialized?)
    ensures ConvertForMode(codec, stored, mode).Ok? <==>
      stored.Serialized? || mode.TypedMode? || codec.encode(entry).Some?
  {
  }

  /** An entry carried through tiers of the given modes, one conversion after another. */
  function ConvertChain(codec: Codec, stored: StoredEntry, modes: seq<StorageMode>): Result<StoredEntry, CacheError>
    decreases |modes|
  {
    if modes == [] then Ok(stored) else
    match ConvertForMode(codec, stored, modes[0])
    case Ok(next) => ConvertChain(codec, next, modes[1..])
    case Err(e) => Err(e)
  }

  /** However long the chain, the entry keeps its meaning, and the chain breaks exactly when it has to
      serialize a value the codec refuses. */
  lemma {:induction false} ConversionPreservesMeaning(codec: Codec, stored: StoredEntry, entry: Entry,
      modes: seq<StorageMode>)
    requires codec.RoundTrips()
    requires Represents(codec, stored, entry)
    ensures ConvertChain(codec, stored, modes).Ok? ==>
      && Represents(codec, ConvertChain(codec, stored, modes).value, entry)
      && (modes != [] && modes[|modes| - 1].SerializedMode? ==> ConvertChain(codec, stored, modes).value.Serialized?)
    ensures ConvertChain(codec, stored, modes).Err? <==>
      stored.Typed? && SerializedMode in modes && codec.encode(entry).None?
    decreases |modes|
  {
    if modes == [] {
    } else {
      ConvertedRepresents(codec, stored, entry, modes[0]);
      assert modes == [modes[0]] + modes[1..];
      if ConvertForMode(codec, stored, modes[0]).Ok? {
        var next := ConvertForMode(codec, stored, modes[0]).value;
        ConversionPreservesMeaning(codec, next, entry, modes[1..]);
        if |modes| > 1 {
          assert modes[1..][|modes[1..]| - 1] == modes[|modes| - 1];
        }
      }
    }
  }

  /** The three ages are exclusive and exhaustive at every instant exactly when the fresh window does
      not outlast the stale one; otherwise an entry is both fresh and expired in between. */
  lemma AgesPartitionTime(e: Entry)
    ensures e.freshUntil <= e.staleUntil <==>
      forall now :: (e.IsFresh(now) || e.IsStale(now) || e.IsExpired(now)) && !(e.IsFresh(now) && e.IsExpired(now))
  {
    if e.staleUntil < e.freshUntil {
      assert e.IsFresh(e.staleUntil) && e.IsExpired(e.staleUntil);
    }
  }
}
