/** The reference state store (internal/state/memory.go): a flat map from keys to values. */
module FlatStore {
  import opened Wrappers
  import opened Ordered
  import opened Text

  /** Failed stands for every error that is neither of the two sentinel errors. */
  datatype StoreError = NotFound | Exists | Failed

  /** The keys below a prefix, on segment boundaries. */
  function KeysBelow<V>(values: map<string, V>, prefix: string): set<string> {
    set k | k in values && HasSegmentPrefix(k, prefix)
  }

  /** Listing "a/b" gives "a/b" and what lies below it, and never "a/bc"; a trailing slash makes no
      difference. */
  lemma ListsWholeSegments(prefix: string, key: string)
    requires prefix != "" && prefix[|prefix| - 1] != '/'
    ensures HasSegmentPrefix(key, prefix) <==> key == prefix || (prefix < key && key[|prefix|] == '/')
    ensures HasSegmentPrefix(key, prefix + "/") <==> HasSegmentPrefix(key, prefix)
    ensures HasSegmentPrefix(key, "")
  {
    assert (prefix + "/")[..|prefix|] == prefix;
    assert prefix < key && key[|prefix|] == '/' ==> key[..|prefix| + 1] == prefix + "/";
  }

  class MemoryStore<V> {
    var values: map<string, V>

    constructor ()
      ensures values == map[]
    {
      values := map[];
    }

    method Get(key: string) returns (r: Result<V, StoreError>)
      ensures r == if key in values then Ok(values[key]) else Err(NotFound)
    {
      r := if key in values then Ok(values[key]) else Err(NotFound);
    }

    /** Creating never destroys anything. */
    method Create(key: string, value: V) returns (r: Result<(), StoreError>)
      modifies this
      ensures r == if key in old(values) then Err(Exists) else Ok(())
      ensures values == if key in old(values) then old(values) else old(values)[key := value]
    {
      if key in values {
        return Err(Exists);
      }
      values := values[key := value];
      r := Ok(());
    }

    method Replace(key: string, value: V) returns (r: Result<(), StoreError>)
      modifies this
      ensures r == Ok(()) && values == old(values)[key := value]
    {
      values := values[key := value];
      r := Ok(());
    }

    method Delete(key: string) returns (r: Result<(), StoreError>)
      modifies this
      ensures r == if key in old(values) then Ok(()) else Err(NotFound)
      ensures values == old(values) - {key}
    {
      if key !in values {
        return Err(NotFound);
      }
      values := values - {key};
      r := Ok(());
    }

    /** Every key below the prefix and no other, in lexical order. */
    method List(prefix: string) returns (keys: seq<string>)
      ensures keys == Listing(KeysBelow(values, prefix))
    {
      keys := SortStrings(KeysBelow(values, prefix));
    }
  }
}
