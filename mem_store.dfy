/**
 * The first, in-memory `KvStore`: a hash map from keys to values that
 * `set` and `remove` update in place.
 */
module MemKvStore {
  import opened Wrappers

  class KvStore {
    var table: map<string, string>

    /** `new`: an empty store, which holds no value for any key. */
    constructor New()
      ensures table == map[]
      ensures forall key :: key !in table
    {
      table := map[];
    }

    /** `set`: the key now holds the value; every other key keeps its own. */
    method Set(key: string, value: string)
      modifies this
      ensures table == old(table)[key := value]
      ensures key in table && table[key] == value
      ensures forall k :: k != key ==> (k in table <==> k in old(table)) && (k in table ==> table[k] == old(table)[k])
    {
      table := table[key := value];
    }

    /** `get`: the value the key holds, or `None`; the store is left as it is. */
    method Get(key: string) returns (r: Option<string>)
      ensures r.Some? <==> key in table
      ensures r.Some? ==> r.value == table[key]
    {
      r := if key in table then Some(table[key]) else None;
    }

    /**
     * `remove`: the key no longer holds a value; every other key keeps its
     * own, and removing a key that holds none changes nothing and reports nothing.
     */
    method Remove(key: string)
      modifies this
      ensures table == old(table) - {key}
      ensures key !in table
      ensures key !in old(table) ==> table == old(table)
      ensures forall k :: k != key ==> (k in table <==> k in old(table)) && (k in table ==> table[k] == old(table)[k])
    {
      table := table - {key};
    }
  }

  /**
   * A sequence of calls on a fresh store: a value set is read back, a second
   * `set` overwrites it, and after `remove` the key reads as absent again.
   */
  method SetGetRemove(key: string, first: string, second: string) returns (before: Option<string>, after: Option<string>, overwritten: Option<string>, removed: Option<string>)
    ensures before == None
    ensures after == Some(first)
    ensures overwritten == Some(second)
    ensures removed == None
  {
    var store := new KvStore.New();
    before := store.Get(key);
    store.Set(key, first);
    after := store.Get(key);
    store.Set(key, second);
    overwritten := store.Get(key);
    store.Remove(key);
    removed := store.Get(key);
  }
}
