/** The browser's key-value storage, shared by every component. */
module Storage {
  import opened Types

  /** Keys the application uses. */
  const FavoritesKey: string := "favoriteMovies"
  const WatchLaterKey: string := "watch_later_v1"
  const UserKey: string := "user_data"

  /** `getItem`: the parsed value under `key`, or None (`null`) when absent. */
  function Get(items: map<string, Value>, key: string): Option<Value> {
    if key in items then Some(items[key]) else None
  }

  /** A read after `setItem` sees the written value, a read after
      `removeItem` sees nothing, and neither disturbs a read of another
      key. */
  lemma ReadAfterWrite(items: map<string, Value>, key: string, other: string, v: Value)
    requires other != key
    ensures Get(items[key := v], key) == Some(v)
    ensures Get(items - {key}, key) == None
    ensures Get(items[key := v], other) == Get(items, other)
    ensures Get(items - {key}, other) == Get(items, other)
  {
  }

  class LocalStorage {
    var items: map<string, Value>

    constructor (initial: map<string, Value>)
      ensures items == initial
    {
      items := initial;
    }

    /** `setItem`: replaces (or creates) the entry under `key`, nothing else. */
    method SetItem(key: string, v: Value)
      modifies this
      ensures items == old(items)[key := v]
    {
      items := items[key := v];
    }

    /** `removeItem`: drops the entry under `key`, nothing else. */
    method RemoveItem(key: string)
      modifies this
      ensures items == old(items) - {key}
    {
      items := items - {key};
    }
  }
}
