/**
 * The browser's key/value store as the game sees it. The game only reads and writes whole string
 * entries under a handful of keys; the store itself is outside the model and stands here as a map.
 */
module Storage {
  import opened Wrappers

  /** The keys the game stores entries under. */
  datatype StorageKey = OnboardingStepKey | DifficultyKey | DifficultyEasyKey | DifficultyMediumKey | DifficultyHardKey | DifficultyExtremeKey

  /** A stored entry counts as present in a JavaScript condition only when it exists and is not empty. */
  predicate IsSet(entry: Option<string>) {
    entry.Some? && entry.value != ""
  }

  /** The entry stored under `key` in a map of entries, if any. */
  function Lookup(items: map<StorageKey, string>, key: StorageKey): (r: Option<string>)
    ensures r.Some? <==> key in items
    ensures r.Some? ==> r.value == items[key]
  {
    if key in items then Some(items[key]) else None
  }

  class LocalStorage {
    var items: map<StorageKey, string>

    constructor(items: map<StorageKey, string>)
      ensures this.items == items
    {
      this.items := items;
    }

    /** `getLocalStorageItem`, as the game calls it: the stored entry, if any. */
    function Get(key: StorageKey): (r: Option<string>)
      reads this
      ensures r.Some? <==> key in items
      ensures r.Some? ==> r.value == items[key]
    {
      Lookup(items, key)
    }

    /** `setLocalStorageItem`: replaces the entry under `key` and nothing else. */
    method Set(key: StorageKey, value: string)
      modifies this
      ensures items == old(items)[key := value]
      ensures Get(key) == Some(value)
    {
      items := items[key := value];
    }
  }
}
