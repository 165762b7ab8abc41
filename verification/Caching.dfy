/** The in-memory TTL cache of app/core/cache.py. */
module Caching {
  import opened Clock
  import opened Wrappers

  datatype Entry<V> = Entry(value: V, expires: Time)

  /** An entry still counts at the very moment it expires. */
  function Lookup<V>(entries: map<string, Entry<V>>, key: string, now: Time): Option<V> {
    if key in entries && now <= entries[key].expires then Some(entries[key].value) else None
  }

  /** Looking a key up discards it when it has expired. */
  function AfterLookup<V>(entries: map<string, Entry<V>>, key: string, now: Time): map<string, Entry<V>> {
    if key in entries && entries[key].expires < now then entries - {key} else entries
  }

  function Dropped<V>(entries: map<string, Entry<V>>, prefix: string): map<string, Entry<V>> {
    map k | k in entries && !(prefix <= k) :: entries[k]
  }

  class Cache<V> {
    var entries: map<string, Entry<V>>

    constructor ()
      ensures entries == map[]
    {
      entries := map[];
    }

    method Get(key: string, now: Time) returns (value: Option<V>)
      modifies this
      ensures value == Lookup(old(entries), key, now)
      ensures entries == AfterLookup(old(entries), key, now)
      ensures key in old(entries) && now <= old(entries)[key].expires ==>
                value == Some(old(entries)[key].value) && entries == old(entries)
      ensures key in old(entries) && old(entries)[key].expires < now ==>
                value == None && entries == old(entries) - {key}
      ensures key !in old(entries) ==> value == None && entries == old(entries)
    {
      if key !in entries { return None; }
      var entry := entries[key];
      if now > entry.expires {
        entries := entries - {key};
        return None;
      }
      return Some(entry.value);
    }

    method Put(key: string, value: V, ttl: Time, now: Time)
      modifies this
      ensures entries == old(entries)[key := Entry(value, now + ttl)]
    {
      entries := entries[key := Entry(value, now + ttl)];
    }

    method Invalidate(key: string)
      modifies this
      ensures entries == old(entries) - {key}
    {
      entries := entries - {key};
    }

    method KeysWith(prefix: string) returns (keys: seq<string>)
      ensures forall k :: k in keys <==> k in entries && prefix <= k
    {
      keys := [];
      var rest := entries.Keys;
      while rest != {}
        invariant rest <= entries.Keys
        invariant forall k :: k in keys <==> k in entries.Keys - rest && prefix <= k
        decreases |rest|
      {
        var k :| k in rest;
        if prefix <= k { keys := keys + [k]; }
        rest := rest - {k};
      }
    }

    method InvalidatePrefix(prefix: string)
      modifies this
      ensures entries == Dropped(old(entries), prefix)
      ensures forall k :: k in entries <==> k in old(entries) && !(prefix <= k)
      ensures forall k :: k in entries ==> entries[k] == old(entries)[k]
    {
      var keysToDelete := KeysWith(prefix);
      for i := 0 to |keysToDelete|
        invariant forall k :: k in entries <==> k in old(entries) && k !in keysToDelete[..i]
        invariant forall k :: k in entries ==> entries[k] == old(entries)[k]
      {
        assert keysToDelete[..i + 1] == keysToDelete[..i] + [keysToDelete[i]];
        entries := entries - {keysToDelete[i]};
      }
      assert keysToDelete[..|keysToDelete|] == keysToDelete;
    }

    method Clear()
      modifies this
      ensures entries == map[]
    {
      entries := map[];
    }
  }
}
