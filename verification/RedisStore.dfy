/** The part of Redis (sw::redis::Redis) that the caches use: strings with a time to live. */
module RedisStore {
  import opened Options
  import opened TieredCache

  class Redis<V> {
    var store: Remote<V>

    constructor ()
      ensures store == map[]
    {
      store := map[];
    }

    method Get(key: string, now: nat) returns (value: Option<V>)
      ensures value == if Visible(store, key, now) then Some(store[key].value) else None
    {
      value := if key in store && now <= store[key].expiry then Some(store[key].value) else None;
    }

    method Set(key: string, value: V, ttl: nat, now: nat)
      modifies this
      ensures store == old(store)[key := RemoteEntry(value, now + ttl)]
    {
      store := store[key := RemoteEntry(value, now + ttl)];
    }

    method Del(key: string)
      modifies this
      ensures store == old(store) - {key}
    {
      store := store - {key};
    }
  }
}
