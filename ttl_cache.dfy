/**
 * The two process-wide caches of the server (`searchCache`, `audioInfoCache`):
 * a `Map` from a key to `{time, value}` whose reads treat an entry as present
 * only while it is younger than the cache's TTL. Expiry is a read-time check:
 * nothing is ever evicted, and a stale entry is simply overwritten by the next
 * `set` of its key. The clock is an explicit parameter in milliseconds.
 */
module Caching {
  import opened Wrappers

  /** One cache slot: the `Date.now()` reading at the `set`, and the stored value. */
  datatype Entry<V> = Entry(time: int, value: V)

  class TtlCache<V> {
    const ttl: nat
    var entries: map<string, Entry<V>>

    constructor (ttl: nat)
      ensures this.ttl == ttl && entries == map[]
    {
      this.ttl := ttl;
      entries := map[];
    }

    /**
     * `cached && now - cached.time < TTL`: a hit exactly when the key has an
     * entry whose age is below the TTL. An entry exactly TTL old, or older, is
     * a miss; an entry stamped later than `now` (a clock step back) is a hit.
     */
    function Lookup(key: string, now: int): (r: Option<V>)
      reads this
      ensures r.Some? <==> key in entries && now - entries[key].time < ttl
      ensures r.Some? ==> r.value == entries[key].value
    {
      if key in entries && now - entries[key].time < ttl then Some(entries[key].value) else None
    }

    /** `Map.set(key, {time: now, value})`: replaces the slot of `key`, stale or not, and no other. */
    method Put(key: string, value: V, now: int)
      modifies this
      ensures entries == old(entries)[key := Entry(now, value)]
      ensures forall t :: Lookup(key, t) == (if t - now < ttl then Some(value) else None)
      ensures forall k, t :: k != key ==> Lookup(k, t) == old(Lookup(k, t))
    {
      entries := entries[key := Entry(now, value)];
    }
  }
}
