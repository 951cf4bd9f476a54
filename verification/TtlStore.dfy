/**
 A keyed store with expiry, as the services see Redis, the in-memory maps and the
 cache manager: an entry is visible strictly before its expiry instant.
 */
module TtlStore {
  import opened Wrappers

  datatype Timed<+V> = Timed(value: V, expiresAt: int)

  type Store<V> = map<string, Timed<V>>

  predicate Live<V>(m: Store<V>, k: string, now: int) {
    k in m && now < m[k].expiresAt
  }

  function Get<V>(m: Store<V>, k: string, now: int): Option<V> {
    if Live(m, k, now) then Some(m[k].value) else None
  }

  /** `SET k v PX ttl`. */
  function Put<V>(m: Store<V>, k: string, v: V, ttl: int, now: int): Store<V> {
    m[k := Timed(v, now + ttl)]
  }

  /** `SET k v PX ttl NX`: writes only where nothing live is stored. */
  function PutIfAbsent<V>(m: Store<V>, k: string, v: V, ttl: int, now: int): Store<V> {
    if Live(m, k, now) then m else Put(m, k, v, ttl, now)
  }

  function Delete<V>(m: Store<V>, k: string): Store<V> {
    m - {k}
  }

  /** The lock release script: compare with the caller's value, then delete. */
  function DeleteIfEquals<V(==)>(m: Store<V>, k: string, v: V, now: int): Store<V> {
    if Get(m, k, now) == Some(v) then Delete(m, k) else m
  }

  /** A Redis server: one shared mutable store. */
  class Redis<V(==)> {
    var entries: Store<V>

    constructor ()
      ensures entries == map[]
    {
      entries := map[];
    }

    method Read(k: string, now: int) returns (v: Option<V>)
      ensures v == Get(entries, k, now)
    {
      v := Get(entries, k, now);
    }

    method SetPx(k: string, v: V, ttl: int, now: int)
      modifies this
      ensures entries == Put(old(entries), k, v, ttl, now)
    {
      entries := entries[k := Timed(v, now + ttl)];
    }

    method SetPxNx(k: string, v: V, ttl: int, now: int) returns (ok: bool)
      modifies this
      ensures ok == !Live(old(entries), k, now)
      ensures entries == PutIfAbsent(old(entries), k, v, ttl, now)
    {
      ok := !(k in entries && now < entries[k].expiresAt);
      if ok {
        entries := entries[k := Timed(v, now + ttl)];
      }
    }

    method Del(k: string)
      modifies this
      ensures entries == Delete(old(entries), k)
    {
      entries := entries - {k};
    }

    method EvalRelease(k: string, v: V, now: int) returns (deleted: bool)
      modifies this
      ensures deleted == (Get(old(entries), k, now) == Some(v))
      ensures entries == DeleteIfEquals(old(entries), k, v, now)
    {
      deleted := k in entries && now < entries[k].expiresAt && entries[k].value == v;
      if deleted {
        entries := entries - {k};
      }
    }
  }
}
