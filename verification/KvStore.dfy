/**
 * The expiring key-value store (backend/src/utils/kvStore.ts) and the cache facade over it
 * (backend/src/services/cacheService.ts).
 *
 * The specification is the map of unexpired entries.  The in-process driver keeps expired entries
 * around until they are read or swept; its contracts say that this is never observable.
 */
module KvStore {
  import opened Common

  /** A stored value: JSON text, the decimal of a counter, or the JSON of a recorded response. */
  datatype Value = Text(text: string) | Count(n: int) | Response(status: int, body: string)

  /** `expiresAt` in milliseconds; None never expires. */
  datatype Entry = Entry(value: Value, expiresAt: Option<int>)

  type Contents = map<string, Entry>

  predicate Unexpired(e: Entry, now: int) {
    e.expiresAt.Some? ==> now < e.expiresAt.value
  }

  function ExpiryFrom(now: int, ttlSeconds: int): Option<int> {
    if ttlSeconds > 0 then Some(now + ttlSeconds * 1000) else None
  }

  // ---------- the commands on unexpired entries ----------

  function Got(c: Contents, key: string): Option<Value> {
    if key in c then Some(c[key].value) else None
  }

  function AfterSet(c: Contents, now: int, key: string, value: Value, ttlSeconds: int): Contents {
    c[key := Entry(value, ExpiryFrom(now, ttlSeconds))]
  }

  function AfterSetNX(c: Contents, now: int, key: string, value: Value, ttlSeconds: int): Contents {
    if key in c then c else AfterSet(c, now, key, value, ttlSeconds)
  }

  /** parseInt(existing ?? '0'), NaN counting as 0, plus one. */
  function NextCount(c: Contents, key: string): int {
    if key in c && c[key].value.Count? then c[key].value.n + 1 else 1
  }

  function AfterIncr(c: Contents, key: string): Contents {
    c[key := Entry(Count(NextCount(c, key)), if key in c then c[key].expiresAt else None)]
  }

  function AfterExpire(c: Contents, now: int, key: string, ttlSeconds: int): Contents {
    if key in c then c[key := c[key].(expiresAt := ExpiryFrom(now, ttlSeconds))] else c
  }

  /** Seconds left rounded up, -1 without expiry, -2 when absent. */
  function TtlOf(c: Contents, now: int, key: string): int {
    if key !in c then -2
    else if c[key].expiresAt.None? then -1
    else Max(1, (c[key].expiresAt.value - now + 999) / 1000)
  }

  function AfterTick(c: Contents, now: int): Contents {
    map k | k in c && Unexpired(c[k], now) :: c[k]
  }

  // ---------- the in-process driver ----------

  class MemoryKvStore {
    var entries: map<string, Entry>
    var now: int
    var reachable: bool

    constructor ()
      ensures Live() == map[] && reachable
    {
      entries, now, reachable := map[], 0, true;
    }

    /** What a client can observe. */
    function Live(): Contents
      reads this
    {
      map k | k in entries && Unexpired(entries[k], now) :: entries[k]
    }

    /** Reading deletes an expired entry; nobody can tell. */
    method Read(key: string) returns (e: Option<Entry>)
      modifies this`entries
      ensures Live() == old(Live())
      ensures e == if key in Live() then Some(Live()[key]) else None
      ensures e.Some? <==> key in entries
      ensures forall k :: k != key ==> (k in entries <==> k in old(entries))
    {
      if key !in entries { return None; }
      if !Unexpired(entries[key], now) {
        entries := entries - {key};
        return None;
      }
      e := Some(entries[key]);
    }

    method Get(key: string) returns (v: Option<Value>)
      modifies this`entries
      ensures Live() == old(Live()) && v == Got(Live(), key)
    {
      var e := Read(key);
      v := if e.Some? then Some(e.value.value) else None;
    }

    method Set(key: string, value: Value, ttlSeconds: int)
      modifies this`entries
      ensures Live() == AfterSet(old(Live()), now, key, value, ttlSeconds)
    {
      entries := entries[key := Entry(value, ExpiryFrom(now, ttlSeconds))];
    }

    method SetNX(key: string, value: Value, ttlSeconds: int) returns (written: bool)
      modifies this`entries
      ensures written <==> key !in old(Live())
      ensures Live() == AfterSetNX(old(Live()), now, key, value, ttlSeconds)
    {
      var e := Read(key);
      if e.Some? { return false; }
      entries := entries[key := Entry(value, ExpiryFrom(now, ttlSeconds))];
      written := true;
    }

    method Del(key: string)
      modifies this`entries
      ensures Live() == old(Live()) - {key}
    {
      entries := entries - {key};
    }

    method Incr(key: string) returns (next: int)
      modifies this`entries
      ensures next == NextCount(old(Live()), key)
      ensures Live() == AfterIncr(old(Live()), key)
    {
      var existing := Read(key);
      next := if existing.Some? && existing.value.value.Count? then existing.value.value.n + 1 else 1;
      entries := entries[key := Entry(Count(next), if existing.Some? then existing.value.expiresAt else None)];
    }

    method Expire(key: string, ttlSeconds: int)
      modifies this`entries
      ensures Live() == AfterExpire(old(Live()), now, key, ttlSeconds)
    {
      var e := Read(key);
      if e.Some? {
        entries := entries[key := e.value.(expiresAt := ExpiryFrom(now, ttlSeconds))];
      }
    }

    method Ttl(key: string) returns (seconds: int)
      modifies this`entries
      ensures Live() == old(Live()) && seconds == TtlOf(Live(), now, key)
    {
      var e := Read(key);
      if e.None? { return -2; }
      if e.value.expiresAt.None? { return -1; }
      seconds := Max(1, (e.value.expiresAt.value - now + 999) / 1000);
    }

    /** The periodic sweep reclaims entries nobody could read. */
    method Sweep()
      modifies this`entries
      ensures Live() == old(Live())
    {
      entries := map k | k in entries && Unexpired(entries[k], now) :: entries[k];
    }

    method Advance(ms: nat)
      modifies this`now
      ensures now == old(now) + ms
      ensures Live() == AfterTick(old(Live()), now)
    {
      now := now + ms;
    }
  }

  // ---------- the facade ----------

  /** A transport error degrades to a miss, a refused write or a no-op; it never reaches the caller. */
  class CacheService {
    const store: MemoryKvStore

    constructor (store: MemoryKvStore)
      ensures this.store == store
    {
      this.store := store;
    }

    method Set(key: string, value: Value, ttlSeconds: int)
      modifies store`entries
      ensures store.Live() == if store.reachable then AfterSet(old(store.Live()), store.now, key, value, ttlSeconds)
                              else old(store.Live())
    {
      if store.reachable { store.Set(key, value, ttlSeconds); }
    }

    method Get(key: string) returns (v: Option<Value>)
      modifies store`entries
      ensures store.Live() == old(store.Live())
      ensures v == if store.reachable then Got(store.Live(), key) else None
    {
      if store.reachable { v := store.Get(key); } else { v := None; }
    }

    /** True means written; false means held by someone or unreachable, and the caller cannot tell which. */
    method SetNotExists(key: string, value: Value, ttlSeconds: int) returns (written: bool)
      modifies store`entries
      ensures written <==> store.reachable && key !in old(store.Live())
      ensures store.Live() == if written then AfterSet(old(store.Live()), store.now, key, value, ttlSeconds)
                              else old(store.Live())
    {
      if store.reachable { written := store.SetNX(key, value, ttlSeconds); } else { written := false; }
    }

    method Delete(key: string)
      modifies store`entries
      ensures store.Live() == if store.reachable then old(store.Live()) - {key} else old(store.Live())
    {
      if store.reachable { store.Del(key); }
    }

    /** Compare and delete, when nothing else runs between its two commands; FencedLock treats the
        case where something does. */
    method DeleteIfMatch(key: string, expected: string) returns (deleted: bool)
      modifies store`entries
      ensures deleted <==> store.reachable && Got(old(store.Live()), key) == Some(Text(expected))
      ensures store.Live() == if deleted then old(store.Live()) - {key} else old(store.Live())
    {
      if !store.reachable { return false; }
      var stored := store.Get(key);
      if stored != Some(Text(expected)) { return false; }
      store.Del(key);
      deleted := true;
    }
  }
}
