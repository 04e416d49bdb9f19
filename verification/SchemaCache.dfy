/**
 The per-process cache of command schemas (app/api/mobile_command_data.py), proved against a
 plain log of its operations.
 */
module SchemaCache {
  import opened Options

  /** Seconds on the wall clock. */
  type Time = real

  const SCHEMA_CACHE_TTL_SECONDS := 600.0

  /** (node, command) */
  type Key = (string, string)

  datatype Op<V> =
    | Get(key: Key, at: Time)
    | Put(key: Key, value: V, at: Time)
    | Invalidate(key: Key, at: Time)
    | Clear(at: Time)

  type Store<V> = map<Key, (V, Time)>

  function Lookup<V>(store: Store<V>, ttl: Time, key: Key, now: Time): Option<V> {
    if key in store && now - store[key].1 <= ttl then Some(store[key].0) else None
  }

  function Applied<V>(store: Store<V>, ttl: Time, op: Op<V>): Store<V> {
    match op
    case Get(key, at) => if Lookup(store, ttl, key, at).None? then store - {key} else store
    case Put(key, value, at) => store[key := (value, at)]
    case Invalidate(key, _) => store - {key}
    case Clear(_) => map[]
  }

  class Cache<V> {
    const ttl: Time
    var store: Store<V>

    constructor (ttl: Time := SCHEMA_CACHE_TTL_SECONDS)
      ensures this.ttl == ttl && store == map[]
    {
      this.ttl, store := ttl, map[];
    }

    method GetSchema(key: Key, now: Time) returns (value: Option<V>)
      modifies this
      ensures value == Lookup(old(store), ttl, key, now)
      ensures store == Applied(old(store), ttl, Get(key, now))
    {
      if key !in store {
        assert store - {key} == store;
        return None;
      }
      var (found, stamp) := store[key];
      if now - stamp > ttl {
        store := store - {key};
        return None;
      }
      return Some(found);
    }

    method PutSchema(key: Key, value: V, now: Time)
      modifies this
      ensures store == Applied(old(store), ttl, Put(key, value, now))
    {
      store := store[key := (value, now)];
    }

    method InvalidateSchema(key: Key, now: Time)
      modifies this
      ensures store == Applied(old(store), ttl, Invalidate(key, now))
    {
      store := store - {key};
    }

    method ClearAll(now: Time)
      modifies this
      ensures store == Applied(old(store), ttl, Clear(now))
    {
      store := map[];
    }
  }

  // ---------------------------------------------------------------- the log it refines

  function StoreAfter<V>(ttl: Time, log: seq<Op<V>>): Store<V> {
    if log == [] then map[] else Applied(StoreAfter(ttl, log[..|log| - 1]), ttl, log[|log| - 1])
  }

  /**
   The plain meaning: the last put of the key, unless invalidated or cleared since, or older than
   the time to live.
   */
  function Remembered<V>(ttl: Time, log: seq<Op<V>>, key: Key, now: Time): Option<V> {
    if log == [] then None
    else
      var rest := log[..|log| - 1];
      match log[|log| - 1]
      case Get(_, _) => Remembered(ttl, rest, key, now)
      case Put(k, value, at) =>
        if k != key then Remembered(ttl, rest, key, now) else if now - at <= ttl then Some(value) else None
      case Invalidate(k, _) => if k == key then None else Remembered(ttl, rest, key, now)
      case Clear(_) => None
  }

  ghost predicate Chronological<V>(log: seq<Op<V>>) {
    forall i, j :: 0 <= i <= j < |log| ==> log[i].at <= log[j].at
  }

  /**
   After any history with a clock that never runs backwards, a lookup answers what the log
   remembers: reads change nothing, and eviction loses only what is too old anyway.
   */
  lemma {:induction false} CacheRefinesTheLog<V>(ttl: Time, log: seq<Op<V>>, key: Key, now: Time)
    requires Chronological(log) && (log != [] ==> log[|log| - 1].at <= now)
    ensures Lookup(StoreAfter(ttl, log), ttl, key, now) == Remembered(ttl, log, key, now)
  {
    if log == [] {
    } else {
      var rest := log[..|log| - 1];
      assert rest != [] ==> rest[|rest| - 1] == log[|log| - 2];
      CacheRefinesTheLog(ttl, rest, key, now);
    }
  }
}
