/**
  A loading cache with a fixed time-to-live. A value store maps each key to a
  cached value and its expiration instant; a lock registry maps each key ever
  requested to its own lock, and only grows. `Get` serves a fresh entry from
  the store or calls the loader and stores the result; `Put` overwrites the
  entry unconditionally.

  Time is an integer `now` handed to each operation; a lock is modelled only
  by its identity, a number issued by a counter.
  */
module Cache {

  /** A lookup result: the entry of a key, if it has one. */
  datatype Option<T> = None | Some(value: T)

  /** An entry of the value store: the cached value and the instant it expires. */
  datatype CacheValue<V> = CacheValue(value: V, expiration: int)

  /** An entry is expired only when its expiration lies strictly before `now`:
      at `now == expiration` it is still served. */
  predicate Expired<V>(entry: CacheValue<V>, now: int)
  {
    entry.expiration < now
  }

  /** An entry is served up to and including its expiration instant, and once
      expired it stays expired at every later instant. */
  lemma ExpiryBoundary<V>(entry: CacheValue<V>, t: int, t': int)
    requires t <= t'
    ensures !Expired(entry, entry.expiration) && Expired(entry, entry.expiration + 1)
    ensures Expired(entry, t) ==> Expired(entry, t')
  {
  }

  /** The entry a write at `now` stores: it expires `ttl` after `now`. */
  function Stamp<V>(value: V, ttl: int, now: int): CacheValue<V>
  {
    CacheValue(value, now + ttl)
  }

  // ---------------------------------------------------------------------------
  // The lock registry

  /** The per-key locks, by identity, and the identity the next new lock gets. */
  datatype LockRegistry<K> = LockRegistry(locks: map<K, nat>, next: nat)

  /** Every lock was issued by the counter, and no two keys share a lock. */
  ghost predicate RegistryValid<K>(reg: LockRegistry<K>)
  {
    && (forall k :: k in reg.locks ==> reg.locks[k] < reg.next)
    && (forall k1, k2 :: k1 in reg.locks && k2 in reg.locks && k1 != k2 ==> reg.locks[k1] != reg.locks[k2])
  }

  /** `reg'` keeps every lock of `reg`, under the same key. */
  ghost predicate Extends<K>(reg: LockRegistry<K>, reg': LockRegistry<K>)
  {
    && reg.next <= reg'.next
    && forall k :: k in reg.locks ==> k in reg'.locks && reg'.locks[k] == reg.locks[k]
  }

  /** The registry after a lookup, and the lock the lookup hands out. */
  datatype LockLookup<K> = LockLookup(registry: LockRegistry<K>, lock: nat)

  /** Looks up the lock of `key`, creating and registering a new one when the
      key has none. */
  function KeyLock<K>(reg: LockRegistry<K>, key: K): (r: LockLookup<K>)
    ensures key in r.registry.locks && r.registry.locks[key] == r.lock
    ensures Extends(reg, r.registry)
    ensures r.registry.locks.Keys == reg.locks.Keys + {key}
    ensures key in reg.locks ==> r.registry == reg
    ensures RegistryValid(reg) ==> RegistryValid(r.registry)
    ensures RegistryValid(reg) && key !in reg.locks ==> r.lock !in reg.locks.Values
  {
    if key in reg.locks then
      LockLookup(reg, reg.locks[key])
    else
      LockLookup(LockRegistry(reg.locks[key := reg.next], reg.next + 1), reg.next)
  }

  /** Looking up a key twice hands out the same lock and leaves the registry
      as the first lookup left it. */
  lemma KeyLockIdempotent<K>(reg: LockRegistry<K>, key: K)
    ensures KeyLock(KeyLock(reg, key).registry, key) == LockLookup(KeyLock(reg, key).registry, KeyLock(reg, key).lock)
  {
  }

  // ---------------------------------------------------------------------------
  // The value store

  /** What a `Get` returns, the value store it leaves, and whether it called
      the loader. */
  datatype GetOutcome<K, V> = GetOutcome(value: V, data: map<K, CacheValue<V>>, loaded: bool)

  /** `Get` on the value store at `now`: a missing or expired entry is
      reloaded and restamped, a fresh one is served as it is. */
  function GetEntry<K, V>(data: map<K, CacheValue<V>>, loader: K -> V, ttl: int, key: K, now: int): (r: GetOutcome<K, V>)
    ensures r.loaded <==> key !in data || Expired(data[key], now)
    ensures key in r.data && r.data[key].value == r.value
    ensures r.loaded ==> r.value == loader(key) && r.data[key] == Stamp(loader(key), ttl, now)
    ensures !r.loaded ==> r.value == data[key].value && r.data == data
    ensures r.data.Keys == data.Keys + {key}
    ensures forall k :: k in data && k != key ==> r.data[k] == data[k]
  {
    var entry := if key in data then Some(data[key]) else None;
    if entry.None? || (entry.Some? && Expired(entry.value, now)) then
      var newValue := loader(key);
      GetOutcome(newValue, data[key := Stamp(newValue, ttl, now)], true)
    else
      GetOutcome(entry.value.value, data, false)
  }

  /** `Put` on the value store at `now`: the entry of `key` is replaced
      whatever it was, and no other entry changes. */
  function PutEntry<K, V>(data: map<K, CacheValue<V>>, ttl: int, key: K, value: V, now: int): (r: map<K, CacheValue<V>>)
    ensures key in r && r[key].value == value
    ensures !Expired(r[key], now + ttl) && Expired(r[key], now + ttl + 1)
    ensures r.Keys == data.Keys + {key}
    ensures forall k :: k in data && k != key ==> r[k] == data[k]
  {
    data[key := Stamp(value, ttl, now)]
  }

  /** With a non-negative time-to-live, a `Get` right after a `Put` at the same
      instant returns the value put, without calling the loader. */
  lemma GetAfterPut<K, V>(data: map<K, CacheValue<V>>, loader: K -> V, ttl: int, key: K, value: V, now: int)
    requires ttl >= 0
    ensures var stored := PutEntry(data, ttl, key, value, now);
            GetEntry(stored, loader, ttl, key, now) == GetOutcome(value, stored, false)
  {
  }

  /** With a non-negative time-to-live, a second `Get` at the same instant
      serves what the first returned, without calling the loader. */
  lemma GetTwice<K, V>(data: map<K, CacheValue<V>>, loader: K -> V, ttl: int, key: K, now: int)
    requires ttl >= 0
    ensures var first := GetEntry(data, loader, ttl, key, now);
            GetEntry(first.data, loader, ttl, key, now) == GetOutcome(first.value, first.data, false)
  {
  }

  /** After a `Get` at `t` that loaded, a `Get` at any `t'` up to `t + ttl`
      serves the loaded value; any later `Get` calls the loader again. */
  lemma ExpiresAfterTtl<K, V>(data: map<K, CacheValue<V>>, loader: K -> V, ttl: int, key: K, t: int, t': int)
    requires GetEntry(data, loader, ttl, key, t).loaded
    ensures var first := GetEntry(data, loader, ttl, key, t);
            var second := GetEntry(first.data, loader, ttl, key, t');
            && (t' <= t + ttl ==> second == GetOutcome(first.value, first.data, false))
            && (t' > t + ttl ==> second.loaded && second.data == first.data[key := Stamp(loader(key), ttl, t')])
  {
  }

  // ---------------------------------------------------------------------------
  // Sequences of operations

  /** The whole state of a cache: its value store and its lock registry. */
  datatype CacheState<K, V> = CacheState(data: map<K, CacheValue<V>>, registry: LockRegistry<K>)

  /** A call on the cache, with the instant it reads from the clock. */
  datatype Op<K, V> = GetOp(key: K, now: int) | PutOp(key: K, value: V, now: int)

  /** One call: both kinds first pass through the lock registry. */
  function Step<K, V>(s: CacheState<K, V>, loader: K -> V, ttl: int, op: Op<K, V>): (r: CacheState<K, V>)
    ensures op.key in r.data && r.data.Keys == s.data.Keys + {op.key}
    ensures forall k :: k in s.data && k != op.key ==> r.data[k] == s.data[k]
    ensures Extends(s.registry, r.registry) && r.registry.locks.Keys == s.registry.locks.Keys + {op.key}
    ensures RegistryValid(s.registry) ==> RegistryValid(r.registry)
  {
    var lookup := KeyLock(s.registry, op.key);
    match op
    case GetOp(key, now) => CacheState(GetEntry(s.data, loader, ttl, key, now).data, lookup.registry)
    case PutOp(key, value, now) => CacheState(PutEntry(s.data, ttl, key, value, now), lookup.registry)
  }

  /** The state after the calls `ops`, in order. */
  function Run<K, V>(s: CacheState<K, V>, loader: K -> V, ttl: int, ops: seq<Op<K, V>>): CacheState<K, V>
    decreases |ops|
  {
    if ops == [] then s else Run(Step(s, loader, ttl, ops[0]), loader, ttl, ops[1..])
  }

  /** Running `ops` and then one more call is running `ops` and taking that
      call's step: a cache that applies its calls one `Step` at a time is, after
      any sequence of calls, in the state `Run` gives. */
  lemma {:induction false} RunAppend<K, V>(s: CacheState<K, V>, loader: K -> V, ttl: int, ops: seq<Op<K, V>>, op: Op<K, V>)
    ensures Run(s, loader, ttl, ops + [op]) == Step(Run(s, loader, ttl, ops), loader, ttl, op)
    decreases |ops|
  {
    if ops == [] {
      assert [] + [op] == [op];
    } else {
      assert (ops + [op])[1..] == ops[1..] + [op];
      RunAppend(Step(s, loader, ttl, ops[0]), loader, ttl, ops[1..], op);
    }
  }

  /** The keys the calls `ops` name. */
  function OpKeys<K, V>(ops: seq<Op<K, V>>): (r: set<K>)
    ensures forall i :: 0 <= i < |ops| ==> ops[i].key in r
    ensures forall k :: k in r ==> exists i :: 0 <= i < |ops| && ops[i].key == k
  {
    if ops == [] then {} else {ops[0].key} + OpKeys(ops[1..])
  }

  /** Over any sequence of calls the lock registry stays valid: every lock
      was issued by the counter and no two keys share a lock. */
  lemma {:induction false} RunRegistryValid<K, V>(s: CacheState<K, V>, loader: K -> V, ttl: int, ops: seq<Op<K, V>>)
    requires RegistryValid(s.registry)
    ensures RegistryValid(Run(s, loader, ttl, ops).registry)
    decreases |ops|
  {
    if ops != [] {
      RunRegistryValid(Step(s, loader, ttl, ops[0]), loader, ttl, ops[1..]);
    }
  }

  /** Over any sequence of calls the lock registry only grows and never
      replaces a key's lock, and it holds exactly the keys it held before plus
      the keys the calls named. */
  lemma {:induction false} RunKeepsLocks<K, V>(s: CacheState<K, V>, loader: K -> V, ttl: int, ops: seq<Op<K, V>>)
    ensures Extends(s.registry, Run(s, loader, ttl, ops).registry)
    ensures Run(s, loader, ttl, ops).registry.locks.Keys == s.registry.locks.Keys + OpKeys(ops)
    decreases |ops|
  {
    if ops != [] {
      RunKeepsLocks(Step(s, loader, ttl, ops[0]), loader, ttl, ops[1..]);
    }
  }

  /** Over any sequence of calls the value store gains an entry for every key
      named, and keeps the entry of every key not named exactly as it was. */
  lemma {:induction false} RunData<K, V>(s: CacheState<K, V>, loader: K -> V, ttl: int, ops: seq<Op<K, V>>)
    ensures Run(s, loader, ttl, ops).data.Keys == s.data.Keys + OpKeys(ops)
    ensures forall k :: k in s.data && k !in OpKeys(ops) ==> Run(s, loader, ttl, ops).data[k] == s.data[k]
    decreases |ops|
  {
    if ops != [] {
      RunData(Step(s, loader, ttl, ops[0]), loader, ttl, ops[1..]);
    }
  }

  // ---------------------------------------------------------------------------
  // The cache object

  class LoadingCache<K(==), V> {
    var dataMap: map<K, CacheValue<V>>
    var lockMap: map<K, nat>
    /** The identity the next created lock receives. */
    var lockCount: nat
    const loader: K -> V
    const ttl: int
    /** The keys the loader was called with, in order. */
    ghost var loaderCalls: seq<K>

    ghost function State(): CacheState<K, V>
      reads this
    {
      CacheState(dataMap, LockRegistry(lockMap, lockCount))
    }

    ghost predicate Valid()
      reads this
    {
      RegistryValid(LockRegistry(lockMap, lockCount))
    }

    /** A new cache: both maps empty, loader and time-to-live as given. */
    constructor (loader: K -> V, ttl: int)
      ensures Valid()
      ensures dataMap == map[] && lockMap == map[]
      ensures this.loader == loader && this.ttl == ttl
      ensures loaderCalls == []
    {
      dataMap := map[];
      lockMap := map[];
      lockCount := 0;
      this.loader := loader;
      this.ttl := ttl;
      loaderCalls := [];
    }

    /** Returns the lock of `key`, creating and registering a new one when the
        key has none yet; no registered lock is removed or replaced. */
    method GetKeyLockFromMap(key: K) returns (lock: nat)
      requires Valid()
      modifies this`lockMap, this`lockCount
      ensures Valid()
      ensures key in lockMap && lock == lockMap[key]
      ensures key in old(lockMap) ==> lock == old(lockMap)[key] && lockMap == old(lockMap)
      ensures key !in old(lockMap) ==> lockMap == old(lockMap)[key := lock] && lock !in old(lockMap).Values
      ensures LockLookup(LockRegistry(lockMap, lockCount), lock) == KeyLock(LockRegistry(old(lockMap), old(lockCount)), key)
    {
      if key in lockMap {
        lock := lockMap[key];
      } else {
        lock := lockCount;
        lockMap := lockMap[key := lock];
        lockCount := lockCount + 1;
      }
    }

    /** Returns the value of `key`: the stored one while it is fresh at `now`,
        otherwise the loader's, which then replaces the entry. */
    method Get(key: K, now: int) returns (value: V)
      requires Valid()
      modifies this
      ensures Valid()
      ensures State() == Step(old(State()), loader, ttl, GetOp(key, now))
      ensures key in dataMap && value == dataMap[key].value
      ensures key !in old(dataMap) || Expired(old(dataMap)[key], now) ==>
        && value == loader(key)
        && dataMap == old(dataMap)[key := Stamp(loader(key), ttl, now)]
        && loaderCalls == old(loaderCalls) + [key]
      ensures key in old(dataMap) && !Expired(old(dataMap)[key], now) ==>
        && value == old(dataMap)[key].value
        && dataMap == old(dataMap)
        && loaderCalls == old(loaderCalls)
      ensures Extends(LockRegistry(old(lockMap), old(lockCount)), LockRegistry(lockMap, lockCount))
      ensures key in lockMap
    {
      var _ := GetKeyLockFromMap(key);
      var present := key in dataMap;
      if !present || (present && Expired(dataMap[key], now)) {
        var newValue := loader(key);
        loaderCalls := loaderCalls + [key];
        dataMap := dataMap[key := Stamp(newValue, ttl, now)];
        value := newValue;
      } else {
        value := dataMap[key].value;
      }
    }

    /** Stores `value` under `key`, stamped to expire `ttl` after `now`,
        whatever the key held before; the loader is not called. */
    method Put(key: K, value: V, now: int)
      requires Valid()
      modifies this
      ensures Valid()
      ensures State() == Step(old(State()), loader, ttl, PutOp(key, value, now))
      ensures dataMap == old(dataMap)[key := Stamp(value, ttl, now)]
      ensures loaderCalls == old(loaderCalls)
      ensures Extends(LockRegistry(old(lockMap), old(lockCount)), LockRegistry(lockMap, lockCount))
      ensures key in lockMap
    {
      var _ := GetKeyLockFromMap(key);
      dataMap := dataMap[key := Stamp(value, ttl, now)];
    }
  }

  /** A client of the contracts above: a doubling loader with a time-to-live
      of 100. */
  method DoublingScenario()
  {
    var double := (k: int) => k * 2;
    var cache := new LoadingCache<int, int>(double, 100);
    ghost var start := cache.State();
    ghost var ops: seq<Op<int, int>> := [];

    var v := cache.Get(5, 0);
    RunAppend(start, double, 100, ops, GetOp(5, 0));
    ops := ops + [GetOp(5, 0)];
    assert v == 10 && cache.loaderCalls == [5];

    v := cache.Get(5, 0);
    RunAppend(start, double, 100, ops, GetOp(5, 0));
    ops := ops + [GetOp(5, 0)];
    assert v == 10 && cache.loaderCalls == [5];

    v := cache.Get(5, 150);
    RunAppend(start, double, 100, ops, GetOp(5, 150));
    ops := ops + [GetOp(5, 150)];
    assert v == 10 && cache.loaderCalls == [5, 5];

    cache.Put(5, 999, 150);
    RunAppend(start, double, 100, ops, PutOp(5, 999, 150));
    ops := ops + [PutOp(5, 999, 150)];

    v := cache.Get(5, 150);
    RunAppend(start, double, 100, ops, GetOp(5, 150));
    ops := ops + [GetOp(5, 150)];
    assert v == 999 && cache.loaderCalls == [5, 5];
    assert cache.State() == Run(start, double, 100, ops);
  }
}
