# Loading cache with a time-to-live

A Dafny model of `cache.go`, a generic loading cache in Go. The cache has two
maps. The value store `dataMap` maps a key to a `CacheValue`: a value and an
expiration instant. The lock registry `lockMap` maps each key ever requested
to its own lock. `Get(key)` looks up or creates the key's lock. It serves the
stored value while that value is fresh. Otherwise it calls the loader and
stores the loader's value, stamped to expire `ttl` after now. `Put(key, value)`
looks up or creates the lock the same way, then overwrites the entry.

The model lives in `cache.dfy`, module `Cache`:

- `LoadingCache` is a class with the source's fields `dataMap` and `lockMap`.
  It also has a lock counter `lockCount`, a constant `loader: K -> V` and a
  constant `ttl: int`. Its methods update these fields in place, as the Go
  methods do. A ghost field `loaderCalls` logs each key the loader was called
  with, so contracts can say whether a call loaded.
- A lock is modelled by its identity, a `nat` issued by `lockCount`. This makes
  "the same lock for the same key" something a contract can state.
- Time is an integer `now` that `Get` and `Put` take as a parameter.
- The functions `KeyLock`, `GetEntry` and `PutEntry` specify the three
  operations on values. `Step` applies one `Get` or `Put` call to the whole
  state, and `Run` applies a sequence of calls. The contracts of
  `LoadingCache.Get` and `LoadingCache.Put` say that each call is one `Step`
  of the object's state, and `GetKeyLockFromMap` agrees with `KeyLock`.
  `RunAppend` shows that a sequence of calls followed by one more is `Run`
  extended by that call's `Step`. `DoublingScenario` uses it to follow a
  cache object through five calls and check that its state is `Run` of the
  calls.

The expiry test follows the code. `Expired` is `Expiration.Before(time.Now())`,
so an entry is expired only when its expiration is strictly before `now`. At
`now == expiration` it is still served. So with a zero time-to-live, a second
`Get` at the same instant still serves the entry, and any later `Get` reloads
it.

The time-to-live is not restricted to non-negative values, because
`NewLoadingCache` accepts any duration. Lemmas that need `ttl >= 0` require it.

## Model

| member | source | states |
|---|---|---|
| `Cache.ExpiryBoundary` | cache.go:18-20 | the lemma about `Expired`, the strict `expiration < now` reading of `Expiration.Before(time.Now())`: an entry is still fresh at its expiration instant and expired one instant later; once expired it stays expired at every later instant |
| `Cache.KeyLock` | cache.go:82-93 | afterwards the key is registered and the returned lock is its registered lock; an existing lock is returned with the registry unchanged; otherwise exactly this key is added, with a lock no other key holds; no key's lock is removed or replaced; registry validity (ids issued by the counter, no two keys sharing a lock) is preserved |
| `Cache.KeyLockIdempotent` | cache.go:86-87 | a second lookup of the same key returns the same lock and does not change the registry |
| `Cache.GetEntry` | cache.go:49-63 | the loader is called exactly when the key is absent or its entry is expired at `now`; then the result is `loader(key)`, stored with expiration `now + ttl`; otherwise the stored value is returned and the store is unchanged; afterwards the key is present and holds the returned value; no other key's entry changes |
| `Cache.PutEntry` | cache.go:72-75 | the key's entry holds the given value whatever was there before; it stays fresh up to `now + ttl` and is expired after it; no other key's entry changes |
| `Cache.GetAfterPut` | cache.go:40-76 | with `ttl >= 0`, a `Get` right after a `Put` at the same instant returns the value put and does not call the loader |
| `Cache.GetTwice` | cache.go:49-63 | with `ttl >= 0`, a second `Get` at the same instant returns what the first returned, leaves the store as it was and does not call the loader |
| `Cache.ExpiresAfterTtl` | cache.go:52-58 | after a `Get` at `t` that loaded, a `Get` at any instant up to `t + ttl` serves the loaded value without loading; a `Get` after `t + ttl` calls the loader again and restamps the entry |
| `Cache.Step` | cache.go:40-76 | one `Get` or `Put` call registers the key's lock and leaves an entry for the key; no other key's entry changes; the lock registry only grows, gains only this key, and stays valid |
| `Cache.RunRegistryValid` | cache.go:82-93 | over any sequence of `Get`/`Put` calls the lock registry stays valid: every lock was issued by the counter and no two keys share a lock |
| `Cache.RunKeepsLocks` | cache.go:82-93 | over any sequence of `Get`/`Put` calls the lock registry only grows and every key keeps its lock; it holds exactly its earlier keys plus the keys the calls named |
| `Cache.RunAppend` | cache.go:40-76 | running a sequence of calls and then one more call gives the state of the sequence advanced by that call's step, so calls applied one at a time to a cache follow `Run` |
| `Cache.RunData` | cache.go:40-76 | over any sequence of `Get`/`Put` calls the value store gains an entry for every key named; the entry of every key not named is left exactly as it was |
| `Cache.LoadingCache.constructor` | cache.go:30-38 | a new cache has an empty value store and an empty lock registry, and keeps the given loader and time-to-live |
| `Cache.LoadingCache.GetKeyLockFromMap` | cache.go:82-93 | returns the key's registered lock and registers a new one only when the key had none; the new lock is held by no other key; no existing lock is removed or replaced; the registry afterwards agrees with `KeyLock` |
| `Cache.LoadingCache.Get` | cache.go:40-64 | on an absent or expired entry, returns `loader(key)`, stores it with expiration `now + ttl`, and logs one loader call; on a fresh entry, returns the stored value with the store and the loader log unchanged; afterwards the key is in both maps; the new state is `Step` of the old |
| `Cache.LoadingCache.Put` | cache.go:66-76 | sets the key's entry to the value with expiration `now + ttl`, changes no other entry, does not call the loader, and registers the key's lock; the new state is `Step` of the old |

## Left out

- Mutual exclusion: `sync.Mutex` acquire and release, both on the per-key locks and on `lockMapLock`. A lock is kept only as an identity in `lockMap`.
- Overlapping calls. The model treats each `Get` or `Put` as one atomic `Step` of the whole state, so it describes only executions in which calls do not overlap. In the source, a per-key lock serialises only calls on the same key. Every call reads or writes the one shared `dataMap` (cache.go:49, cache.go:55, cache.go:72), and no common lock guards it. So a `Get` and a `Put` on different keys, running at once, race on that map. Go maps are not safe for concurrent use, and the runtime may abort with "concurrent map writes". The model neither captures nor rules out this race.
- The concurrent guarantees: at most one loader call per key under contention, and calls on different keys never blocking each other. These are properties of interleavings, which the model does not have.
- The wall clock. `time.Now()` becomes the integer parameter `now`, and `time.Duration`/`time.Time` arithmetic becomes integer addition. Integers are unbounded, so overflow of the time arithmetic is not modelled.
- Cache.LoadingCache.Get: the source reads the clock twice, once in the expiry test (cache.go:19) and once after the loader returns (cache.go:57). The model uses one `now` for both, here and in `Cache.GetEntry`, `Cache.Step` and `Cache.ExpiresAfterTtl`, so the stored expiration does not include the time the loader took.
- Loader panics. The loader is a total function `K -> V`, as Go's `func(K) V` has no error result. The store happens only after the loader returns (cache.go:53-58), so a panic would leave the store unchanged; the model does not represent that path. A Dafny `K -> V` is also deterministic and has no side effects, while a Go `func(K) V` may return a different value on each call; so in the model a reload after expiry (`ExpiresAfterTtl`, the third call of `DoublingScenario`) always stores the same value as the first load. No proved property depends on this.
- The `Cache` interface (cache.go:8-11). It is a type signature only.
- The `*CacheValue` pointers. Entries are values in the model, because the source never mutates an entry after creating it; it only replaces the pointer.
