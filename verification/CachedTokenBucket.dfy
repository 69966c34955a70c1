/** The token bucket behind a per-thread cache of one key
    (src/algorithm/cached_token_bucket.rs). */
module CachedTokenBucket {
  import opened Machine
  import opened Internal
  import TB = TokenBucket
  import S = Store
  import Shards

  type Key = Shards.Key
  type Bucket = TB.Bucket

  const HOT_ACCESSES := 10

  /** One key's atomics, with the access count that decides what is worth caching. */
  class CountedTokenState {
    const bucket: TB.AtomicTokenState
    var accessCount: u64

    constructor (capacity: u64, nowNanos: u64)
      ensures fresh(bucket) && bucket.Value() == TB.NewBucket(capacity, nowNanos) && accessCount == 0
    {
      bucket := new TB.AtomicTokenState(capacity, nowNanos);
      accessCount := 0;
    }

    predicate IsHotKey()
      reads this
    {
      accessCount > HOT_ACCESSES
    }

    method TryConsume(cfg: TB.Config, nowNanos: u64, cost: u64, spurious: nat)
      returns (permitted: bool, remaining: u64)
      modifies this, bucket
      ensures TB.Consume(old(bucket.Value()), cfg.Scale(), nowNanos, cost)
           == TB.Consumed(bucket.Value(), permitted, remaining)
      ensures accessCount == (old(accessCount) + 1) % (U64_MAX + 1)
    {
      accessCount := (accessCount + 1) % (U64_MAX + 1);
      permitted, remaining := bucket.TryConsume(cfg, nowNanos, cost, spurious);
    }
  }

  /** The most recent hot key of one thread. */
  class CacheEntry {
    var key: Option<Key>
    var state: Option<CountedTokenState>
    var hits: nat
    var misses: nat

    constructor ()
      ensures key == None && state == None && hits == 0 && misses == 0
    {
      key, state, hits, misses := None, None, 0, 0;
    }

    method Get(wanted: Key) returns (found: Option<CountedTokenState>)
      modifies this`hits, this`misses
      ensures found == if key == Some(wanted) then state else None
      ensures hits + misses == old(hits + misses) + 1
      ensures hits == old(hits) + if key == Some(wanted) then 1 else 0
    {
      if key.Some? && key.value == wanted {
        hits := hits + 1;
        return state;
      }
      misses := misses + 1;
      found := None;
    }

    method Set(newKey: Key, newState: CountedTokenState)
      modifies this`key, this`state
      ensures key == Some(newKey) && state == Some(newState)
    {
      key := Some(newKey);
      state := Some(newState);
    }
  }

  class CachedStore {
    const cfg: TB.Config
    const idleTtl: Option<u64>
    var tokens: map<Key, CountedTokenState>
    /** The key that each bucket object serves. */
    ghost var keyOf: map<TB.AtomicTokenState, Key>

    ghost predicate Valid()
      reads this
    {
      forall k :: k in tokens ==> tokens[k].bucket in keyOf && keyOf[tokens[k].bucket] == k
    }

    ghost function Buckets(): set<TB.AtomicTokenState>
      reads this
    {
      set k | k in tokens :: tokens[k].bucket
    }

    ghost function View(): S.Contents
      reads this, Buckets()
    {
      map k | k in tokens :: tokens[k].bucket.Value()
    }

    /** What a thread has cached is the very object the map holds for that key; with a
        TTL nothing is cached. */
    ghost predicate Agrees(cache: CacheEntry)
      reads this, cache
    {
      && (cache.key.Some? <==> cache.state.Some?)
      && (idleTtl.Some? ==> cache.key == None)
      && (cache.key.Some? ==> cache.key.value in tokens && cache.state.value == tokens[cache.key.value])
    }

    constructor (capacity: u64, rate: u64, idleTtl: Option<u64>)
      ensures Valid() && View() == map[] && tokens == map[]
      ensures cfg == TB.NewConfig(capacity, rate) && this.idleTtl == idleTtl
    {
      cfg := TB.NewConfig(capacity, rate);
      this.idleTtl := idleTtl;
      tokens := map[];
      keyOf := map[];
    }

    method GetOrInsert(key: Key, now: u64) returns (state: CountedTokenState)
      requires Valid()
      modifies this
      ensures Valid() && key in tokens && tokens[key] == state
      ensures key in old(tokens) ==> tokens == old(tokens)
      ensures key !in old(tokens) ==> tokens == old(tokens)[key := state] && fresh(state) && fresh(state.bucket)
      ensures key !in old(tokens) ==> state.bucket.Value() == TB.NewBucket(cfg.capacity, now)
    {
      if key in tokens {
        state := tokens[key];
      } else {
        state := new CountedTokenState(cfg.capacity, now);
        tokens := tokens[key := state];
        keyOf := keyOf[state.bucket := key];
      }
    }

    /** Whatever path is taken, the state handed out is the one the map holds. */
    method GetOrCreateStateCached(cache: CacheEntry, key: Key, now: u64) returns (state: CountedTokenState)
      requires Valid() && Agrees(cache)
      modifies this, cache
      ensures Valid() && Agrees(cache) && key in tokens && tokens[key] == state
      ensures key in old(tokens) ==> tokens == old(tokens)
      ensures key !in old(tokens) ==> tokens == old(tokens)[key := state] && fresh(state) && fresh(state.bucket)
      ensures key !in old(tokens) ==> state.bucket.Value() == TB.NewBucket(cfg.capacity, now)
      ensures idleTtl.Some? ==> cache.key == None && cache.hits == old(cache.hits) && cache.misses == old(cache.misses)
      ensures idleTtl == None ==>
                cache.hits == old(cache.hits) + (if old(cache.key) == Some(key) then 1 else 0)
                && cache.misses == old(cache.misses) + (if old(cache.key) == Some(key) then 0 else 1)
      ensures idleTtl == None && old(cache.key) != Some(key) ==>
                cache.key == if state.accessCount > 10 then Some(key) else old(cache.key)
    {
      if idleTtl == None {
        var found := cache.Get(key);
        if found.Some? {
          return found.value;
        }
      }
      state := GetOrInsert(key, now);
      if idleTtl == None && state.IsHotKey() {
        cache.Set(key, state);
      }
    }

    method CleanupIdle(nowNanos: u64)
      requires Valid()
      modifies this
      ensures Valid() && tokens.Keys <= old(tokens).Keys
      ensures forall k :: k in tokens ==> tokens[k] == old(tokens)[k]
      ensures View() == S.Swept(old(View()), idleTtl, nowNanos)
      ensures idleTtl == None ==> tokens == old(tokens)
    {
      if idleTtl == None {
        return;
      }
      var ttl := idleTtl.value;
      var keysToRemove := set k | k in tokens && S.Stale(tokens[k].bucket.Value(), ttl, nowNanos);
      tokens := tokens - keysToRemove;
      S.SweptPointwise(old(View()), View(), ttl, nowNanos);
    }

    method ConsumeFrom(cache: CacheEntry, key: Key, cost: u64, now: u64, spurious: nat)
      returns (permitted: bool, remaining: u64)
      requires Valid() && Agrees(cache)
      modifies this, cache, tokens.Values, Buckets()
      ensures Valid() && Agrees(cache) && key in tokens
      ensures forall k :: k in old(tokens) ==> k in tokens && tokens[k] == old(tokens)[k]
      ensures tokens.Keys == old(tokens).Keys + {key}
      ensures forall k :: k in old(tokens) && k != key ==> tokens[k].bucket.Value() == old(tokens[k].bucket.Value())
      ensures key in old(tokens) ==>
                TB.Consume(old(tokens[key].bucket.Value()), cfg.Scale(), now, cost)
                == TB.Consumed(tokens[key].bucket.Value(), permitted, remaining)
      ensures key !in old(tokens) ==>
                TB.Consume(TB.NewBucket(cfg.capacity, now), cfg.Scale(), now, cost)
                == TB.Consumed(tokens[key].bucket.Value(), permitted, remaining)
    {
      var state := GetOrCreateStateCached(cache, key, now);
      forall k | k in tokens && k != key ensures tokens[k].bucket != state.bucket {
        assert keyOf[tokens[k].bucket] == k;
      }
      permitted, remaining := state.TryConsume(cfg, now, cost, spurious);
    }

    twostate lemma OnlyKeyChanged(key: Key)
      requires key in tokens && tokens.Keys == old(tokens).Keys + {key}
      requires forall k :: k in old(tokens) && k != key ==>
                 tokens[k] == old(tokens)[k] && tokens[k].bucket.Value() == old(tokens[k].bucket.Value())
      ensures View() == old(View())[key := tokens[key].bucket.Value()]
    {
    }

    method Decide(cache: CacheEntry, key: Key, cost: u64, now: u64, spurious: nat) returns (decision: Decision)
      requires Valid() && Agrees(cache) && cost > 0
      modifies this, cache, tokens.Values, Buckets()
      ensures Valid() && Agrees(cache)
      ensures forall k :: k in old(tokens) ==> k in tokens && tokens[k] == old(tokens)[k]
      ensures (View(), decision) == S.Check(old(View()), cfg, None, S.Event(key, cost, now, false))
    {
      var permitted, remaining := ConsumeFrom(cache, key, cost, now, spurious);
      OnlyKeyChanged(key);
      decision := TokenDecision(permitted, remaining, cfg.capacity, cfg.rate, cost);
    }

    /** With one instance behind the thread's cache, a cached check decides exactly as
        the uncached store. Without a TTL the map only grows, so the caches of all
        other threads keep agreeing with it. */
    method CheckImpl(cache: CacheEntry, key: Key, cost: u64, now: u64, sweep: bool, spurious: nat)
      returns (decision: Decision)
      requires Valid() && Agrees(cache)
      modifies this, cache, tokens.Values, Buckets()
      ensures Valid() && Agrees(cache)
      ensures (View(), decision) == S.Check(old(View()), cfg, idleTtl, S.Event(key, cost, now, sweep))
      ensures idleTtl == None ==> forall k :: k in old(tokens) ==> k in tokens && tokens[k] == old(tokens)[k]
    {
      if cost == 0 {
        return ZeroCostDecision(cfg.capacity);
      }
      if idleTtl.Some? && sweep {
        CleanupIdle(now);
      }
      decision := Decide(cache, key, cost, now, spurious);
    }
  }
}
