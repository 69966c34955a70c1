/** The keyed store of token buckets: 256 shards, get-or-insert, and eviction of idle
    keys (src/algorithm/token_bucket.rs:172-216, 385-448). */
module Store {
  import opened Machine
  import opened Internal
  import opened TokenBucket
  import opened Shards

  /** One `check_with_cost`, at an instant; `sweep` is the draw of `should_cleanup`. */
  datatype Event = Event(key: Key, cost: u64, now: u64, sweep: bool)

  type Contents = map<Key, Bucket>

  predicate Stale(b: Bucket, ttl: u64, now: u64) {
    SatSub(now, b.access) >= ttl
  }

  function Swept(m: Contents, ttl: Option<u64>, now: u64): Contents {
    if ttl == None then m else map k | k in m && !Stale(m[k], ttl.value, now) :: m[k]
  }

  lemma SweptPointwise(m: Contents, m': Contents, ttl: u64, now: u64)
    requires m'.Keys <= m.Keys
    requires forall k :: k in m ==> (k !in m' <==> Stale(m[k], ttl, now))
    requires forall k :: k in m' ==> m'[k] == m[k]
    ensures m' == Swept(m, Some(ttl), now)
  {
  }

  /** What a check does to the one flat map that the shards stand for. */
  function Check(m: Contents, cfg: Config, ttl: Option<u64>, e: Event): (Contents, Decision) {
    if e.cost == 0 then (m, ZeroCostDecision(cfg.capacity))
    else
      var m1 := if e.sweep then Swept(m, ttl, e.now) else m;
      var b := if e.key in m1 then m1[e.key] else NewBucket(cfg.capacity, e.now);
      var c := Consume(b, cfg.Scale(), e.now, e.cost);
      (m1[e.key := c.bucket], TokenDecision(c.permitted, c.remaining, cfg.capacity, cfg.rate, e.cost))
  }

  // Shards and the flat map they stand for.

  /** Every key of `flat` is in its own shard and in no other, with the same value. */
  ghost predicate Mirrors<V>(shards: seq<map<Key, V>>, flat: map<Key, V>, shardOf: Key -> nat) {
    && |shards| == NUM_SHARDS
    && (forall k :: shardOf(k) < NUM_SHARDS)
    && (forall i, k :: 0 <= i < NUM_SHARDS && k in shards[i] ==>
          shardOf(k) == i && k in flat && shards[i][k] == flat[k])
    && (forall k :: k in flat ==> k in shards[shardOf(k)])
  }

  lemma InsertKeepsMirror<V>(shards: seq<map<Key, V>>, flat: map<Key, V>, shardOf: Key -> nat, key: Key, v: V)
    requires Mirrors(shards, flat, shardOf)
    ensures Mirrors(shards[shardOf(key) := shards[shardOf(key)][key := v]], flat[key := v], shardOf)
  {
  }

  lemma RemoveKeepsMirror<V>(shards: seq<map<Key, V>>, flat: map<Key, V>, shardOf: Key -> nat, i: nat, keys: set<Key>)
    requires Mirrors(shards, flat, shardOf) && i < NUM_SHARDS && keys <= shards[i].Keys
    ensures Mirrors(shards[i := shards[i] - keys], flat - keys, shardOf)
  {
    var shard := shards[i];
    var shards', flat' := shards[i := shard - keys], flat - keys;
    forall j, k | 0 <= j < NUM_SHARDS && k in shards'[j]
      ensures shardOf(k) == j && k in flat' && shards'[j][k] == flat'[k]
    {
      assert k in shards[j];
      assert k in keys ==> k in shard;
    }
    forall k | k in flat' ensures k in shards'[shardOf(k)] {
      assert k in flat && k in shards[shardOf(k)];
    }
  }

  /** The store, for whatever function `shardOf` assigns keys to shards. */
  class ShardedTokenBucket {
    const cfg: Config
    const shardOf: Key -> nat
    const idleTtl: Option<u64>
    var shards: seq<map<Key, AtomicTokenState>>
    /** All keys and their objects, whatever shard they live in, and the way back. */
    ghost var flat: map<Key, AtomicTokenState>
    ghost var keyOf: map<AtomicTokenState, Key>

    ghost predicate Valid()
      reads this
    {
      && Mirrors(shards, flat, shardOf)
      && (forall k :: k in flat ==> flat[k] in keyOf && keyOf[flat[k]] == k)
    }

    ghost function View(): Contents
      reads this, flat.Values
    {
      map k | k in flat :: flat[k].Value()
    }

    constructor (capacity: u64, rate: u64, idleTtl: Option<u64>, shardOf: Key -> nat)
      requires forall k :: shardOf(k) < NUM_SHARDS
      ensures Valid() && View() == map[] && flat == map[]
      ensures cfg == NewConfig(capacity, rate) && this.idleTtl == idleTtl && this.shardOf == shardOf
    {
      cfg := NewConfig(capacity, rate);
      this.idleTtl := idleTtl;
      this.shardOf := shardOf;
      shards := seq(NUM_SHARDS, _ => map[]);
      flat := map[];
      keyOf := map[];
    }

    /** The object of a key, inserting a full bucket when there is none. */
    method GetOrInsert(key: Key, now: u64) returns (state: AtomicTokenState)
      requires Valid()
      modifies this
      ensures Valid() && key in flat && flat[key] == state && flat.Values <= old(flat).Values + {state}
      ensures key in old(flat) ==> flat == old(flat)
      ensures key !in old(flat) ==> fresh(state) && flat == old(flat)[key := state]
      ensures key !in old(flat) ==> state.Value() == NewBucket(cfg.capacity, now)
    {
      var index := shardOf(key);
      if key in shards[index] {
        state := shards[index][key];
      } else {
        state := new AtomicTokenState(cfg.capacity, now);
        InsertKeepsMirror(shards, flat, shardOf, key, state);
        shards := shards[index := shards[index][key := state]];
        flat := flat[key := state];
        keyOf := keyOf[state := key];
      }
    }

    /** Removes the stale keys of one shard. */
    method CleanShard(i: nat, ttl: u64, nowNanos: u64)
      requires Valid() && i < NUM_SHARDS
      modifies this
      ensures Valid() && flat.Keys <= old(flat).Keys
      ensures forall k :: k in old(flat) ==>
                (k !in flat <==> shardOf(k) == i && Stale(old(flat)[k].Value(), ttl, nowNanos))
      ensures (forall k :: k in flat ==> flat[k] == old(flat)[k]) && flat.Values <= old(flat).Values
    {
      var shard := shards[i];
      var keysToRemove := set k | k in shard && Stale(shard[k].Value(), ttl, nowNanos);
      RemoveKeepsMirror(shards, flat, shardOf, i, keysToRemove);
      shards := shards[i := shard - keysToRemove];
      flat := flat - keysToRemove;
    }

    method CleanShards(ttl: u64, nowNanos: u64)
      requires Valid()
      modifies this
      ensures Valid() && flat.Keys <= old(flat).Keys
      ensures forall k :: k in old(flat) ==> (k !in flat <==> Stale(old(flat)[k].Value(), ttl, nowNanos))
      ensures (forall k :: k in flat ==> flat[k] == old(flat)[k]) && flat.Values <= old(flat).Values
    {
      for i := 0 to NUM_SHARDS
        invariant Valid() && flat.Keys <= old(flat).Keys
        invariant forall k :: k in old(flat) ==>
                    (k !in flat <==> shardOf(k) < i && Stale(old(flat)[k].Value(), ttl, nowNanos))
        invariant (forall k :: k in flat ==> flat[k] == old(flat)[k]) && flat.Values <= old(flat).Values
      {
        CleanShard(i, ttl, nowNanos);
      }
    }

    method CleanupIdle(nowNanos: u64)
      requires Valid()
      modifies this
      ensures Valid() && flat.Values <= old(flat).Values
      ensures View() == Swept(old(View()), idleTtl, nowNanos)
    {
      if idleTtl == None {
        return;
      }
      CleanShards(idleTtl.value, nowNanos);
      SweptPointwise(old(View()), View(), idleTtl.value, nowNanos);
    }

    /** Finds or makes the key's bucket and consumes from it; no other key is touched. */
    method ConsumeFrom(key: Key, cost: u64, now: u64, spurious: nat) returns (permitted: bool, remaining: u64)
      requires Valid()
      modifies this, flat.Values
      ensures Valid() && key in flat && fresh(flat.Values - old(flat.Values))
      ensures forall k :: k != key ==> (k in flat <==> k in old(flat))
      ensures forall k :: k in flat && k != key ==> flat[k] == old(flat)[k] && flat[k].Value() == old(flat[k].Value())
      ensures key in old(flat) ==>
                Consume(old(flat[key].Value()), cfg.Scale(), now, cost)
                == Consumed(flat[key].Value(), permitted, remaining)
      ensures key !in old(flat) ==>
                Consume(NewBucket(cfg.capacity, now), cfg.Scale(), now, cost)
                == Consumed(flat[key].Value(), permitted, remaining)
    {
      var state := GetOrInsert(key, now);
      permitted, remaining := state.TryConsume(cfg, now, cost, spurious);
      forall k | k in flat && k != key
        ensures flat[k] == old(flat)[k] && flat[k].Value() == old(flat[k].Value())
      {
        assert k in old(flat) && keyOf[flat[k]] == k != keyOf[state];
      }
    }

    twostate lemma OnlyKeyChanged(key: Key)
      requires old(Valid()) && Valid() && key in flat
      requires forall k :: k != key ==> (k in flat <==> k in old(flat))
      requires forall k :: k in flat && k != key ==> flat[k] == old(flat)[k] && flat[k].Value() == old(flat[k].Value())
      ensures View() == old(View())[key := flat[key].Value()]
    {
    }

    method Decide(key: Key, cost: u64, now: u64, spurious: nat) returns (decision: Decision)
      requires Valid() && cost > 0
      modifies this, flat.Values
      ensures Valid() && fresh(flat.Values - old(flat.Values))
      ensures (View(), decision) == Check(old(View()), cfg, None, Event(key, cost, now, false))
    {
      var permitted, remaining := ConsumeFrom(key, cost, now, spurious);
      OnlyKeyChanged(key);
      decision := TokenDecision(permitted, remaining, cfg.capacity, cfg.rate, cost);
    }

    method CheckImpl(key: Key, cost: u64, now: u64, sweep: bool, spurious: nat) returns (decision: Decision)
      requires Valid()
      modifies this, flat.Values
      ensures Valid() && fresh(flat.Values - old(flat.Values))
      ensures (View(), decision) == Check(old(View()), cfg, idleTtl, Event(key, cost, now, sweep))
    {
      if cost == 0 {
        return ZeroCostDecision(cfg.capacity);
      }
      if idleTtl.Some? && sweep {
        CleanupIdle(now);
      }
      decision := Decide(key, cost, now, spurious);
    }
  }

  /** `TokenBucket::new` and `with_ttl`: the store with the FNV shards. */
  method NewTokenBucket(capacity: u64, rate: u64, idleTtl: Option<u64>) returns (store: ShardedTokenBucket)
    ensures fresh(store) && store.Valid() && store.View() == map[]
    ensures store.cfg == NewConfig(capacity, rate) && store.idleTtl == idleTtl
    ensures forall k :: store.shardOf(k) == ShardIndex(k)
  {
    store := new ShardedTokenBucket(capacity, rate, idleTtl, k => ShardIndex(k));
  }
}
