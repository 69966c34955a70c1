/** The keyed store of probabilistic buckets: a clock that is read only when a check
    needs it, and random draws that all keys share
    (src/algorithm/probabilistic_token_bucket.rs:616-732). */
module ProbabilisticStore {
  import opened Machine
  import opened Internal
  import opened Probabilistic
  import PR = ProbabilisticRuns
  import Shards

  type Key = Shards.Key

  type Contents = map<Key, Bucket>

  datatype Config = Config(capacity: u64, rate: u64, sampleRate: u32, idleTtl: Option<u64>) {
    predicate Valid() {
      capacity <= MAX_BURST && rate <= MAX_RATE_PER_SEC && sampleRate >= 1
    }

    function Params(): (p: Params)
      requires Valid()
      ensures p.Valid() && p == Probabilistic.Params.Params(capacity * SCALE, rate * SCALE, sampleRate)
    {
      NewParams(capacity, rate, sampleRate)
    }
  }

  datatype Request = Request(key: Key, cost: u64, now: u64)

  predicate Stale(b: Bucket, ttl: u64, now: u64) {
    SatSub(now, b.access) >= ttl
  }

  function Swept(m: Contents, ttl: u64, now: u64): Contents {
    map k | k in m && !Stale(m[k], ttl, now) :: m[k]
  }

  datatype Checked = Checked(contents: Contents, rng: Rng, decision: Decision)

  /** The cleanup that one check in `100 * sample_rate` runs first, when there is a TTL. */
  function Tidied(m: Contents, cfg: Config, now: u64, rng: Rng): (Contents, Rng)
    requires cfg.Valid()
  {
    if cfg.idleTtl == None then (m, rng)
    else if rng.Word() % (cfg.sampleRate * 100) == 0 then (Swept(m, cfg.idleTtl.value, now), rng.Advanced())
    else (m, rng.Advanced())
  }

  /** The key's bucket, or a full one with a drawn phase. */
  function Found(m: Contents, cfg: Config, key: Key, now: u64, rng: Rng): (Bucket, Rng)
    requires cfg.Valid()
  {
    if key in m then (m[key], rng) else (NewBucket(cfg.Params(), now, rng.Word()), rng.Advanced())
  }

  /** The key's part of a check; the access time is kept only for a TTL. */
  function AnswerFor(m: Contents, cfg: Config, r: Request, rng: Rng): Answer
    requires cfg.Valid()
  {
    var (b, rng1) := Found(m, cfg, r.key, r.now, rng);
    Consume(if cfg.idleTtl.Some? then b.(access := r.now) else b, cfg.Params(), r.now, r.cost, rng1)
  }

  function Served(m: Contents, cfg: Config, r: Request, rng: Rng): Checked
    requires cfg.Valid()
  {
    var a := AnswerFor(m, cfg, r, rng);
    Checked(m[r.key := a.bucket], a.rng, TokenDecision(a.permitted, a.remaining, cfg.capacity, cfg.rate, r.cost))
  }

  function Check(m: Contents, cfg: Config, r: Request, rng: Rng): Checked
    requires cfg.Valid()
  {
    if r.cost == 0 then Checked(m, rng, ZeroCostDecision(cfg.capacity))
    else
      var (tidy, rng1) := Tidied(m, cfg, r.now, rng);
      Served(tidy, cfg, r, rng1)
  }

  /** Without a TTL, an unsampled request whose level covers the ramp needs no clock. */
  predicate DecidesUntimed(cfg: Config, b: Bucket, cost: u64)
    requires cfg.Valid()
  {
    var p := cfg.Params();
    cfg.idleTtl == None && cfg.sampleRate > 1 && !Sampled(b, p) && b.tokens >= Ramp(p, Lump(p, ScaledI(cost)))
  }

  lemma OnlyKeyChanged(m: Contents, m': Contents, key: Key)
    requires m'.Keys == m.Keys + {key} && forall k :: k in m && k != key ==> m'[k] == m[k]
    ensures m' == m[key := m'[key]]
  {
  }

  // Every key of the store at once.

  predicate LevelsWithin(m: Contents, p: Params, lump: i64) {
    forall k :: k in m ==> PR.Depth(p, lump) <= m[k].tokens <= p.capacity
  }

  lemma CheckKeepsLevels(m: Contents, cfg: Config, r: Request, rng: Rng, lump: i64)
    requires cfg.Valid() && LevelsWithin(m, cfg.Params(), lump) && Lump(cfg.Params(), ScaledI(r.cost)) <= lump
    ensures LevelsWithin(Check(m, cfg, r, rng).contents, cfg.Params(), lump)
  {
    if r.cost > 0 {
      var (tidy, rng1) := Tidied(m, cfg, r.now, rng);
      var (b, rng2) := Found(tidy, cfg, r.key, r.now, rng1);
      var seen := if cfg.idleTtl.Some? then b.(access := r.now) else b;
      PR.AnswerKeepsLevel(seen, cfg.Params(), r.now, r.cost, rng2, lump);
    }
  }

  function ContentsAfter(m: Contents, cfg: Config, rs: seq<Request>, rng: Rng): Contents
    requires cfg.Valid()
    decreases rs
  {
    if rs == [] then m
    else
      var c := Check(m, cfg, rs[0], rng);
      ContentsAfter(c.contents, cfg, rs[1..], c.rng)
  }

  function RngAfter(m: Contents, cfg: Config, rs: seq<Request>, rng: Rng): Rng
    requires cfg.Valid()
    decreases rs
  {
    if rs == [] then rng
    else
      var c := Check(m, cfg, rs[0], rng);
      RngAfter(c.contents, cfg, rs[1..], c.rng)
  }

  /** Over every serialized history of a store, any keys, costs, evictions and draws, no
      key's level leaves the range between the depth of the largest lump and the
      capacity. */
  lemma {:induction false} EveryLevelStaysInRange(m: Contents, cfg: Config, rs: seq<Request>, rng: Rng, lump: i64)
    requires cfg.Valid() && LevelsWithin(m, cfg.Params(), lump)
    requires forall i :: 0 <= i < |rs| ==> Lump(cfg.Params(), ScaledI(rs[i].cost)) <= lump
    ensures LevelsWithin(ContentsAfter(m, cfg, rs, rng), cfg.Params(), lump)
    decreases rs
  {
    if rs != [] {
      CheckKeepsLevels(m, cfg, rs[0], rng, lump);
      var c := Check(m, cfg, rs[0], rng);
      EveryLevelStaysInRange(c.contents, cfg, rs[1..], c.rng, lump);
    }
  }

  /** One flat map stands for the shards, which are those of the token store. */
  class ProbabilisticTokenBucket {
    const cfg: Config
    var states: map<Key, AtomicProbabilisticState>
    /** The key that each object serves. */
    ghost var keyOf: map<AtomicProbabilisticState, Key>

    ghost predicate Valid()
      reads this
    {
      cfg.Valid() && forall k :: k in states ==> states[k] in keyOf && keyOf[states[k]] == k
    }

    ghost function View(): Contents
      reads this, states.Values
    {
      map k | k in states :: states[k].Value()
    }

    constructor (capacity: u64, rate: u64, sampleRate: u32, idleTtl: Option<u64>)
      requires sampleRate >= 1
      ensures Valid() && View() == map[] && states == map[]
      ensures cfg == Config(Min(capacity, MAX_BURST), Min(rate, MAX_RATE_PER_SEC), sampleRate, idleTtl)
      ensures cfg.Params() == NewParams(capacity, rate, sampleRate)
    {
      cfg := Config(Min(capacity, MAX_BURST), Min(rate, MAX_RATE_PER_SEC), sampleRate, idleTtl);
      states := map[];
      keyOf := map[];
    }

    /** A check that finds its key and has no TTL to serve has no use for the clock yet. */
    method GetOrInsert(key: Key, clock: LazyNow, random: RandomSource) returns (state: AtomicProbabilisticState)
      requires Valid() && clock.Valid()
      modifies this, clock, random
      ensures Valid() && clock.Valid() && key in states && states[key] == state
      ensures states.Values <= old(states).Values + {state}
      ensures key in old(states) ==>
                states == old(states) && random.Value() == old(random.Value()) && clock.readings == old(clock.readings)
      ensures key !in old(states) ==>
        && fresh(state) && states == old(states)[key := state]
        && (state.Value(), random.Value()) == Found(map[], cfg, key, clock.instant, old(random.Value()))
    {
      if key in states {
        return states[key];
      }
      var now := clock.Get();
      var phase := random.FastRandom();
      state := new AtomicProbabilisticState(cfg.capacity, now, phase);
      states := states[key := state];
      keyOf := keyOf[state := key];
    }

    method CleanupIdle(ttl: u64, nowNanos: u64)
      requires Valid()
      modifies this
      ensures Valid() && states.Values <= old(states).Values
      ensures View() == Swept(old(View()), ttl, nowNanos)
    {
      var keysToRemove := set k | k in states && Stale(states[k].Value(), ttl, nowNanos);
      states := states - keysToRemove;
    }

    method Tidy(clock: LazyNow, random: RandomSource)
      requires Valid() && clock.Valid()
      modifies this, clock, random
      ensures Valid() && clock.Valid() && states.Values <= old(states).Values
      ensures (View(), random.Value()) == Tidied(old(View()), cfg, clock.instant, old(random.Value()))
      ensures cfg.idleTtl == None ==> states == old(states) && clock.readings == old(clock.readings)
    {
      if cfg.idleTtl.Some? {
        var word := random.FastRandom();
        if word % (cfg.sampleRate * 100) == 0 {
          var now := clock.Get();
          CleanupIdle(cfg.idleTtl.value, now);
        }
      }
    }

    /** Finds or makes the key's bucket and consumes from it; no other key is touched. */
    method ConsumeFrom(key: Key, cost: u64, clock: LazyNow, random: RandomSource, spurious: nat)
      returns (permitted: bool, remaining: u64)
      requires Valid() && clock.Valid()
      modifies this, clock, random, states.Values
      ensures Valid() && clock.Valid() && key in states && fresh(states.Values - old(states.Values))
      ensures forall k :: k != key ==> (k in states <==> k in old(states))
      ensures forall k :: k in states && k != key ==>
                states[k] == old(states)[k] && states[k].Value() == old(states[k].Value())
      ensures AnswerFor(old(View()), cfg, Request(key, cost, clock.instant), old(random.Value()))
           == Answer(states[key].Value(), random.Value(), permitted, remaining)
      ensures key in old(states) && DecidesUntimed(cfg, old(View())[key], cost) ==>
                clock.readings == old(clock.readings)
    {
      var state := GetOrInsert(key, clock, random);
      permitted, remaining :=
        state.TryConsumeProbabilistic(cfg.Params(), clock, cost, cfg.idleTtl.Some?, random, spurious);
      forall k | k in states && k != key
        ensures states[k] == old(states)[k] && states[k].Value() == old(states[k].Value())
      {
        assert k in old(states) && keyOf[states[k]] == k != keyOf[state];
      }
    }

    method Decide(key: Key, cost: u64, clock: LazyNow, random: RandomSource, spurious: nat) returns (decision: Decision)
      requires Valid() && clock.Valid()
      modifies this, clock, random, states.Values
      ensures Valid() && clock.Valid() && fresh(states.Values - old(states.Values))
      ensures Checked(View(), random.Value(), decision)
           == Served(old(View()), cfg, Request(key, cost, clock.instant), old(random.Value()))
      ensures key in old(states) && DecidesUntimed(cfg, old(View())[key], cost) ==>
                clock.readings == old(clock.readings)
    {
      var permitted, remaining := ConsumeFrom(key, cost, clock, random, spurious);
      OnlyKeyChanged(old(View()), View(), key);
      decision := TokenDecision(permitted, remaining, cfg.capacity, cfg.rate, cost);
    }

    /** One check reads the clock at most once, and not at all for a known key without a
        TTL when the level alone decides. */
    method CheckImpl(key: Key, cost: u64, now: u64, random: RandomSource, spurious: nat)
      returns (decision: Decision, readings: nat)
      requires Valid()
      modifies this, random, states.Values
      ensures Valid() && fresh(states.Values - old(states.Values))
      ensures Checked(View(), random.Value(), decision)
           == Check(old(View()), cfg, Request(key, cost, now), old(random.Value()))
      ensures readings <= 1
      ensures cost == 0 || (key in old(states) && DecidesUntimed(cfg, old(View())[key], cost)) ==> readings == 0
    {
      if cost == 0 {
        return ZeroCostDecision(cfg.capacity), 0;
      }
      var clock := new LazyNow(now);
      Tidy(clock, random);
      decision := Decide(key, cost, clock, random, spurious);
      readings := clock.readings;
    }
  }
}
