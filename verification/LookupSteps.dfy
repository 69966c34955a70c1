/** Which bucket a racing check ends up using: threads look keys up, insert what is
    missing and keep a hot key in a per-thread cache, in any interleaving
    (src/algorithm/token_bucket.rs:426-440, src/algorithm/cached_token_bucket.rs:140-146,
    174-190, 204-210, 259-295). */
module LookupSteps {
  import opened Machine
  import C = CachedTokenBucket
  import Shards

  type Key = Shards.Key

  /** A bucket object, by the order of its allocation. */
  type Id = nat

  datatype Pc =
    | Idle
    | Missed(instance: nat, key: Key)
    | Inserting(instance: nat, key: Key, own: Id)
    | Found(instance: nat, key: Key, id: Id)
    | Holding(instance: nat, key: Key, id: Id)

  datatype Cached = Cached(key: Key, id: Id)

  /** A finished check: which object served which key of which limiter. */
  datatype Use = Use(instance: nat, key: Key, id: Id)

  /** Whether the limiters cache, which instances evict, the maps of the instances, the
      cache of each thread (one static for all instances), and how often each object
      was used. */
  datatype State = State(
    caching: bool,
    ttls: seq<bool>,
    maps: seq<map<Key, Id>>,
    caches: seq<Option<Cached>>,
    threads: seq<Pc>,
    accesses: map<Id, nat>,
    nextId: Id,
    log: seq<Use>)

  datatype Action =
    | Begin(thread: nat, instance: nat, key: Key)
    | Get(thread: nat)
    | TryInsert(thread: nat)
    | MaybeCache(thread: nat)
    | Consume(thread: nat)
    | Evict(instance: nat, key: Key)

  /** Nothing is ever evicted from this instance. */
  predicate Keeps(ttls: seq<bool>, instance: nat) {
    instance < |ttls| && !ttls[instance]
  }

  /** The cache is looked at and filled only by instances without a TTL. */
  predicate CacheInUse(s: State, instance: nat) {
    s.caching && Keeps(s.ttls, instance)
  }

  predicate WellShaped(s: State) {
    |s.caches| == |s.threads| && |s.ttls| == |s.maps|
  }

  predicate Enabled(s: State, a: Action) {
    && WellShaped(s)
    && match a
       case Begin(t, i, _) => t < |s.threads| && s.threads[t].Idle? && i < |s.maps|
       case Get(t) => t < |s.threads| && s.threads[t].Missed? && s.threads[t].instance < |s.maps|
       case TryInsert(t) => t < |s.threads| && s.threads[t].Inserting? && s.threads[t].instance < |s.maps|
       case MaybeCache(t) => t < |s.threads| && s.threads[t].Found?
       case Consume(t) => t < |s.threads| && s.threads[t].Holding?
       case Evict(i, _) => i < |s.maps| && s.ttls[i]
  }

  function Uses(s: State, id: Id): nat {
    if id in s.accesses then s.accesses[id] else 0
  }

  function Next(s: State, a: Action): State
    requires Enabled(s, a)
  {
    match a
    case Begin(t, i, key) =>
      var cache := s.caches[t];
      var hit := CacheInUse(s, i) && cache.Some? && cache.value.key == key;
      s.(threads := s.threads[t := if hit then Holding(i, key, cache.value.id) else Missed(i, key)])
    case Get(t) =>
      var Missed(i, key) := s.threads[t];
      if key in s.maps[i] then s.(threads := s.threads[t := Found(i, key, s.maps[i][key])])
      else s.(threads := s.threads[t := Inserting(i, key, s.nextId)], nextId := s.nextId + 1)
    case TryInsert(t) =>
      var Inserting(i, key, own) := s.threads[t];
      if key in s.maps[i] then s.(threads := s.threads[t := Found(i, key, s.maps[i][key])])
      else
        var inserted: map<Key, Id> := s.maps[i][key := own];
        s.(threads := s.threads[t := Found(i, key, own)], maps := s.maps[i := inserted])
    case MaybeCache(t) =>
      var Found(i, key, id) := s.threads[t];
      var hot := CacheInUse(s, i) && Uses(s, id) > C.HOT_ACCESSES;
      s.(threads := s.threads[t := Holding(i, key, id)],
         caches := if hot then s.caches[t := Some(Cached(key, id))] else s.caches)
    case Consume(t) =>
      var Holding(i, key, id) := s.threads[t];
      var accesses: map<Id, nat> := s.accesses[id := Uses(s, id) + 1];
      s.(threads := s.threads[t := Idle], accesses := accesses, log := s.log + [Use(i, key, id)])
    case Evict(i, key) => s.(maps := s.maps[i := s.maps[i] - {key}])
  }

  predicate Feasible(s: State, schedule: seq<Action>)
    decreases schedule
  {
    schedule == [] || (Enabled(s, schedule[0]) && Feasible(Next(s, schedule[0]), schedule[1..]))
  }

  function Exec(s: State, schedule: seq<Action>): State
    requires Feasible(s, schedule)
    decreases schedule
  {
    if schedule == [] then s else Exec(Next(s, schedule[0]), schedule[1..])
  }

  function Initial(caching: bool, ttls: seq<bool>, threads: nat): State {
    State(caching, ttls, seq(|ttls|, _ => map[]), seq(threads, _ => None), seq(threads, _ => Idle), map[], 0, [])
  }

  /** The object is the one that the instance's map holds for the key. */
  predicate Official(s: State, instance: nat, key: Key, id: Id) {
    instance < |s.maps| && key in s.maps[instance] && s.maps[instance][key] == id
  }

  // No cache, or at most one instance that uses it.

  predicate OneKeeper(ttls: seq<bool>) {
    forall i, j :: 0 <= i < |ttls| && 0 <= j < |ttls| && !ttls[i] && !ttls[j] ==> i == j
  }

  predicate PcOfficial(s: State, pc: Pc) {
    match pc
    case Found(i, key, id) => Keeps(s.ttls, i) ==> Official(s, i, key, id)
    case Holding(i, key, id) => Keeps(s.ttls, i) ==> Official(s, i, key, id)
    case _ => true
  }

  /** What a thread has cached is the object that the one keeping instance holds. */
  predicate CacheOfficial(s: State, cache: Option<Cached>) {
    cache.Some? ==>
      s.caching && forall i :: 0 <= i < |s.ttls| && Keeps(s.ttls, i) ==> Official(s, i, cache.value.key, cache.value.id)
  }

  predicate UseOfficial(s: State, use: Use) {
    Keeps(s.ttls, use.instance) ==> Official(s, use.instance, use.key, use.id)
  }

  predicate Inv(s: State) {
    && WellShaped(s) && (s.caching ==> OneKeeper(s.ttls))
    && (forall t :: 0 <= t < |s.threads| ==> PcOfficial(s, s.threads[t]))
    && (forall t :: 0 <= t < |s.caches| ==> CacheOfficial(s, s.caches[t]))
    && (forall i :: 0 <= i < |s.log| ==> UseOfficial(s, s.log[i]))
  }

  /** What a keeping instance holds for a key it holds for good. */
  lemma OfficialStays(s: State, a: Action, instance: nat, key: Key, id: Id)
    requires WellShaped(s) && Enabled(s, a) && Keeps(s.ttls, instance) && Official(s, instance, key, id)
    ensures Official(Next(s, a), instance, key, id)
  {
  }

  lemma StepKeepsInv(s: State, a: Action)
    requires Inv(s) && Enabled(s, a)
    ensures Inv(Next(s, a))
  {
    var s' := Next(s, a);
    forall t | 0 <= t < |s'.threads| ensures PcOfficial(s', s'.threads[t]) {
      ThreadStaysOfficial(s, a, t);
    }
    forall t | 0 <= t < |s'.caches| ensures CacheOfficial(s', s'.caches[t]) {
      CacheStaysOfficial(s, a, t);
    }
    forall i | 0 <= i < |s'.log| ensures UseOfficial(s', s'.log[i]) {
      UseStaysOfficial(s, a, i);
    }
  }

  lemma ThreadStaysOfficial(s: State, a: Action, t: nat)
    requires Inv(s) && Enabled(s, a) && t < |s.threads|
    ensures PcOfficial(Next(s, a), Next(s, a).threads[t])
  {
    var pc := s.threads[t];
    assert PcOfficial(s, pc) && CacheOfficial(s, s.caches[t]);
    if (pc.Found? || pc.Holding?) && Keeps(s.ttls, pc.instance) {
      OfficialStays(s, a, pc.instance, pc.key, pc.id);
    }
  }

  lemma CacheStaysOfficial(s: State, a: Action, t: nat)
    requires Inv(s) && Enabled(s, a) && t < |s.caches|
    ensures CacheOfficial(Next(s, a), Next(s, a).caches[t])
  {
    var s', cache := Next(s, a), Next(s, a).caches[t];
    assert CacheOfficial(s, s.caches[t]) && PcOfficial(s, s.threads[t]);
    if cache.Some? {
      forall i | 0 <= i < |s'.ttls| && Keeps(s'.ttls, i) ensures Official(s', i, cache.value.key, cache.value.id) {
        OfficialStays(s, a, i, cache.value.key, cache.value.id);
      }
    }
  }

  lemma UseStaysOfficial(s: State, a: Action, i: nat)
    requires Inv(s) && Enabled(s, a) && i < |Next(s, a).log|
    ensures UseOfficial(Next(s, a), Next(s, a).log[i])
  {
    var use := Next(s, a).log[i];
    if i == |s.log| {
      assert PcOfficial(s, s.threads[a.thread]);
    } else {
      assert UseOfficial(s, use);
    }
    if Keeps(s.ttls, use.instance) {
      OfficialStays(s, a, use.instance, use.key, use.id);
    }
  }

  lemma {:induction false} RunKeepsInv(s: State, schedule: seq<Action>)
    requires Inv(s) && Feasible(s, schedule)
    ensures Inv(Exec(s, schedule)) && Exec(s, schedule).ttls == s.ttls
    decreases schedule
  {
    if schedule != [] {
      StepKeepsInv(s, schedule[0]);
      RunKeepsInv(Next(s, schedule[0]), schedule[1..]);
    }
  }

  /** Every check of an instance without a TTL used the object its map holds for the key. */
  predicate AllOfficial(s: State) {
    forall i :: 0 <= i < |s.log| ==> UseOfficial(s, s.log[i])
  }

  predicate OneBucketPerKey(caching: bool, ttls: seq<bool>, threads: nat, schedule: seq<Action>) {
    var s := Initial(caching, ttls, threads);
    Feasible(s, schedule) ==> AllOfficial(Exec(s, schedule))
  }

  /** Racing lookups and inserts never leave two live buckets for a key of a limiter
      that evicts nothing, and what a thread has cached is the object in the map. */
  lemma {:induction false} RacingInsertsShareOneBucket(caching: bool, ttls: seq<bool>, threads: nat,
          schedule: seq<Action>)
    requires caching ==> OneKeeper(ttls)
    requires Feasible(Initial(caching, ttls, threads), schedule)
    ensures var s := Exec(Initial(caching, ttls, threads), schedule);
            && s.ttls == ttls && AllOfficial(s)
            && (forall i, j :: 0 <= i < |s.log| && 0 <= j < |s.log| && Keeps(ttls, s.log[i].instance)
                            && s.log[i].instance == s.log[j].instance && s.log[i].key == s.log[j].key
                            ==> s.log[i].id == s.log[j].id)
            && (forall t :: 0 <= t < |s.caches| ==> CacheOfficial(s, s.caches[t]))
  {
    RunKeepsInv(Initial(caching, ttls, threads), schedule);
    var s := Exec(Initial(caching, ttls, threads), schedule);
    assert forall i :: 0 <= i < |s.log| ==> UseOfficial(s, s.log[i]);
  }

  // Where every instance has a TTL, nothing is cached.

  lemma {:induction false} TtlNeverCaches(s: State, schedule: seq<Action>)
    requires Feasible(s, schedule) && forall i :: 0 <= i < |s.ttls| ==> s.ttls[i]
    requires forall t :: 0 <= t < |s.caches| ==> s.caches[t] == None
    ensures forall t :: 0 <= t < |Exec(s, schedule).caches| ==> Exec(s, schedule).caches[t] == None
    decreases schedule
  {
    if schedule != [] {
      TtlNeverCaches(Next(s, schedule[0]), schedule[1..]);
    }
  }

  // Two instances without a TTL share each thread's cache.

  lemma {:induction false} ExecOne(s: State, a: Action, rest: seq<Action>)
    requires Enabled(s, a)
    ensures Feasible(s, [a] + rest) <==> Feasible(Next(s, a), rest)
    ensures Feasible(s, [a] + rest) ==> Exec(s, [a] + rest) == Exec(Next(s, a), rest)
  {
    assert ([a] + rest)[1..] == rest;
  }

  lemma {:induction false} ExecAppend(s: State, front: seq<Action>, back: seq<Action>)
    requires Feasible(s, front) && Feasible(Exec(s, front), back)
    ensures Feasible(s, front + back) && Exec(s, front + back) == Exec(Exec(s, front), back)
    decreases front
  {
    if front == [] {
      assert front + back == back;
    } else {
      assert front + back == [front[0]] + (front[1..] + back);
      ExecAppend(Next(s, front[0]), front[1..], back);
    }
  }

  /** One more step at the end of a schedule. */
  lemma {:induction false} Extend(s: State, schedule: seq<Action>, a: Action)
    requires Feasible(s, schedule) && Enabled(Exec(s, schedule), a)
    ensures Feasible(s, schedule + [a]) && Exec(s, schedule + [a]) == Next(Exec(s, schedule), a)
  {
    ExecOne(Exec(s, schedule), a, []);
    assert [a] == [a] + [];
    ExecAppend(s, schedule, [a]);
  }

  function Lone(ttls: seq<bool>): State {
    Initial(true, ttls, 1)
  }

  predicate TwoKeepers(ttls: seq<bool>, a: nat, b: nat) {
    Keeps(ttls, a) && Keeps(ttls, b) && a != b
  }

  /** Instance `a` has served one key `uses` times, and `b` has not seen it. */
  predicate Warmed(s: State, ttls: seq<bool>, a: nat, b: nat, key: Key, uses: nat) {
    && s.caching && s.ttls == ttls && |s.maps| == |ttls| && TwoKeepers(ttls, a, b)
    && s.maps[a] == map[key := 0] && s.maps[b] == map[] && s.threads == [Idle]
    && s.accesses == map[0 := uses]
    && s.caches == [if uses > C.HOT_ACCESSES + 1 then Some(Cached(key, 0)) else None]
  }

  lemma FirstRound(ttls: seq<bool>, a: nat, b: nat, key: Key) returns (schedule: seq<Action>)
    requires TwoKeepers(ttls, a, b)
    ensures Feasible(Lone(ttls), schedule) && Warmed(Exec(Lone(ttls), schedule), ttls, a, b, key, 1)
  {
    schedule := [];
    Extend(Lone(ttls), schedule, Begin(0, a, key));
    schedule := schedule + [Begin(0, a, key)];
    Extend(Lone(ttls), schedule, Get(0));
    schedule := schedule + [Get(0)];
    Extend(Lone(ttls), schedule, TryInsert(0));
    schedule := schedule + [TryInsert(0)];
    Extend(Lone(ttls), schedule, MaybeCache(0));
    schedule := schedule + [MaybeCache(0)];
    Extend(Lone(ttls), schedule, Consume(0));
    schedule := schedule + [Consume(0)];
  }

  lemma NextRound(ttls: seq<bool>, a: nat, b: nat, schedule: seq<Action>, key: Key,
          uses: nat) returns (longer: seq<Action>)
    requires Feasible(Lone(ttls), schedule) && Warmed(Exec(Lone(ttls), schedule), ttls, a, b, key, uses)
    requires 0 < uses <= C.HOT_ACCESSES + 1
    ensures Feasible(Lone(ttls), longer) && Warmed(Exec(Lone(ttls), longer), ttls, a, b, key, uses + 1)
  {
    Extend(Lone(ttls), schedule, Begin(0, a, key));
    longer := schedule + [Begin(0, a, key)];
    Extend(Lone(ttls), longer, Get(0));
    longer := longer + [Get(0)];
    Extend(Lone(ttls), longer, MaybeCache(0));
    longer := longer + [MaybeCache(0)];
    Extend(Lone(ttls), longer, Consume(0));
    longer := longer + [Consume(0)];
  }

  lemma {:induction false} WarmUp(ttls: seq<bool>, a: nat, b: nat, key: Key, uses: nat) returns (schedule: seq<Action>)
    requires TwoKeepers(ttls, a, b) && 0 < uses <= C.HOT_ACCESSES + 2
    ensures Feasible(Lone(ttls), schedule) && Warmed(Exec(Lone(ttls), schedule), ttls, a, b, key, uses)
    decreases uses
  {
    if uses == 1 {
      schedule := FirstRound(ttls, a, b, key);
    } else {
      var shorter := WarmUp(ttls, a, b, key, uses - 1);
      schedule := NextRound(ttls, a, b, shorter, key, uses - 1);
    }
  }

  /** A key made hot through one instance without a TTL is then served from that
      instance's bucket when another one is asked for it. */
  lemma SecondInstanceUsesFirstBucket(ttls: seq<bool>, a: nat, b: nat, key: Key) returns (schedule: seq<Action>)
    requires TwoKeepers(ttls, a, b)
    ensures Feasible(Lone(ttls), schedule) && !AllOfficial(Exec(Lone(ttls), schedule))
  {
    schedule := WarmUp(ttls, a, b, key, C.HOT_ACCESSES + 2);
    Extend(Lone(ttls), schedule, Begin(0, b, key));
    schedule := schedule + [Begin(0, b, key)];
    assert Exec(Lone(ttls), schedule).threads == [Holding(b, key, 0)];
    Extend(Lone(ttls), schedule, Consume(0));
    schedule := schedule + [Consume(0)];
    var s := Exec(Lone(ttls), schedule);
    assert s.log[|s.log| - 1] == Use(b, key, 0);
    assert !UseOfficial(s, s.log[|s.log| - 1]);
  }

  /** Every check of an instance without a TTL uses its own limiter's bucket, on every
      schedule, exactly when there is no cache or at most one such instance to share
      it, whatever instances with a TTL there are beside them. */
  lemma OneBucketPerKeyIff(caching: bool, ttls: seq<bool>)
    ensures (forall threads: nat, schedule: seq<Action> :: OneBucketPerKey(caching, ttls, threads, schedule))
       <==> !caching || OneKeeper(ttls)
  {
    if !caching || OneKeeper(ttls) {
      forall threads: nat, schedule: seq<Action> ensures OneBucketPerKey(caching, ttls, threads, schedule) {
        if Feasible(Initial(caching, ttls, threads), schedule) {
          RunKeepsInv(Initial(caching, ttls, threads), schedule);
        }
      }
    } else {
      var a, b :| 0 <= a < |ttls| && 0 <= b < |ttls| && !ttls[a] && !ttls[b] && a != b;
      var schedule := SecondInstanceUsesFirstBucket(ttls, a, b, []);
      assert !OneBucketPerKey(true, ttls, 1, schedule);
    }
  }
}
