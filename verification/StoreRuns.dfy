/** Whole histories of the keyed store: each key as if it were alone, and the budget
    of a key that is evicted and recreated (src/algorithm/token_bucket.rs:385-448). */
module StoreRuns {
  import opened Machine
  import opened Arithmetic
  import opened Internal
  import opened TokenBucket
  import opened Shards
  import opened Store
  import TR = TokenRuns

  function ContentsAfter(m: Contents, cfg: Config, ttl: Option<u64>, h: seq<Event>): Contents
    decreases h
  {
    if h == [] then m else ContentsAfter(Check(m, cfg, ttl, h[0]).0, cfg, ttl, h[1..])
  }

  /** The decisions of a history that concern one key. */
  function DecisionsFor(m: Contents, cfg: Config, ttl: Option<u64>, h: seq<Event>, key: Key): seq<Decision>
    decreases h
  {
    if h == [] then []
    else
      var (m', d) := Check(m, cfg, ttl, h[0]);
      (if h[0].key == key then [d] else []) + DecisionsFor(m', cfg, ttl, h[1..], key)
  }

  // One key on its own.

  /** What happens around one key: its own checks, and sweeps that others trigger. */
  datatype KeyEvent = Own(now: u64, cost: u64, sweep: bool) | Sweep(now: u64)

  function KeySwept(s: Option<Bucket>, ttl: Option<u64>, now: u64): Option<Bucket> {
    if s.Some? && ttl.Some? && Stale(s.value, ttl.value, now) then None else s
  }

  /** The key's bucket that a check of its own finds or makes. */
  function Found(s: Option<Bucket>, cfg: Config, ttl: Option<u64>, e: KeyEvent): Bucket
    requires e.Own?
  {
    var s1 := if e.sweep then KeySwept(s, ttl, e.now) else s;
    if s1.Some? then s1.value else NewBucket(cfg.capacity, e.now)
  }

  function KeyNext(s: Option<Bucket>, cfg: Config, ttl: Option<u64>, e: KeyEvent): Option<Bucket> {
    match e
    case Sweep(now) => KeySwept(s, ttl, now)
    case Own(now, cost, _) =>
      if cost == 0 then s else Some(Consume(Found(s, cfg, ttl, e), cfg.Scale(), now, cost).bucket)
  }

  function KeyDecision(s: Option<Bucket>, cfg: Config, ttl: Option<u64>, e: KeyEvent): Decision
    requires e.Own?
  {
    if e.cost == 0 then ZeroCostDecision(cfg.capacity)
    else
      var c := Consume(Found(s, cfg, ttl, e), cfg.Scale(), e.now, e.cost);
      TokenDecision(c.permitted, c.remaining, cfg.capacity, cfg.rate, e.cost)
  }

  function KeyDecisions(s: Option<Bucket>, cfg: Config, ttl: Option<u64>, h: seq<KeyEvent>): seq<Decision>
    decreases h
  {
    if h == [] then []
    else
      (if h[0].Own? then [KeyDecision(s, cfg, ttl, h[0])] else [])
      + KeyDecisions(KeyNext(s, cfg, ttl, h[0]), cfg, ttl, h[1..])
  }

  /** The events of a history as one key feels them. */
  function Felt(e: Event, key: Key): seq<KeyEvent> {
    if e.key == key then [Own(e.now, e.cost, e.sweep)]
    else if e.cost > 0 && e.sweep then [Sweep(e.now)]
    else []
  }

  function FeltBy(h: seq<Event>, key: Key): seq<KeyEvent>
    decreases h
  {
    if h == [] then [] else Felt(h[0], key) + FeltBy(h[1..], key)
  }

  /** Only the key's own checks. */
  function OwnOf(h: seq<Event>, key: Key): seq<KeyEvent>
    decreases h
  {
    if h == [] then []
    else (if h[0].key == key then [Own(h[0].now, h[0].cost, h[0].sweep)] else []) + OwnOf(h[1..], key)
  }

  function Lookup(m: Contents, key: Key): Option<Bucket> {
    if key in m then Some(m[key]) else None
  }

  lemma CheckFelt(m: Contents, cfg: Config, ttl: Option<u64>, e: Event, key: Key)
    ensures var (m', d) := Check(m, cfg, ttl, e);
            && (Felt(e, key) == [] ==> Lookup(m', key) == Lookup(m, key))
            && (Felt(e, key) != [] ==> Lookup(m', key) == KeyNext(Lookup(m, key), cfg, ttl, Felt(e, key)[0]))
            && (e.key == key ==> d == KeyDecision(Lookup(m, key), cfg, ttl, Felt(e, key)[0]))
  {
  }

  lemma {:induction false} KeyDecisionsPrepend(s: Option<Bucket>, cfg: Config, ttl: Option<u64>, e: KeyEvent,
          h: seq<KeyEvent>)
    ensures KeyDecisions(s, cfg, ttl, [e] + h)
         == (if e.Own? then [KeyDecision(s, cfg, ttl, e)] else []) + KeyDecisions(KeyNext(s, cfg, ttl, e), cfg, ttl, h)
  {
    assert ([e] + h)[1..] == h;
  }

  /** For every multi-key history, with or without a TTL, a key is decided as if its
      bucket were the only one, fed its own checks and the sweeps of others. */
  lemma {:induction false} KeysAreIndependent(m: Contents, cfg: Config, ttl: Option<u64>, h: seq<Event>, key: Key)
    ensures DecisionsFor(m, cfg, ttl, h, key) == KeyDecisions(Lookup(m, key), cfg, ttl, FeltBy(h, key))
    decreases h
  {
    if h != [] {
      var (m', d) := Check(m, cfg, ttl, h[0]);
      CheckFelt(m, cfg, ttl, h[0], key);
      KeysAreIndependent(m', cfg, ttl, h[1..], key);
      var felt := Felt(h[0], key);
      if felt == [] {
        assert FeltBy(h, key) == FeltBy(h[1..], key);
      } else {
        assert felt == [felt[0]];
        KeyDecisionsPrepend(Lookup(m, key), cfg, ttl, felt[0], FeltBy(h[1..], key));
      }
    }
  }

  lemma {:induction false} SweepsAreIdleWithoutTtl(s: Option<Bucket>, cfg: Config, h: seq<Event>, key: Key)
    ensures KeyDecisions(s, cfg, None, FeltBy(h, key)) == KeyDecisions(s, cfg, None, OwnOf(h, key))
    decreases h
  {
    if h != [] {
      var felt := Felt(h[0], key);
      if felt == [] {
        assert FeltBy(h, key) == FeltBy(h[1..], key) && OwnOf(h, key) == OwnOf(h[1..], key);
        SweepsAreIdleWithoutTtl(s, cfg, h[1..], key);
      } else {
        assert felt == [felt[0]];
        KeyDecisionsPrepend(s, cfg, None, felt[0], FeltBy(h[1..], key));
        if h[0].key == key {
          SweepsAreIdleWithoutTtl(KeyNext(s, cfg, None, felt[0]), cfg, h[1..], key);
          KeyDecisionsPrepend(s, cfg, None, felt[0], OwnOf(h[1..], key));
        } else {
          SweepsAreIdleWithoutTtl(s, cfg, h[1..], key);
          assert OwnOf(h, key) == OwnOf(h[1..], key);
        }
      }
    }
  }

  /** Without a TTL other keys cannot be felt at all. */
  lemma {:induction false} KeysDoNotInterfere(m: Contents, cfg: Config, h: seq<Event>, key: Key)
    ensures DecisionsFor(m, cfg, None, h, key) == KeyDecisions(Lookup(m, key), cfg, None, OwnOf(h, key))
  {
    KeysAreIndependent(m, cfg, None, h, key);
    SweepsAreIdleWithoutTtl(Lookup(m, key), cfg, h, key);
  }

  // The budget of a key that comes and goes.

  function SpentBy(s: Option<Bucket>, cfg: Config, ttl: Option<u64>, e: KeyEvent): nat {
    if e.Own? && KeyDecision(s, cfg, ttl, e).permitted then e.cost * SCALE else 0
  }

  function ClaimsBy(s: Option<Bucket>, cfg: Config, ttl: Option<u64>, e: KeyEvent): nat {
    if e.Own? && e.cost > 0 && TR.Claiming(cfg.Scale(), Found(s, cfg, ttl, e), e.now) then 1 else 0
  }

  function KeySpent(s: Option<Bucket>, cfg: Config, ttl: Option<u64>, h: seq<KeyEvent>): nat
    decreases h
  {
    if h == [] then 0 else SpentBy(s, cfg, ttl, h[0]) + KeySpent(KeyNext(s, cfg, ttl, h[0]), cfg, ttl, h[1..])
  }

  function KeyClaims(s: Option<Bucket>, cfg: Config, ttl: Option<u64>, h: seq<KeyEvent>): nat
    decreases h
  {
    if h == [] then 0 else ClaimsBy(s, cfg, ttl, h[0]) + KeyClaims(KeyNext(s, cfg, ttl, h[0]), cfg, ttl, h[1..])
  }

  lemma {:induction false} KeyTotalsUnfold(s: Option<Bucket>, cfg: Config, ttl: Option<u64>, e: KeyEvent,
          rest: seq<KeyEvent>)
    ensures KeySpent(s, cfg, ttl, [e] + rest)
         == SpentBy(s, cfg, ttl, e) + KeySpent(KeyNext(s, cfg, ttl, e), cfg, ttl, rest)
    ensures KeyClaims(s, cfg, ttl, [e] + rest)
         == ClaimsBy(s, cfg, ttl, e) + KeyClaims(KeyNext(s, cfg, ttl, e), cfg, ttl, rest)
  {
    assert ([e] + rest)[1..] == rest;
  }

  predicate InOrder(start: u64, h: seq<KeyEvent>)
    decreases h
  {
    h == [] || (start <= h[0].now && InOrder(h[0].now, h[1..]))
  }

  function EndOf(start: u64, h: seq<KeyEvent>): u64 {
    if h == [] then start else h[|h| - 1].now
  }

  /** What a key could be granted at once: a full bucket if it has none. */
  function Room(s: Option<Bucket>, p: Scaled, now: u64): int {
    if s == None then p.capacity * NANOS_PER_SEC else TR.Potential(p, s.value, now)
  }

  predicate KeyOk(s: Option<Bucket>, p: Scaled, now: u64) {
    p.Valid() && (s.Some? ==> TR.WellFormed(p, s.value, now) && s.value.last <= s.value.access <= now)
  }

  /** Keys are never evicted, or refill over the idle time that makes a key evictable
      covers a whole bucket. */
  predicate TtlCovers(p: Scaled, ttl: Option<u64>) {
    ttl.Some? ==> ttl.value * p.rate >= p.capacity * NANOS_PER_SEC
  }

  /** What was spent since `start` fits the room there was, the accrual since, and the
      rounding of the claims. */
  predicate WithinRoom(s: Option<Bucket>, p: Scaled, start: u64, end: u64, spent: nat, claims: nat) {
    spent * NANOS_PER_SEC <= Room(s, p, start) + (end - start) * p.rate + TR.ClaimSlack(p, claims)
  }

  lemma RoomAdvances(s: Option<Bucket>, p: Scaled, t0: u64, t1: u64)
    requires t0 <= t1
    ensures Room(s, p, t1) <= Room(s, p, t0) + (t1 - t0) * p.rate
  {
    MulMono(0, t1 - t0, p.rate);
    if s.Some? {
      TR.PotentialAdvances(p, s.value, t0, t0, t1);
    }
  }

  /** Evicting an idle key gives it no more room than waiting would have. */
  lemma EvictionKeepsRoom(s: Option<Bucket>, p: Scaled, ttl: Option<u64>, now: u64)
    requires KeyOk(s, p, now) && TtlCovers(p, ttl)
    ensures KeyOk(KeySwept(s, ttl, now), p, now)
    ensures Room(KeySwept(s, ttl, now), p, now) <= Room(s, p, now)
  {
    if s.Some? && ttl.Some? && Stale(s.value, ttl.value, now) {
      MulMono(ttl.value, now - s.value.last, p.rate);
    }
  }

  lemma KeyStep(s: Option<Bucket>, cfg: Config, p: Scaled, ttl: Option<u64>, start: u64, e: KeyEvent)
    requires p == cfg.Scale() && KeyOk(s, p, start) && start <= e.now && TtlCovers(p, ttl)
    ensures var s' := KeyNext(s, cfg, ttl, e);
            && KeyOk(s', p, e.now)
            && SpentBy(s, cfg, ttl, e) * NANOS_PER_SEC + Room(s', p, e.now)
               <= Room(s, p, start) + (e.now - start) * p.rate + TR.ClaimSlack(p, ClaimsBy(s, cfg, ttl, e))
  {
    RoomAdvances(s, p, start, e.now);
    EvictionKeepsRoom(s, p, ttl, e.now);
    if e.Own? && e.cost > 0 {
      var b := Found(s, cfg, ttl, e);
      FoundRoom(s, cfg, p, ttl, e);
      OwnStep(p, b, TR.Call(e.now, e.cost));
      assert SpentBy(s, cfg, ttl, e) == TR.CallSpent(p, b, TR.Call(e.now, e.cost));
    }
  }

  lemma OwnStep(p: Scaled, b: Bucket, call: TR.Call)
    requires TR.WellFormed(p, b, call.now)
    ensures var b' := Consume(b, p, call.now, call.cost).bucket;
            && TR.WellFormed(p, b', call.now) && b'.last <= b'.access == call.now
            && TR.CallSpent(p, b, call) * NANOS_PER_SEC + TR.Potential(p, b', call.now)
               <= TR.Potential(p, b, call.now) + TR.ClaimSlack(p, if TR.Claiming(p, b, call.now) then 1 else 0)
  {
    TR.ConsumeStep(p, b, call);
    TR.OverCreditOfOneClaim(p, call.now - b.last);
  }

  lemma FoundRoom(s: Option<Bucket>, cfg: Config, p: Scaled, ttl: Option<u64>, e: KeyEvent)
    requires p == cfg.Scale() && KeyOk(s, p, e.now) && TtlCovers(p, ttl) && e.Own?
    ensures var b := Found(s, cfg, ttl, e);
            TR.WellFormed(p, b, e.now) && TR.Potential(p, b, e.now) <= Room(s, p, e.now)
  {
    EvictionKeepsRoom(s, p, ttl, e.now);
    TR.PotentialOfFullBucket(p, e.now);
  }

  lemma NothingSpent(s: Option<Bucket>, p: Scaled, now: u64)
    requires KeyOk(s, p, now)
    ensures WithinRoom(s, p, now, now, 0, 0)
  {
    RoomIsNatural(s, p, now);
  }

  lemma {:induction false} TotalsUnfold(s: Option<Bucket>, cfg: Config, ttl: Option<u64>, start: u64, h: seq<KeyEvent>)
    requires h != []
    ensures var s' := KeyNext(s, cfg, ttl, h[0]);
            && KeySpent(s, cfg, ttl, h) == SpentBy(s, cfg, ttl, h[0]) + KeySpent(s', cfg, ttl, h[1..])
            && KeyClaims(s, cfg, ttl, h) == ClaimsBy(s, cfg, ttl, h[0]) + KeyClaims(s', cfg, ttl, h[1..])
            && EndOf(start, h) == EndOf(h[0].now, h[1..])
  {
  }

  lemma {:induction false} SpentWithinRoom(
      s: Option<Bucket>, cfg: Config, p: Scaled, ttl: Option<u64>, start: u64, h: seq<KeyEvent>)
    requires p == cfg.Scale() && KeyOk(s, p, start) && InOrder(start, h) && TtlCovers(p, ttl)
    ensures WithinRoom(s, p, start, EndOf(start, h), KeySpent(s, cfg, ttl, h), KeyClaims(s, cfg, ttl, h))
    decreases h
  {
    if h == [] {
      NothingSpent(s, p, start);
    } else {
      var e, rest := h[0], h[1..];
      var s' := KeyNext(s, cfg, ttl, e);
      KeyStaysOk(s, cfg, p, ttl, start, e);
      SpentWithinRoom(s', cfg, p, ttl, e.now, rest);
      StepThenRest(s, cfg, p, ttl, start, e, EndOf(e.now, rest),
                   KeySpent(s', cfg, ttl, rest), KeyClaims(s', cfg, ttl, rest));
      TotalsUnfold(s, cfg, ttl, start, h);
    }
  }

  lemma KeyStaysOk(s: Option<Bucket>, cfg: Config, p: Scaled, ttl: Option<u64>, start: u64, e: KeyEvent)
    requires p == cfg.Scale() && KeyOk(s, p, start) && start <= e.now && TtlCovers(p, ttl)
    ensures KeyOk(KeyNext(s, cfg, ttl, e), p, e.now)
  {
    KeyStep(s, cfg, p, ttl, start, e);
  }

  lemma StepThenRest(s: Option<Bucket>, cfg: Config, p: Scaled, ttl: Option<u64>, start: u64, e: KeyEvent, end: u64,
                     spent: nat, claims: nat)
    requires p == cfg.Scale() && KeyOk(s, p, start) && start <= e.now && TtlCovers(p, ttl)
    requires WithinRoom(KeyNext(s, cfg, ttl, e), p, e.now, end, spent, claims)
    ensures WithinRoom(s, p, start, end, SpentBy(s, cfg, ttl, e) + spent, ClaimsBy(s, cfg, ttl, e) + claims)
  {
    KeyStep(s, cfg, p, ttl, start, e);
    SpanSplits(p.rate, start, e.now, end);
    TR.ClaimSlackAdds(p, ClaimsBy(s, cfg, ttl, e), claims);
  }

  lemma RoomIsNatural(s: Option<Bucket>, p: Scaled, now: u64)
    requires KeyOk(s, p, now)
    ensures Room(s, p, now) >= 0 && TR.ClaimSlack(p, 0) == 0
  {
    if s.Some? {
      MulMono(0, now - s.value.last, p.rate);
    }
  }

  /** The since-creation budget of a key across its evictions. */
  predicate KeyBudget(cfg: Config, ttl: Option<u64>, start: u64, h: seq<KeyEvent>) {
    var p := cfg.Scale();
    InOrder(start, h) ==>
      KeySpent(None, cfg, ttl, h) * NANOS_PER_SEC
      <= p.capacity * NANOS_PER_SEC + (EndOf(start, h) - start) * p.rate
         + TR.ClaimSlack(p, KeyClaims(None, cfg, ttl, h))
  }

  /** Evicting a key and recreating it full, any number of times, keeps its budget on
      every history exactly when there is no TTL or it is at least the time a bucket
      takes to fill. */
  lemma EvictionKeepsBudgetIff(cfg: Config, ttl: Option<u64>)
    requires cfg.Valid()
    ensures (forall start: u64, h: seq<KeyEvent> :: KeyBudget(cfg, ttl, start, h)) <==> TtlCovers(cfg.Scale(), ttl)
  {
    var p := cfg.Scale();
    ScaleIsValid(cfg);
    if TtlCovers(p, ttl) {
      forall start: u64, h: seq<KeyEvent> ensures KeyBudget(cfg, ttl, start, h) {
        if InOrder(start, h) {
          SpentWithinRoom(None, cfg, p, ttl, start, h);
        }
      }
    } else {
      EarlyEvictionDoublesBurst(cfg, ttl);
    }
  }

  lemma EarlyEvictionDoublesBurst(cfg: Config, ttl: Option<u64>)
    requires cfg.Valid() && !TtlCovers(cfg.Scale(), ttl)
    ensures !KeyBudget(cfg, ttl, 0, [Own(0, cfg.capacity, false), Own(ttl.value, cfg.capacity, true)])
  {
    var p := cfg.Scale();
    MulMono(0, ttl.value, p.rate);
    assert cfg.capacity > 0;
    var first, second := Own(0, cfg.capacity, false), Own(ttl.value, cfg.capacity, true);
    DrainFresh(None, cfg, ttl, first);
    var s1 := Some(Bucket(0, 0, 0));
    DrainFresh(s1, cfg, ttl, second);
    KeyTotalsUnfold(s1, cfg, ttl, second, []);
    KeyTotalsUnfold(None, cfg, ttl, first, [second]);
    assert [second] == [second] + [] && [first, second] == [first] + [second];
    assert InOrder(0, [first, second]) by {
      assert [first, second][1..] == [second] && [second][1..] == [];
    }
  }

  /** A check for the whole capacity that finds no live bucket is paid in full. */
  lemma DrainFresh(s: Option<Bucket>, cfg: Config, ttl: Option<u64>, e: KeyEvent)
    requires cfg.Valid() && cfg.capacity > 0 && e.Own? && e.cost == cfg.capacity
    requires s == None || (e.sweep && ttl.Some? && Stale(s.value, ttl.value, e.now))
    ensures SpentBy(s, cfg, ttl, e) == cfg.Scale().capacity && ClaimsBy(s, cfg, ttl, e) == 0
    ensures KeyNext(s, cfg, ttl, e) == Some(Bucket(0, e.now, e.now))
  {
    FreshBucketPays(cfg, e.now);
    assert Found(s, cfg, ttl, e) == NewBucket(cfg.capacity, e.now);
  }

  /** A bucket made at this instant pays for its whole capacity at once. */
  lemma FreshBucketPays(cfg: Config, now: u64)
    requires cfg.Valid()
    ensures Consume(NewBucket(cfg.capacity, now), cfg.Scale(), now, cfg.capacity)
         == Consumed(Bucket(0, now, now), true, 0)
    ensures !TR.Claiming(cfg.Scale(), NewBucket(cfg.capacity, now), now)
    ensures cfg.capacity * SCALE == cfg.Scale().capacity
  {
    var b := NewBucket(cfg.capacity, now);
    assert Refill(b, cfg.Scale(), now) == b;
  }

  // The same budget, in terms of the store.

  /** Scaled cost that a history of the store permitted to one key. */
  function SpentOn(m: Contents, cfg: Config, ttl: Option<u64>, h: seq<Event>, key: Key): nat
    decreases h
  {
    if h == [] then 0
    else
      var (m', d) := Check(m, cfg, ttl, h[0]);
      (if h[0].key == key && d.permitted then h[0].cost * SCALE else 0) + SpentOn(m', cfg, ttl, h[1..], key)
  }

  predicate EventsInOrder(start: u64, h: seq<Event>)
    decreases h
  {
    h == [] || (start <= h[0].now && EventsInOrder(h[0].now, h[1..]))
  }

  function LastInstant(start: u64, h: seq<Event>): u64 {
    if h == [] then start else h[|h| - 1].now
  }

  lemma {:induction false} SpentOnIsKeySpent(m: Contents, cfg: Config, ttl: Option<u64>, h: seq<Event>, key: Key)
    ensures SpentOn(m, cfg, ttl, h, key) == KeySpent(Lookup(m, key), cfg, ttl, FeltBy(h, key))
    decreases h
  {
    if h != [] {
      CheckFelt(m, cfg, ttl, h[0], key);
      SpentOnIsKeySpent(Check(m, cfg, ttl, h[0]).0, cfg, ttl, h[1..], key);
      var felt := Felt(h[0], key);
      if felt == [] {
        assert FeltBy(h, key) == FeltBy(h[1..], key);
      } else {
        assert felt == [felt[0]];
        KeyTotalsUnfold(Lookup(m, key), cfg, ttl, felt[0], FeltBy(h[1..], key));
      }
    }
  }

  lemma {:induction false} FeltInOrder(start: u64, now: u64, h: seq<Event>, key: Key)
    requires start <= now && EventsInOrder(now, h)
    ensures now <= LastInstant(now, h)
    ensures InOrder(start, FeltBy(h, key)) && start <= EndOf(start, FeltBy(h, key)) <= LastInstant(now, h)
    decreases h
  {
    if h != [] {
      var e := h[0];
      assert LastInstant(e.now, h[1..]) == LastInstant(now, h);
      var felt, rest := Felt(e, key), FeltBy(h[1..], key);
      if felt == [] {
        FeltInOrder(start, e.now, h[1..], key);
        assert FeltBy(h, key) == rest;
      } else {
        FeltInOrder(e.now, e.now, h[1..], key);
        var all := FeltBy(h, key);
        assert all[0] == felt[0] && all[1..] == rest;
        assert EndOf(start, all) == EndOf(e.now, rest);
      }
    }
  }

  lemma WithinRoomLater(p: Scaled, start: u64, end: u64, later: u64, spent: nat, claims: nat)
    requires WithinRoom(None, p, start, end, spent, claims) && start <= end <= later
    ensures spent * NANOS_PER_SEC <= p.capacity * NANOS_PER_SEC + (later - start) * p.rate + TR.ClaimSlack(p, claims)
  {
    MulMono(end - start, later - start, p.rate);
  }

  /** Any key of an initially empty store, among any other keys, sweeps and evictions,
      stays within capacity plus rate times time plus the rounding of its claims. */
  lemma {:induction false} StoreKeepsEveryBudget(cfg: Config, ttl: Option<u64>, start: u64, h: seq<Event>, key: Key)
    requires cfg.Valid() && EventsInOrder(start, h) && TtlCovers(cfg.Scale(), ttl)
    ensures var p := cfg.Scale();
            SpentOn(map[], cfg, ttl, h, key) * NANOS_PER_SEC
            <= p.capacity * NANOS_PER_SEC + (LastInstant(start, h) - start) * p.rate
               + TR.ClaimSlack(p, KeyClaims(None, cfg, ttl, FeltBy(h, key)))
  {
    var p := cfg.Scale();
    ScaleIsValid(cfg);
    SpentOnIsKeySpent(map[], cfg, ttl, h, key);
    FeltInOrder(start, start, h, key);
    var felt := FeltBy(h, key);
    SpentWithinRoom(None, cfg, p, ttl, start, felt);
    WithinRoomLater(p, start, EndOf(start, felt), LastInstant(start, h),
                    KeySpent(None, cfg, ttl, felt), KeyClaims(None, cfg, ttl, felt));
  }
}
