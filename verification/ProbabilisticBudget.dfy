/** The budget of a key of the sampled store at sampling rate 1, across evictions: exactly
    when it holds on every history (src/algorithm/probabilistic_token_bucket.rs:299-379,
    652-732). */
module ProbabilisticBudget {
  import opened Machine
  import opened Arithmetic
  import opened Internal
  import opened Probabilistic
  import opened ProbabilisticStore
  import opened ProbabilisticEviction
  import PR = ProbabilisticRuns
  import TR = TokenRuns
  import US = UnsampledSteps

  // One call.

  /** What the bucket holds and has not claimed, times `NANOS_PER_SEC`. */
  function Potential(p: Params, b: Bucket, now: u64): int {
    b.tokens * NANOS_PER_SEC + (now - b.last) * p.rate
  }

  predicate InRange(p: Params, b: Bucket, now: u64) {
    p.Valid() && 0 <= b.tokens <= p.capacity && b.last <= now
  }

  predicate Claiming(p: Params, b: Bucket, now: u64) {
    RefillTokensI(SatSub(now, b.last), p.rate) > 0
  }

  function Slack(p: Params, claims: nat): nat
    requires p.Valid()
  {
    TR.ClaimSlack(US.Unsigned(p), claims)
  }

  lemma RefillStep(p: Params, b: Bucket, now: u64)
    requires InRange(p, b, now)
    ensures var b' := Refill(b, p, now);
            && InRange(p, b', now)
            && Potential(p, b', now) <= Potential(p, b, now) + Slack(p, if Claiming(p, b, now) then 1 else 0)
  {
    PR.RefillKeepsRange(b, p, now);
    if Claiming(p, b, now) {
      var e := now - b.last;
      var added := RefillTokensI(e, p.rate);
      US.SignedClaim(p, e);
      ClaimPays(b.tokens, added, e, NanosForTokensI(added, p.rate), p.rate, Refill(b, p, now).tokens,
                Slack(p, 1));
    }
  }

  lemma ClaimPays(tokens: int, added: int, e: int, claimed: int, r: int, left: int, slack: int)
    requires left <= tokens + added && added * NANOS_PER_SEC - claimed * r <= slack
    ensures left * NANOS_PER_SEC + (e - claimed) * r <= tokens * NANOS_PER_SEC + e * r + slack
  {
    assert (e - claimed) * r == e * r - claimed * r;
  }

  function Paid(permitted: bool, cost: u64): nat {
    if permitted then cost * SCALE else 0
  }

  lemma CallStep(p: Params, b: Bucket, now: u64, cost: u64, rng: Rng)
    requires p.sampleRate == 1 && InRange(p, b, now)
    ensures var a := Consume(b, p, now, cost, rng);
            && InRange(p, a.bucket, now) && a.bucket.last <= now && a.bucket.access == b.access
            && Paid(a.permitted, cost) * NANOS_PER_SEC + Potential(p, a.bucket, now)
               <= Potential(p, b, now) + Slack(p, if Claiming(p, b, now) then 1 else 0)
  {
    RefillStep(p, b, now);
    if Consume(b, p, now, cost, rng).permitted {
      US.CoveredCostIsExact(cost, Refill(b, p, now).tokens);
    }
  }

  // One key of the store.

  predicate KeyOk(m: Contents, cfg: Config, key: Key, now: u64)
    requires cfg.Valid()
  {
    key in m ==>
      InRange(cfg.Params(), m[key], now) && (cfg.idleTtl.Some? ==> m[key].last <= m[key].access)
  }

  /** What a key could be granted at once: a full bucket if it has none. */
  function Room(m: Contents, cfg: Config, key: Key, now: u64): int
    requires cfg.Valid()
  {
    if key in m then Potential(cfg.Params(), m[key], now) else cfg.Params().capacity * NANOS_PER_SEC
  }

  /** Keys are never evicted, or a bucket fills within the TTL. */
  predicate TtlCovers(cfg: Config) {
    cfg.idleTtl.Some? ==> cfg.idleTtl.value * cfg.rate >= cfg.capacity * NANOS_PER_SEC
  }

  lemma RoomAdvances(m: Contents, cfg: Config, key: Key, t0: u64, t1: u64)
    requires cfg.Valid() && t0 <= t1 && KeyOk(m, cfg, key, t0)
    ensures KeyOk(m, cfg, key, t1)
    ensures Room(m, cfg, key, t1) <= Room(m, cfg, key, t0) + (t1 - t0) * cfg.Params().rate
  {
    MulMono(0, t1 - t0, cfg.Params().rate);
    if key in m {
      SpanSplits(cfg.Params().rate, m[key].last, t0, t1);
    }
  }

  /** A sweep gives a key no more room than waiting would have. */
  lemma SweepKeepsRoom(m: Contents, cfg: Config, key: Key, now: u64, rng: Rng)
    requires cfg.Valid() && KeyOk(m, cfg, key, now) && TtlCovers(cfg)
    ensures var tidy := Tidied(m, cfg, now, rng).0;
            KeyOk(tidy, cfg, key, now) && Room(tidy, cfg, key, now) <= Room(m, cfg, key, now)
  {
    var tidy := Tidied(m, cfg, now, rng).0;
    if key in m && key !in tidy {
      var ttl := cfg.idleTtl.value;
      MulMono(ttl, now - m[key].last, cfg.Params().rate);
      assert ttl * cfg.Params().rate == ttl * cfg.rate * SCALE;
    }
  }

  /** The bucket that a check of its own finds or makes, as it stands when it is asked. */
  function Asked(m: Contents, cfg: Config, r: Request, rng: Rng): (Bucket, Rng)
    requires cfg.Valid()
  {
    var (tidy, rng1) := Tidied(m, cfg, r.now, rng);
    var (b, rng2) := Found(tidy, cfg, r.key, r.now, rng1);
    (if cfg.idleTtl.Some? then b.(access := r.now) else b, rng2)
  }

  function ClaimsBy(m: Contents, cfg: Config, r: Request, rng: Rng, key: Key): nat
    requires cfg.Valid()
  {
    if r.key == key && r.cost > 0 && Claiming(cfg.Params(), Asked(m, cfg, r, rng).0, r.now) then 1 else 0
  }

  function SpentBy(m: Contents, cfg: Config, r: Request, rng: Rng, key: Key): nat
    requires cfg.Valid()
  {
    if r.key == key then Paid(Check(m, cfg, r, rng).decision.permitted, r.cost) else 0
  }

  lemma OwnCheck(m: Contents, cfg: Config, r: Request, rng: Rng)
    requires cfg.Valid() && r.cost > 0
    ensures var (b, rng2) := Asked(m, cfg, r, rng);
            var a, c := Consume(b, cfg.Params(), r.now, r.cost, rng2), Check(m, cfg, r, rng);
            && r.key in c.contents && c.contents[r.key] == a.bucket && c.decision.permitted == a.permitted
            && (cfg.idleTtl.Some? ==> b.access == r.now)
  {
  }

  lemma AskedRoom(m: Contents, cfg: Config, r: Request, rng: Rng)
    requires cfg.Valid() && KeyOk(m, cfg, r.key, r.now) && TtlCovers(cfg)
    ensures var b := Asked(m, cfg, r, rng).0;
            InRange(cfg.Params(), b, r.now) && Potential(cfg.Params(), b, r.now) <= Room(m, cfg, r.key, r.now)
  {
    SweepKeepsRoom(m, cfg, r.key, r.now, rng);
  }

  lemma CheckStep(m: Contents, cfg: Config, r: Request, rng: Rng, key: Key, start: u64)
    requires cfg.Valid() && cfg.sampleRate == 1 && KeyOk(m, cfg, key, start) && start <= r.now && TtlCovers(cfg)
    ensures var c := Check(m, cfg, r, rng);
            && KeyOk(c.contents, cfg, key, r.now)
            && SpentBy(m, cfg, r, rng, key) * NANOS_PER_SEC + Room(c.contents, cfg, key, r.now)
               <= Room(m, cfg, key, start) + (r.now - start) * cfg.Params().rate
                  + Slack(cfg.Params(), ClaimsBy(m, cfg, r, rng, key))
  {
    RoomAdvances(m, cfg, key, start, r.now);
    if r.cost > 0 && r.key == key {
      var (b, rng2) := Asked(m, cfg, r, rng);
      AskedRoom(m, cfg, r, rng);
      CallStep(cfg.Params(), b, r.now, r.cost, rng2);
      OwnCheck(m, cfg, r, rng);
    } else if r.cost > 0 {
      SweepKeepsRoom(m, cfg, key, r.now, rng);
    }
  }

  lemma CheckKeepsOk(m: Contents, cfg: Config, r: Request, rng: Rng, key: Key, start: u64)
    requires cfg.Valid() && cfg.sampleRate == 1 && KeyOk(m, cfg, key, start) && start <= r.now && TtlCovers(cfg)
    ensures KeyOk(Check(m, cfg, r, rng).contents, cfg, key, r.now)
  {
    CheckStep(m, cfg, r, rng, key, start);
  }

  // Whole histories.

  /** Scaled cost that a history permitted to one key. */
  function SpentOn(m: Contents, cfg: Config, rs: seq<Request>, rng: Rng, key: Key): nat
    requires cfg.Valid()
    decreases rs
  {
    if rs == [] then 0
    else
      var c := Check(m, cfg, rs[0], rng);
      SpentBy(m, cfg, rs[0], rng, key) + SpentOn(c.contents, cfg, rs[1..], c.rng, key)
  }

  function ClaimsOn(m: Contents, cfg: Config, rs: seq<Request>, rng: Rng, key: Key): nat
    requires cfg.Valid()
    decreases rs
  {
    if rs == [] then 0
    else
      var c := Check(m, cfg, rs[0], rng);
      ClaimsBy(m, cfg, rs[0], rng, key) + ClaimsOn(c.contents, cfg, rs[1..], c.rng, key)
  }

  lemma {:induction false} TotalsUnfold(m: Contents, cfg: Config, r: Request, rest: seq<Request>, rng: Rng, key: Key)
    requires cfg.Valid()
    ensures var c := Check(m, cfg, r, rng);
            && SpentOn(m, cfg, [r] + rest, rng, key)
               == SpentBy(m, cfg, r, rng, key) + SpentOn(c.contents, cfg, rest, c.rng, key)
            && ClaimsOn(m, cfg, [r] + rest, rng, key)
               == ClaimsBy(m, cfg, r, rng, key) + ClaimsOn(c.contents, cfg, rest, c.rng, key)
  {
    assert ([r] + rest)[1..] == rest;
  }

  predicate WithinRoom(cfg: Config, room: int, start: u64, end: u64, spent: nat, claims: nat)
    requires cfg.Valid()
  {
    spent * NANOS_PER_SEC <= room + (end - start) * cfg.Params().rate + Slack(cfg.Params(), claims)
  }

  lemma NothingSpent(m: Contents, cfg: Config, key: Key, start: u64)
    requires cfg.Valid() && KeyOk(m, cfg, key, start)
    ensures WithinRoom(cfg, Room(m, cfg, key, start), start, start, 0, 0)
  {
    if key in m {
      MulMono(0, start - m[key].last, cfg.Params().rate);
    }
  }

  lemma RoomPays(m: Contents, cfg: Config, r: Request, rng: Rng, key: Key, start: u64, end: u64,
          spent: nat, claims: nat)
    requires cfg.Valid() && cfg.sampleRate == 1 && KeyOk(m, cfg, key, start) && start <= r.now && TtlCovers(cfg)
    requires WithinRoom(cfg, Room(Check(m, cfg, r, rng).contents, cfg, key, r.now), r.now, end, spent, claims)
    ensures WithinRoom(cfg, Room(m, cfg, key, start), start, end,
                       SpentBy(m, cfg, r, rng, key) + spent, ClaimsBy(m, cfg, r, rng, key) + claims)
  {
    CheckStep(m, cfg, r, rng, key, start);
    SpanSplits(cfg.Params().rate, start, r.now, end);
    TR.ClaimSlackAdds(US.Unsigned(cfg.Params()), ClaimsBy(m, cfg, r, rng, key), claims);
  }

  lemma {:induction false} CheckThenRest(m: Contents, cfg: Config, r: Request, rest: seq<Request>, rng: Rng, key: Key,
          start: u64, c: Checked)
    requires cfg.Valid() && cfg.sampleRate == 1 && KeyOk(m, cfg, key, start) && start <= r.now && TtlCovers(cfg)
    requires c == Check(m, cfg, r, rng)
    requires WithinRoom(cfg, Room(c.contents, cfg, key, r.now), r.now, EndOf(r.now, rest),
                        SpentOn(c.contents, cfg, rest, c.rng, key), ClaimsOn(c.contents, cfg, rest, c.rng, key))
    ensures WithinRoom(cfg, Room(m, cfg, key, start), start, EndOf(start, [r] + rest),
                       SpentOn(m, cfg, [r] + rest, rng, key), ClaimsOn(m, cfg, [r] + rest, rng, key))
  {
    TotalsUnfold(m, cfg, r, rest, rng, key);
    RoomPays(m, cfg, r, rng, key, start, EndOf(r.now, rest),
             SpentOn(c.contents, cfg, rest, c.rng, key), ClaimsOn(c.contents, cfg, rest, c.rng, key));
    assert EndOf(r.now, rest) == EndOf(start, [r] + rest);
  }

  lemma {:induction false} SpentWithinRoom(m: Contents, cfg: Config, start: u64, rs: seq<Request>, rng: Rng, key: Key)
    requires cfg.Valid() && cfg.sampleRate == 1 && KeyOk(m, cfg, key, start) && InOrder(start, rs) && TtlCovers(cfg)
    ensures WithinRoom(cfg, Room(m, cfg, key, start), start, EndOf(start, rs),
                       SpentOn(m, cfg, rs, rng, key), ClaimsOn(m, cfg, rs, rng, key))
    decreases rs
  {
    if rs == [] {
      NothingSpent(m, cfg, key, start);
    } else {
      var r, rest, c := rs[0], rs[1..], Check(m, cfg, rs[0], rng);
      CheckKeepsOk(m, cfg, r, rng, key, start);
      SpentWithinRoom(c.contents, cfg, r.now, rest, c.rng, key);
      CheckThenRest(m, cfg, r, rest, rng, key, start, c);
      assert [r] + rest == rs;
    }
  }

  /** The since-creation budget of a key across its evictions. */
  predicate KeyBudget(cfg: Config, start: u64, rs: seq<Request>, rng: Rng, key: Key)
    requires cfg.Valid()
  {
    InOrder(start, rs) ==>
      WithinRoom(cfg, cfg.capacity * SCALE * NANOS_PER_SEC, start, EndOf(start, rs),
                 SpentOn(map[], cfg, rs, rng, key), ClaimsOn(map[], cfg, rs, rng, key))
  }

  /** At sampling rate 1 every key of a store keeps its budget, on every history of every
      other key and all draws, exactly when there is no TTL or a bucket fills within it. */
  lemma EvictionKeepsBudgetIff(cfg: Config)
    requires cfg.Valid() && cfg.sampleRate == 1
    ensures (forall start: u64, rs: seq<Request>, rng: Rng, key: Key :: KeyBudget(cfg, start, rs, rng, key))
       <==> TtlCovers(cfg)
  {
    if TtlCovers(cfg) {
      forall start: u64, rs: seq<Request>, rng: Rng, key: Key ensures KeyBudget(cfg, start, rs, rng, key) {
        if InOrder(start, rs) {
          SpentWithinRoom(map[], cfg, start, rs, rng, key);
        }
      }
    } else {
      EarlyEvictionDoublesBurst(cfg, []);
    }
  }

  /** Any store whose every drawn word is a multiple of a hundred sweeps at each check. */
  function Sweeping(at: nat): Rng {
    Rng(_ => 0, at)
  }

  lemma FreshPays(cfg: Config, now: u64, phase: u64, rng: Rng)
    requires cfg.Valid() && cfg.sampleRate == 1
    ensures var b := NewBucket(cfg.Params(), now, phase).(access := now);
            && Consume(b, cfg.Params(), now, cfg.capacity, rng).permitted
            && Consume(b, cfg.Params(), now, cfg.capacity, rng).bucket == b.(tokens := 0)
            && !Claiming(cfg.Params(), b, now)
  {
    var b := NewBucket(cfg.Params(), now, phase).(access := now);
    assert Refill(b, cfg.Params(), now) == b;
  }

  /** A check for the whole capacity that sweeps and finds no live bucket. */
  lemma DrainFresh(m: Contents, cfg: Config, key: Key, now: u64, at: nat)
    requires cfg.Valid() && cfg.sampleRate == 1 && cfg.idleTtl.Some? && cfg.capacity > 0
    requires key in m ==> now - m[key].access >= cfg.idleTtl.value
    ensures var r, c := Request(key, cfg.capacity, now), Check(m, cfg, Request(key, cfg.capacity, now), Sweeping(at));
            && SpentBy(m, cfg, r, Sweeping(at), key) == cfg.capacity * SCALE
            && ClaimsBy(m, cfg, r, Sweeping(at), key) == 0
            && key in c.contents && c.contents[key].access == now && c.rng == Rng(Sweeping(at).stream, at + 2)
  {
    FreshPays(cfg, now, 0, Rng(Sweeping(at).stream, at + 2));
  }

  lemma EarlyEvictionDoublesBurst(cfg: Config, key: Key)
    requires cfg.Valid() && cfg.sampleRate == 1 && !TtlCovers(cfg)
    ensures var ttl := cfg.idleTtl.value;
            !KeyBudget(cfg, 0, [Request(key, cfg.capacity, 0), Request(key, cfg.capacity, ttl)], Sweeping(0), key)
  {
    var ttl := cfg.idleTtl.value;
    MulMono(0, ttl, cfg.rate);
    var first, second := Request(key, cfg.capacity, 0), Request(key, cfg.capacity, ttl);
    TwoDrains(cfg, key, first, second);
    assert [first, second][1..] == [second] && [second][1..] == [];
    assert InOrder(0, [first, second]);
    OverTheRoom(cfg, ttl);
  }

  lemma {:induction false} TwoDrains(cfg: Config, key: Key, first: Request, second: Request)
    requires cfg.Valid() && cfg.sampleRate == 1 && cfg.idleTtl.Some? && cfg.capacity > 0
    requires first == Request(key, cfg.capacity, 0) && second == Request(key, cfg.capacity, cfg.idleTtl.value)
    ensures SpentOn(map[], cfg, [first, second], Sweeping(0), key) == 2 * (cfg.capacity * SCALE)
    ensures ClaimsOn(map[], cfg, [first, second], Sweeping(0), key) == 0
  {
    DrainFresh(map[], cfg, key, 0, 0);
    var c := Check(map[], cfg, first, Sweeping(0));
    DrainFresh(c.contents, cfg, key, second.now, 2);
    assert [first, second] == [first] + [second] && [second] == [second] + [];
    TotalsUnfold(map[], cfg, first, [second], Sweeping(0), key);
    TotalsUnfold(c.contents, cfg, second, [], Sweeping(2), key);
  }

  lemma OverTheRoom(cfg: Config, ttl: u64)
    requires cfg.Valid() && ttl * cfg.rate < cfg.capacity * NANOS_PER_SEC
    ensures !WithinRoom(cfg, cfg.capacity * SCALE * NANOS_PER_SEC, 0, ttl, 2 * (cfg.capacity * SCALE), 0)
  {
    assert ttl * cfg.Params().rate == ttl * cfg.rate * SCALE;
    assert Slack(cfg.Params(), 0) == 0;
  }
}
