/** For which rates "capacity plus rate times elapsed time" is a bound with no
    slack at all: the divisibility of the two units decides it
    (src/algorithm/token_bucket.rs:102-136, src/algorithm/internal.rs:56-72). */
module TokenExactness {
  import opened Machine
  import opened Arithmetic
  import opened Internal
  import opened TokenBucket
  import opened TokenRuns

  /** The slack-free budget, on one run from the creation of a key. */
  predicate BudgetHolds(p: Scaled, start: u64, h: seq<Call>) {
    Monotone(start, h) ==>
      Spent(p, Bucket(p.capacity, start, start), h) * NANOS_PER_SEC
      <= p.capacity * NANOS_PER_SEC + (End(start, h) - start) * p.rate
  }

  /** A scaled token takes a whole number of nanoseconds, or a nanosecond is worth a
      whole number of scaled tokens. */
  predicate UnitsDivide(p: Scaled) {
    p.rate == 0 || NANOS_PER_SEC % p.rate == 0 || p.rate % NANOS_PER_SEC == 0
  }

  /** Whatever a key is allowed to spend is paid for by its capacity and the time since
      its creation, on every run, exactly when one unit divides the other (or the
      bucket holds nothing). */
  lemma BudgetIsExactIff(cfg: Config)
    requires cfg.Valid()
    ensures (forall start: u64, h: seq<Call> :: BudgetHolds(cfg.Scale(), start, h))
       <==> UnitsDivide(cfg.Scale()) || cfg.capacity == 0
  {
    var p := cfg.Scale();
    ScaleIsValid(cfg);
    if UnitsDivide(p) || cfg.capacity == 0 {
      forall start: u64, h: seq<Call> ensures BudgetHolds(p, start, h) {
        if Monotone(start, h) {
          var b := Bucket(p.capacity, start, start);
          PotentialOfFullBucket(p, start);
          if UnitsDivide(p) {
            SpentWithoutSlack(p, b, start, h);
          } else {
            NothingToSpend(p, b, start, h);
          }
        }
      }
    } else {
      var h := Overdraft(cfg);
      assert !BudgetHolds(p, 0, h);
    }
  }

  /** With dividing units no refill adds to the potential: an exact claim credits what
      its time is worth, and one that meets the clamp credits at most a full bucket. */
  lemma RefillAddsNothing(p: Scaled, b: Bucket, now: u64)
    requires WellFormed(p, b, now) && UnitsDivide(p)
    ensures Potential(p, Refill(b, p, now), now) <= Potential(p, b, now)
  {
    var e, r := now - b.last, p.rate;
    RefillStep(p, b, now);
    if r > 0 && NANOS_PER_SEC % r == 0 {
      ClaimExactWhenRateDivides(e, r);
    } else if r > 0 && Unclamped(e, r) {
      WholeTokensPerNano(e, r);
    } else if r > 0 {
      RefillFloor(e, r);
      ClaimFitsElapsed(e, r);
      FloorBounds(U64_MAX * NANOS_PER_SEC, r);
      assert (e - ClaimedNanos(e, r)) * r == e * r - ClaimedNanos(e, r) * r;
    }
  }

  lemma StepWithoutSlack(p: Scaled, b: Bucket, call: Call)
    requires WellFormed(p, b, call.now) && UnitsDivide(p)
    ensures var c := Consume(b, p, call.now, call.cost);
            && WellFormed(p, c.bucket, call.now)
            && Potential(p, c.bucket, call.now) + CallSpent(p, b, call) * NANOS_PER_SEC <= Potential(p, b, call.now)
  {
    ConsumeStep(p, b, call);
    RefillAddsNothing(p, b.(access := call.now), call.now);
  }

  lemma {:induction false} SpentWithoutSlack(p: Scaled, b: Bucket, start: u64, h: seq<Call>)
    requires WellFormed(p, b, start) && Monotone(start, h) && UnitsDivide(p)
    ensures Spent(p, b, h) * NANOS_PER_SEC <= Potential(p, b, start) + (End(start, h) - start) * p.rate
    decreases h
  {
    if h == [] {
      MulMono(0, start - b.last, p.rate);
    } else {
      var call := h[0];
      var b' := Consume(b, p, call.now, call.cost).bucket;
      StepWithoutSlack(p, b, call);
      SpentUnfolds(p, b, h);
      SpentWithoutSlack(p, b', call.now, h[1..]);
      assert End(call.now, h[1..]) == End(start, h);
      PotentialAdvances(p, b, start, start, call.now);
      PotentialAdvances(p, b, start, call.now, End(start, h));
    }
  }

  lemma {:induction false} NothingToSpend(p: Scaled, b: Bucket, start: u64, h: seq<Call>)
    requires WellFormed(p, b, start) && Monotone(start, h) && p.capacity == 0
    ensures Spent(p, b, h) == 0 && start <= End(start, h) && (End(start, h) - start) * p.rate >= 0
    decreases h
  {
    if h != [] {
      ConsumeStep(p, b, h[0]);
      RefillStep(p, b.(access := h[0].now), h[0].now);
      NothingToSpend(p, Consume(b, p, h[0].now, h[0].cost).bucket, h[0].now, h[1..]);
      assert End(h[0].now, h[1..]) == End(start, h);
    }
    RunStaysWellFormed(p, b, start, h);
    MulMono(0, End(start, h) - start, p.rate);
  }

  /** No call of the history is free; a check refuses those before the bucket sees them. */
  predicate Costly(h: seq<Call>) {
    forall i :: 0 <= i < |h| ==> h[i].cost > 0
  }

  /** `m` unit-cost calls, each `wait` after the timestamp the previous one left. */
  function Drip(last: u64, claimed: nat, wait: nat, m: nat): (h: seq<Call>)
    requires last + m * claimed + wait <= U64_MAX
    ensures Costly(h)
    decreases m
  {
    if m == 0 then []
    else
      OneMore(m, claimed);
      [Call(last + wait, 1)] + Drip(last + claimed, claimed, wait, m - 1)
  }

  /** A wait whose accrual is claimed whole: it credits at least one scaled token. */
  predicate Drips(p: Scaled, claimed: nat, wait: nat) {
    && p.Valid() && SCALE <= p.capacity
    && 0 < wait <= U64_MAX && claimed <= wait
    && RefillTokens(wait, p.rate) > 0 && ClaimedNanos(wait, p.rate) == claimed
  }

  lemma DripCall(p: Scaled, b: Bucket, claimed: nat, wait: nat)
    requires Drips(p, claimed, wait) && b.tokens <= p.capacity && b.last + wait <= U64_MAX
    ensures var c := Consume(b, p, b.last + wait, 1);
            && c.bucket.last == b.last + claimed && c.bucket.tokens <= p.capacity
            && (if c.permitted then SCALE else 0) + Min(c.bucket.tokens, SCALE - 1) >= 1 + Min(b.tokens, SCALE - 1)
  {
    var a := RefillTokens(wait, p.rate);
    var b2 := Refill(b.(access := b.last + wait), p, b.last + wait);
    assert b2.tokens == Min(b.tokens + a, p.capacity);
  }

  lemma {:induction false} DripShape(last: u64, start: u64, claimed: nat, wait: nat, m: nat)
    requires last + m * claimed + wait <= U64_MAX && start <= last + wait && claimed <= wait
    ensures Monotone(start, Drip(last, claimed, wait, m))
    ensures m > 0 ==> End(start, Drip(last, claimed, wait, m)) == last + (m - 1) * claimed + wait
    decreases m
  {
    if m > 0 {
      OneMore(m, claimed);
      var h, rest := Drip(last, claimed, wait, m), Drip(last + claimed, claimed, wait, m - 1);
      DripShape(last + claimed, last + wait, claimed, wait, m - 1);
      assert h[0] == Call(last + wait, 1) && h[1..] == rest;
      assert End(last + wait, rest) == End(start, h);
      if m > 1 {
        OneMore(m - 1, claimed);
      }
    }
  }

  lemma DripThenRest(p: Scaled, b: Bucket, claimed: nat, wait: nat, m: nat, rest: int)
    requires Drips(p, claimed, wait) && b.tokens <= p.capacity && b.last + wait <= U64_MAX
    requires rest >= m - 1 - (SCALE - 1) + Min(Consume(b, p, b.last + wait, 1).bucket.tokens, SCALE - 1)
    ensures CallSpent(p, b, Call(b.last + wait, 1)) + rest >= m - (SCALE - 1) + Min(b.tokens, SCALE - 1)
  {
    DripCall(p, b, claimed, wait);
  }

  lemma DripStarts(last: u64, claimed: nat, wait: nat, m: nat)
    requires m > 0 && last + m * claimed + wait <= U64_MAX && claimed <= wait
    ensures last + claimed <= U64_MAX && (last + claimed) + (m - 1) * claimed + wait <= U64_MAX
    ensures Drip(last, claimed, wait, m) == [Call(last + wait, 1)] + Drip(last + claimed, claimed, wait, m - 1)
  {
    OneMore(m, claimed);
  }

  lemma {:induction false} DripUnfolds(p: Scaled, b: Bucket, claimed: nat, wait: nat, m: nat)
    requires m > 0 && b.last + m * claimed + wait <= U64_MAX && claimed <= wait
    ensures b.last + claimed <= U64_MAX && (b.last + claimed) + (m - 1) * claimed + wait <= U64_MAX
    ensures Spent(p, b, Drip(b.last, claimed, wait, m))
         == CallSpent(p, b, Call(b.last + wait, 1))
            + Spent(p, Consume(b, p, b.last + wait, 1).bucket, Drip(b.last + claimed, claimed, wait, m - 1))
  {
    DripStarts(b.last, claimed, wait, m);
    TotalsUnfold(p, b, Call(b.last + wait, 1), Drip(b.last + claimed, claimed, wait, m - 1));
  }

  lemma DripLeavesRoom(p: Scaled, b: Bucket, claimed: nat, wait: nat, m: nat)
    requires Drips(p, claimed, wait) && b.tokens <= p.capacity
    requires m > 0 && b.last + m * claimed + wait <= U64_MAX
    ensures b.last + wait <= U64_MAX
    ensures var b' := Consume(b, p, b.last + wait, 1).bucket;
            b'.last == b.last + claimed && b'.tokens <= p.capacity && b'.last + (m - 1) * claimed + wait <= U64_MAX
  {
    OneMore(m, claimed);
    DripCall(p, b, claimed, wait);
  }

  lemma {:induction false} DripSpends(p: Scaled, b: Bucket, claimed: nat, wait: nat, m: nat)
    requires Drips(p, claimed, wait) && b.tokens <= p.capacity
    requires b.last + m * claimed + wait <= U64_MAX
    ensures Spent(p, b, Drip(b.last, claimed, wait, m)) >= m - (SCALE - 1) + Min(b.tokens, SCALE - 1)
    decreases m
  {
    if m > 0 {
      DripLeavesRoom(p, b, claimed, wait, m);
      var b' := Consume(b, p, b.last + wait, 1).bucket;
      DripSpends(p, b', claimed, wait, m - 1);
      DripUnfolds(p, b, claimed, wait, m);
      DripThenRest(p, b, claimed, wait, m, Spent(p, b', Drip(b'.last, claimed, wait, m - 1)));
    }
  }

  lemma DrainInOneCall(cfg: Config)
    requires cfg.Valid()
    ensures Consume(Bucket(cfg.Scale().capacity, 0, 0), cfg.Scale(), 0, cfg.capacity)
         == Consumed(Bucket(0, 0, 0), true, 0)
    ensures cfg.capacity * SCALE == cfg.Scale().capacity
  {
    var p := cfg.Scale();
    SpendAll(Bucket(p.capacity, 0, 0), p, cfg.capacity);
  }

  lemma SpendAll(b: Bucket, p: Scaled, cost: u64)
    requires b.last == b.access == 0 && SatMul(cost, SCALE) == b.tokens
    ensures Consume(b, p, 0, cost) == Consumed(b.(tokens := 0), true, 0)
  {
    assert Refill(b, p, 0) == b;
    assert Consume(b, p, 0, cost) == Spend(b, b.tokens);
  }

  /** Draining the bucket and then dripping, over `length` nanoseconds in all. */
  lemma DrainThenDrip(cfg: Config, claimed: nat, wait: nat, m: nat, length: nat) returns (h: seq<Call>)
    requires cfg.Valid() && cfg.capacity > 0 && Drips(cfg.Scale(), claimed, wait)
    requires m > 0 && length == (m - 1) * claimed + wait && length + claimed <= U64_MAX
    requires (m - (SCALE - 1)) * NANOS_PER_SEC > length * cfg.Scale().rate
    ensures !BudgetHolds(cfg.Scale(), 0, h) && Costly(h)
  {
    var p := cfg.Scale();
    OneMore(m, claimed);
    var drip := Drip(0, claimed, wait, m);
    h := [Call(0, cfg.capacity)] + drip;
    DrainInOneCall(cfg);
    DripShape(0, 0, claimed, wait, m);
    DripSpends(p, Bucket(0, 0, 0), claimed, wait, m);
    AfterTheDrain(p, h, drip);
    Overdrawn(p, h, length, m - (SCALE - 1));
  }

  lemma {:induction false} Overdrawn(p: Scaled, h: seq<Call>, length: nat, extra: int)
    requires Monotone(0, h) && End(0, h) == length && extra * NANOS_PER_SEC > length * p.rate
    requires Spent(p, Bucket(p.capacity, 0, 0), h) >= p.capacity + extra
    ensures !BudgetHolds(p, 0, h)
  {
  }

  lemma {:induction false} AfterTheDrain(p: Scaled, h: seq<Call>, rest: seq<Call>)
    requires rest != [] && h != [] && h[0].now == 0 && h == [h[0]] + rest && h[0].cost * SCALE == p.capacity
    requires Consume(Bucket(p.capacity, 0, 0), p, 0, h[0].cost) == Consumed(Bucket(0, 0, 0), true, 0)
    ensures var b := Bucket(p.capacity, 0, 0);
            && Spent(p, b, h) == p.capacity + Spent(p, Bucket(0, 0, 0), rest)
            && End(0, h) == End(0, rest)
            && (Monotone(0, rest) ==> Monotone(0, h))
  {
    assert h[1..] == rest;
  }

  lemma Overdraft(cfg: Config) returns (h: seq<Call>)
    requires cfg.Valid() && cfg.capacity > 0 && cfg.rate > 0
    requires NANOS_PER_SEC % (cfg.rate * SCALE) != 0 && (cfg.rate * SCALE) % NANOS_PER_SEC != 0
    ensures !BudgetHolds(cfg.Scale(), 0, h) && Costly(h)
  {
    var r := cfg.rate * SCALE;
    assert cfg.Scale().rate == r >= SCALE;
    if r < NANOS_PER_SEC {
      h := SlowDripOverdraws(cfg);
    } else {
      h := FastDripOverdraws(cfg);
    }
  }

  /** Below a token per nanosecond: every claim rounds its nanoseconds down. */
  lemma SlowDripOverdraws(cfg: Config) returns (h: seq<Call>)
    requires cfg.Valid() && cfg.capacity > 0
    requires SCALE <= cfg.rate * SCALE < NANOS_PER_SEC && NANOS_PER_SEC % (cfg.rate * SCALE) != 0
    ensures !BudgetHolds(cfg.Scale(), 0, h) && Costly(h)
  {
    var r := cfg.rate * SCALE;
    var q := NANOS_PER_SEC / r;
    var m := SCALE * NANOS_PER_SEC + r;
    FirstToken(r);
    RefillFloor(q + 1, r);
    FloorBelow(NANOS_PER_MILLI + 1, NANOS_PER_SEC, r);
    SlowDripLength(q, r, m);
    h := DrainThenDrip(cfg, q, q + 1, m, m * q + 1);
  }

  lemma SlowDripLength(q: nat, r: nat, m: nat)
    requires q <= NANOS_PER_MILLI && m == SCALE * NANOS_PER_SEC + r && SCALE <= r < NANOS_PER_SEC
    requires q == NANOS_PER_SEC / r && NANOS_PER_SEC % r != 0
    ensures m * q + 1 == (m - 1) * q + (q + 1) && m * q + 1 + q <= U64_MAX
    ensures (m - (SCALE - 1)) * NANOS_PER_SEC > (m * q + 1) * r
  {
    OneMore(m, q);
    MulMono(q, NANOS_PER_MILLI, m);
    FloorBounds(NANOS_PER_SEC, r);
    assert q * r + 1 <= NANOS_PER_SEC;
    MulMono(q * r + 1, NANOS_PER_SEC, m);
    assert (m * q + 1) * r == (q * r) * m + r;
    assert (q * r + 1) * m == (q * r) * m + m;
  }

  /** Above it, and not a whole multiple: a claim credits tokens and takes no time. */
  lemma FastDripOverdraws(cfg: Config) returns (h: seq<Call>)
    requires cfg.Valid() && cfg.capacity > 0
    requires cfg.rate * SCALE >= NANOS_PER_SEC && (cfg.rate * SCALE) % NANOS_PER_SEC != 0
    ensures !BudgetHolds(cfg.Scale(), 0, h) && Costly(h)
  {
    var r := cfg.rate * SCALE;
    FirstNanosecond(r);
    RefillFloor(1, r);
    h := DrainThenDrip(cfg, 0, 1, SCALE + r, 1);
  }
}
