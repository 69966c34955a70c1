/** Exactly which token buckets never run ahead of the exact bucket by more than the
    rounding of their claims, on any run, the `u64` clamp included
    (src/algorithm/token_bucket.rs:70-136, src/algorithm/internal.rs:56-72). */
module TokenTracking {
  import opened Machine
  import opened Arithmetic
  import opened Internal
  import opened TokenBucket
  import opened TokenRuns
  import opened TokenWindow

  /** Whether a permitted call could be paid for by an exact level with `slack` to spare. */
  predicate Paid(permitted: bool, level: int, slack: int, cost: u64) {
    permitted ==> level + slack >= cost * SCALE * NANOS_PER_SEC
  }

  predicate AllPaid(p: Scaled, b: Bucket, x: Exact, h: seq<Call>, slack: int) {
    forall i :: 0 <= i < |h| ==> Paid(Decisions(p, b, h)[i], ExactLevels(p, b, x, h)[i], slack, h[i].cost)
  }

  /** On one run from the creation of a key, nothing is permitted that the exact bucket
      could not pay for with the rounding slack of the run's claims. */
  predicate NeverAhead(p: Scaled, start: u64, h: seq<Call>)
    requires p.rate > 0
  {
    Monotone(start, h) ==>
      var b := Bucket(p.capacity, start, start);
      AllPaid(p, b, Exact(p.capacity * NANOS_PER_SEC, start), h, Lead(p, Claims(p, b, h)))
  }

  ghost predicate AlwaysTracks(p: Scaled)
    requires p.rate > 0
  {
    forall start: u64, h: seq<Call> :: NeverAhead(p, start, h)
  }

  /** As `WindowSafe`, with the larger lead that tracking allows. */
  predicate TrackSafe(p: Scaled)
    requires p.Valid()
  {
    p.rate <= NANOS_PER_SEC || RefillsAtOnce(p) * Excess(p) <= NANOS_PER_SEC + 2 * p.rate - 1
  }

  // The safe buckets.

  /** The lead that a clamped claim can leave, beyond its slack. */
  function Margin(p: Scaled, grain: nat): nat
    requires Fast(p)
  {
    Max(Worth(p, grain, U64_MAX - ClampedNanos(p)) - (p.rate - 1), 0)
  }

  /** What may be ahead of the exact level after `k` claims. */
  function Ahead(p: Scaled, grain: nat, k: nat): nat
    requires Fast(p)
  {
    Margin(p, grain) + ClaimSlack(p, k)
  }

  /** The idle time that a refill leaves is worth no more than the margin and the claim's slack. */
  lemma RestIsWorth(p: Scaled, grain: nat, e: u64)
    requires Graded(p, grain)
    ensures ClaimedNanos(e, p.rate) <= e
    ensures Worth(p, grain, e - ClaimedNanos(e, p.rate))
         <= Margin(p, grain) + (if RefillTokens(e, p.rate) > 0 then p.rate - 1 else 0)
  {
    ClaimAccounting(e, p.rate);
    RefillFloor(e, p.rate);
    var rest := e - ClaimedNanos(e, p.rate);
    WorthIsNatural(p, grain, 0);
    if !Unclamped(e, p.rate) {
      ClampedClaimIsWorth(p, grain, e);
      WorthGrows(p, grain, rest, U64_MAX - e);
    } else if p.rate % NANOS_PER_SEC == 0 {
      WholeTokensPerNano(e, p.rate);
    } else {
      RestOfUnclamped(rest, p.rate);
      AtMostAGrain(p, rest);
    }
  }

  predicate Behind(p: Scaled, grain: nat, b: Bucket, x: Exact, k: nat)
    requires Fast(p)
  {
    && WellFormed(p, b, x.at)
    && b.tokens * NANOS_PER_SEC + Worth(p, grain, x.at - b.last) <= x.level + Ahead(p, grain, k)
  }

  lemma AheadGrows(p: Scaled, grain: nat, j: nat, k: nat)
    requires Fast(p)
    ensures Ahead(p, grain, k + 1) == Ahead(p, grain, k) + p.rate - 1
    ensures j <= k ==> Ahead(p, grain, j) <= Ahead(p, grain, k)
  {
    ClaimSlackAdds(p, k, 1);
    SlackOfOneClaim(p);
    if j <= k {
      ClaimSlackAdds(p, j, k - j);
    }
  }

  lemma BehindRefill(p: Scaled, grain: nat, b: Bucket, x: Exact, now: u64, k: nat)
    requires Graded(p, grain) && Behind(p, grain, b, x, k) && x.at <= now
    ensures var b' := Refill(b, p, now);
            && WellFormed(p, b', now)
            && b'.tokens * NANOS_PER_SEC + Worth(p, grain, now - b'.last)
               <= Accrue(p, x, now) + Ahead(p, grain, ClaimsAfter(p, b, now, k))
  {
    RefillIsWorth(p, grain, b, now);
    WorthGrows(p, grain, x.at - b.last, now - x.at);
    RestIsWorth(p, grain, now - b.last);
    AheadGrows(p, grain, k, k);
    assert Refill(b, p, now).last == b.last + ClaimedNanos(now - b.last, p.rate);
  }

  lemma BehindStep(p: Scaled, grain: nat, b: Bucket, x: Exact, call: Call, k: nat)
    requires Graded(p, grain) && Behind(p, grain, b, x, k) && x.at <= call.now
    ensures var k', c := ClaimsAfter(p, b, call.now, k), Consume(b, p, call.now, call.cost);
            && Behind(p, grain, c.bucket, Charge(p, b, x, call), k')
            && Paid(c.permitted, Accrue(p, x, call.now), Ahead(p, grain, k'), call.cost)
  {
    var b1 := b.(access := call.now);
    BehindRefill(p, grain, b1, x, call.now, k);
    WorthIsNatural(p, grain, call.now - Refill(b1, p, call.now).last);
  }

  lemma MoreSlackPays(p: Scaled, b: Bucket, x: Exact, h: seq<Call>, less: int, slack: int)
    requires AllPaid(p, b, x, h, less) && less <= slack
    ensures AllPaid(p, b, x, h, slack)
  {
    forall i | 0 <= i < |h|
      ensures Paid(Decisions(p, b, h)[i], ExactLevels(p, b, x, h)[i], slack, h[i].cost)
    {
      assert Paid(Decisions(p, b, h)[i], ExactLevels(p, b, x, h)[i], less, h[i].cost);
    }
  }

  lemma FirstAndRestPaid(p: Scaled, b: Bucket, x: Exact, call: Call, rest: seq<Call>, slack: int)
    requires var c := Consume(b, p, call.now, call.cost);
             && Paid(c.permitted, Accrue(p, x, call.now), slack, call.cost)
             && AllPaid(p, c.bucket, Charge(p, b, x, call), rest, slack)
    ensures AllPaid(p, b, x, [call] + rest, slack)
  {
    var h, b', x' := [call] + rest, Consume(b, p, call.now, call.cost).bucket, Charge(p, b, x, call);
    assert h[1..] == rest;
    forall i | 0 <= i < |h|
      ensures Paid(Decisions(p, b, h)[i], ExactLevels(p, b, x, h)[i], slack, h[i].cost)
    {
      if i > 0 {
        assert Paid(Decisions(p, b', rest)[i - 1], ExactLevels(p, b', x', rest)[i - 1], slack, rest[i - 1].cost);
      }
    }
  }

  lemma {:induction false} RunStaysBehind(p: Scaled, grain: nat, b: Bucket, x: Exact, h: seq<Call>, k: nat)
    requires Graded(p, grain) && Behind(p, grain, b, x, k) && Monotone(x.at, h)
    ensures AllPaid(p, b, x, h, Ahead(p, grain, k + Claims(p, b, h)))
    decreases h
  {
    if h != [] {
      var k' := ClaimsAfter(p, b, h[0].now, k);
      BehindStep(p, grain, b, x, h[0], k);
      RunStaysBehind(p, grain, Consume(b, p, h[0].now, h[0].cost).bucket, Charge(p, b, x, h[0]), h[1..], k');
      AheadGrows(p, grain, k', k + Claims(p, b, h));
      assert [h[0]] + h[1..] == h;
      FirstAndRestPaid(p, b, x, h[0], h[1..], Ahead(p, grain, k + Claims(p, b, h)));
    }
  }

  lemma FewRefills(p: Scaled)
    requires Fast(p) && RefillsAtOnce(p) <= 2
    ensures p.rate <= 4 * NANOS_PER_SEC
  {
    var c := ClampedNanos(p);
    MulMono(RefillsAtOnce(p), 2, c);
    if p.rate > 4 * NANOS_PER_SEC {
      MulMono(4 * NANOS_PER_SEC, p.rate, c);
    }
  }

  lemma SafeExcess(p: Scaled)
    requires Fast(p) && TrackSafe(p) && (p.capacity == 0 || p.capacity >= SCALE)
    ensures Excess(p) <= p.rate
  {
    if Excess(p) > p.rate {
      if RefillsAtOnce(p) <= 2 {
        FewRefills(p);
        MulMono(1, RefillsAtOnce(p), Excess(p));
      } else {
        MulMono(3, RefillsAtOnce(p), Excess(p));
      }
    }
  }

  lemma FullBucketIsBehind(p: Scaled, grain: nat, start: u64)
    requires Fast(p)
    ensures Behind(p, grain, Bucket(p.capacity, start, start), Exact(p.capacity * NANOS_PER_SEC, start), 0)
  {
    WorthIsNatural(p, grain, 0);
  }

  /** Refills that make up the whole clock are never worth exactly the lead: their number
      and the one before them would be a multiple of `NANOS_PER_SEC`. */
  lemma PiecesMissTheLead(m: int, k: nat, x: int, c: int)
    requires (k + 1) * c == U64_MAX - 1
    ensures k * (x * NANOS_PER_SEC + 1) != NANOS_PER_SEC + 2 * (m * NANOS_PER_SEC) - 1
  {
    if k * (x * NANOS_PER_SEC + 1) == NANOS_PER_SEC + 2 * (m * NANOS_PER_SEC) - 1 {
      var j := PieceCount(m, k, x);
      NoWholePieces(j, c);
    }
  }

  lemma PieceCount(m: int, k: nat, x: int) returns (j: int)
    requires k * (x * NANOS_PER_SEC + 1) == NANOS_PER_SEC + 2 * (m * NANOS_PER_SEC) - 1
    ensures k + 1 == j * NANOS_PER_SEC
  {
    j := 1 + 2 * m - k * x;
    assert k * (x * NANOS_PER_SEC + 1) == (k * x) * NANOS_PER_SEC + k;
  }

  /** 2^64 - 2 is no multiple of four. */
  lemma NoWholePieces(j: int, c: int)
    ensures (j * NANOS_PER_SEC) * c != U64_MAX - 1
  {
    assert (j * NANOS_PER_SEC) * c == 4 * (j * c * (NANOS_PER_SEC / 4));
  }

  lemma MarginWithinLead(p: Scaled) returns (grain: nat)
    requires Fast(p) && TrackSafe(p) && Excess(p) <= p.rate
    ensures Graded(p, grain) && Margin(p, grain) <= NANOS_PER_SEC + p.rate
  {
    grain := LongestIdle(p);
    if MakesUpTheClock(p) {
      var m, x := p.rate / NANOS_PER_SEC, p.capacity - p.rate / NANOS_PER_SEC;
      assert Excess(p) == x * NANOS_PER_SEC + 1;
      PiecesMissTheLead(m, RefillsAtOnce(p), x, ClampedNanos(p));
    }
  }

  lemma SafeFastTracks(p: Scaled, start: u64, h: seq<Call>)
    requires Fast(p) && TrackSafe(p) && (p.capacity == 0 || p.capacity >= SCALE)
    ensures NeverAhead(p, start, h)
  {
    if Monotone(start, h) {
      SafeExcess(p);
      var grain := MarginWithinLead(p);
      var b, x := Bucket(p.capacity, start, start), Exact(p.capacity * NANOS_PER_SEC, start);
      var k := Claims(p, b, h);
      FullBucketIsBehind(p, grain, start);
      RunStaysBehind(p, grain, b, x, h, 0);
      SlackOfClaims(p, k);
      MoreSlackPays(p, b, x, h, Ahead(p, grain, k), Lead(p, k));
    }
  }

  lemma SlowTracks(p: Scaled, start: u64, h: seq<Call>)
    requires p.Valid() && 0 < p.rate <= NANOS_PER_SEC
    ensures NeverAhead(p, start, h)
  {
    if Monotone(start, h) {
      SlowRateNeverClamps(p, Bucket(p.capacity, start, start), start, h);
      TracksExactBucket(p, start, h);
    }
  }

  // The others: calls at the last instant of the clock.

  /** The last of `n` calls for a whole bucket each finds all the others charged. */
  lemma {:induction false} BurstLevels(p: Scaled, b: Bucket, level: int, cost: u64, n: nat)
    requires Fast(p) && b.tokens == 0 && cost > 0 && p.capacity == cost * SCALE && level <= 0
    requires n > 0 && Holds(p, U64_MAX - b.last, n)
    ensures Decisions(p, b, Burst(n, cost))[n - 1]
    ensures ExactLevels(p, b, Exact(level, U64_MAX), Burst(n, cost))[n - 1]
         == level - (n - 1) * (p.capacity * NANOS_PER_SEC)
    decreases n
  {
    FullCall(p, b, cost, n);
    var h, x := Burst(n, cost), Exact(level, U64_MAX);
    var b', x' := Consume(b, p, U64_MAX, cost).bucket, Charge(p, b, x, h[0]);
    assert h[1..] == Burst(n - 1, cost);
    if n > 1 {
      BurstLevels(p, b', x'.level, cost, n - 1);
      OneMore(n - 1, p.capacity * NANOS_PER_SEC);
    }
  }

  /** Calls at that instant after the drain, the last of which the exact bucket cannot
      pay for with the slack of all the claims. */
  lemma {:induction false} AtOnceGetsAhead(p: Scaled, cost: u64, rest: seq<Call>)
    requires Fast(p) && p.capacity == cost * SCALE
    requires rest != [] && Monotone(U64_MAX, rest)
    requires var next, i := Bucket(0, ClampedNanos(p), U64_MAX), |rest| - 1;
             && Decisions(p, next, rest)[i]
             && ExactLevels(p, next, Exact(0, U64_MAX), rest)[i] + Lead(p, Claims(p, next, rest) + 1)
                < rest[i].cost * SCALE * NANOS_PER_SEC
    ensures !NeverAhead(p, 0, [Call(U64_MAX, cost)] + rest)
  {
    var b, x, call := Bucket(p.capacity, 0, 0), Exact(p.capacity * NANOS_PER_SEC, 0), Call(U64_MAX, cost);
    var h, i := [call] + rest, |rest|;
    assert h[1..] == rest && Monotone(0, h);
    DrainAfterLongestIdle(p, cost);
    MulMono(0, U64_MAX, p.rate);
    assert Charge(p, b, x, call) == Exact(0, U64_MAX);
    TotalsUnfold(p, b, call, rest);
    var next := Bucket(0, ClampedNanos(p), U64_MAX);
    assert Decisions(p, b, h)[i] == Decisions(p, next, rest)[i - 1];
    assert ExactLevels(p, b, x, h)[i] == ExactLevels(p, next, Exact(0, U64_MAX), rest)[i - 1];
    LeadGrows(p, Claims(p, next, rest));
    assert !Paid(Decisions(p, b, h)[i], ExactLevels(p, b, x, h)[i], Lead(p, Claims(p, b, h)), h[i].cost);
  }

  lemma LastIsUnpaid(n: int, full: int, slack: int, lead: int)
    requires n * (full - slack) > lead + slack
    ensures -(n - 1) * full + lead + (n + 1) * slack < full
  {
    assert n * (full - slack) == n * full - n * slack;
    assert (n + 1) * slack == n * slack + slack && (n - 1) * full == n * full - full;
  }

  lemma {:induction false} BurstGetsAhead(p: Scaled, cost: u64, n: nat)
    requires Fast(p) && cost > 0 && p.capacity == cost * SCALE && n > 0
    requires Holds(p, U64_MAX - ClampedNanos(p), n) && n * Excess(p) > NANOS_PER_SEC + 2 * p.rate - 1
    ensures !NeverAhead(p, 0, [Call(U64_MAX, cost)] + Burst(n, cost))
  {
    var next := Bucket(0, ClampedNanos(p), U64_MAX);
    BurstSpends(p, next, cost, n);
    BurstLevels(p, next, 0, cost, n);
    LastIsUnpaid(n, p.capacity * NANOS_PER_SEC, p.rate - 1, NANOS_PER_SEC + p.rate);
    assert Burst(n, cost)[n - 1] == Call(U64_MAX, cost);
    AtOnceGetsAhead(p, cost, Burst(n, cost));
  }

  lemma SecondCallGetsAhead(p: Scaled, cost: u64, second: u64)
    requires Fast(p) && p.capacity == cost * SCALE && 0 < second <= cost
    requires second * SCALE * NANOS_PER_SEC > NANOS_PER_SEC + 3 * p.rate - 2
    requires second * SCALE * NANOS_PER_SEC <= U64_MAX * (p.rate - NANOS_PER_SEC)
    ensures !NeverAhead(p, 0, [Call(U64_MAX, cost)] + [Call(U64_MAX, second)])
  {
    var next, rest := Bucket(0, ClampedNanos(p), U64_MAX), [Call(U64_MAX, second)];
    RefillAfterClamp(p, second * SCALE);
    TotalsUnfold(p, next, rest[0], []);
    assert rest + [] == rest && rest[1..] == [];
    assert Lead(p, 2) == NANOS_PER_SEC + 3 * p.rate - 2;
    AtOnceGetsAhead(p, cost, rest);
  }

  lemma LargeGetsAhead(p: Scaled, cost: u64, second: u64)
    requires Fast(p) && p.rate % SCALE == 0 && cost > 0 && p.capacity == cost * SCALE
    requires Excess(p) > NANOS_PER_SEC + 2 * p.rate - 1 && second == Min(cost, 18_446_744_073)
    ensures !NeverAhead(p, 0, [Call(U64_MAX, cost)] + [Call(U64_MAX, second)])
  {
    assert p.rate - NANOS_PER_SEC >= SCALE;
    SecondCallGetsAhead(p, cost, second);
  }

  lemma ManyPieces(p: Scaled)
    requires Fast(p) && p.rate >= 5 * NANOS_PER_SEC
    ensures Holds(p, U64_MAX - ClampedNanos(p), 3)
  {
    MulMono(5 * NANOS_PER_SEC, p.rate, ClampedNanos(p));
  }

  lemma {:induction false} MiddlingGetsAhead(p: Scaled, cost: u64)
    requires Fast(p) && cost > 0 && p.capacity == cost * SCALE
    requires 2 * p.rate < p.capacity * NANOS_PER_SEC && Excess(p) <= NANOS_PER_SEC + 2 * p.rate - 1
    ensures !NeverAhead(p, 0, [Call(U64_MAX, cost)] + Burst(3, cost))
  {
    assert p.capacity >= SCALE;
    ManyPieces(p);
    BurstGetsAhead(p, cost, 3);
  }

  lemma UnsafeHoldsTokens(p: Scaled)
    requires Fast(p) && !TrackSafe(p)
    ensures p.capacity > 0 && Excess(p) > 0
  {
    if Excess(p) <= 0 {
      MulMono(Excess(p), 0, RefillsAtOnce(p));
    }
  }

  /** An unsafe configuration: one more call at the last instant, or three, or as many as
      there are refills, get ahead, as the bucket is large, middling or small. */
  function CallsGettingAhead(p: Scaled, cost: u64): (h: seq<Call>)
    requires Fast(p) && cost > 0
    ensures forall i :: 0 <= i < |h| ==> h[i].cost > 0 && h[i].now == U64_MAX
  {
    [Call(U64_MAX, cost)]
    + if Excess(p) > NANOS_PER_SEC + 2 * p.rate - 1 then [Call(U64_MAX, Min(cost, 18_446_744_073))]
      else Burst(if p.capacity * NANOS_PER_SEC > 2 * p.rate then 3 else RefillsAtOnce(p), cost)
  }

  lemma ClampGetsAhead(p: Scaled, cost: u64)
    requires Fast(p) && p.rate % SCALE == 0 && cost > 0 && p.capacity == cost * SCALE && !TrackSafe(p)
    ensures !NeverAhead(p, 0, CallsGettingAhead(p, cost))
  {
    if Excess(p) > NANOS_PER_SEC + 2 * p.rate - 1 {
      LargeGetsAhead(p, cost, Min(cost, 18_446_744_073));
    } else if p.capacity * NANOS_PER_SEC > 2 * p.rate {
      MiddlingGetsAhead(p, cost);
    } else {
      PiecesHold(p);
      BurstGetsAhead(p, cost, RefillsAtOnce(p));
    }
  }

  lemma TracksIffSafe(p: Scaled, cost: u64)
    requires p.Valid() && p.rate > 0 && p.rate % SCALE == 0 && p.capacity == cost * SCALE
    ensures AlwaysTracks(p) <==> TrackSafe(p)
  {
    if p.rate <= NANOS_PER_SEC {
      forall start: u64, h: seq<Call> ensures NeverAhead(p, start, h) {
        SlowTracks(p, start, h);
      }
    } else if TrackSafe(p) {
      forall start: u64, h: seq<Call> ensures NeverAhead(p, start, h) {
        SafeFastTracks(p, start, h);
      }
    } else {
      UnsafeHoldsTokens(p);
      ClampGetsAhead(p, cost);
    }
  }

  /** The integer bucket is never ahead of the exact one by more than its claims'
      rounding, on every run of a configuration, exactly when the configuration is safe. */
  lemma TracksIff(cfg: Config)
    requires cfg.Valid() && cfg.rate > 0
    ensures AlwaysTracks(cfg.Scale()) <==> TrackSafe(cfg.Scale())
  {
    ScaleIsValid(cfg);
    TracksIffSafe(cfg.Scale(), cfg.capacity);
  }

  /** For a bucket that takes more than about three nanoseconds to fill, that is up to
      1,000,000 tokens per second and no further. */
  lemma TracksUpToAMillionIff(cfg: Config)
    requires cfg.Valid() && cfg.rate > 0
    requires cfg.capacity * SCALE * NANOS_PER_SEC > NANOS_PER_SEC + 3 * cfg.rate * SCALE
    ensures AlwaysTracks(cfg.Scale()) <==> cfg.rate <= 1_000_000
  {
    var p := cfg.Scale();
    TracksIff(cfg);
    ScaleIsValid(cfg);
    if p.rate > NANOS_PER_SEC {
      LargeIsUnsafe(p);
    }
  }

  lemma LargeIsUnsafe(p: Scaled)
    requires Fast(p) && Excess(p) > NANOS_PER_SEC + 2 * p.rate - 1
    ensures !TrackSafe(p)
  {
    MulMono(1, RefillsAtOnce(p), Excess(p));
  }

  /** Every configuration that a limiter accepts is of that kind. */
  lemma AcceptedTracksIff(cfg: Config)
    requires cfg.Valid() && 0 < cfg.rate <= cfg.capacity
    ensures AlwaysTracks(cfg.Scale()) <==> cfg.rate <= 1_000_000
  {
    TracksUpToAMillionIff(cfg);
  }
}
