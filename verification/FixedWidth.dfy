/** One bucket on unbounded integers, and why the saturating `u64` token bucket and
    the `i64` unsampled path both decide exactly as it does
    (src/algorithm/token_bucket.rs:16-20, 70-136;
    src/algorithm/probabilistic_token_bucket.rs:92-119, 359-379, 422-424). */
module FixedWidth {
  import opened Machine
  import opened Arithmetic
  import opened Internal
  import TB = TokenBucket
  import TR = TokenRuns
  import PB = Probabilistic

  type Call = TR.Call

  /** No width, no saturation, no clamp. */
  datatype Ideal = Ideal(tokens: int, last: int)

  datatype Reply = Reply(permitted: bool, remaining: int)

  function IdealRefill(b: Ideal, capacity: int, rate: int, now: int): Ideal {
    if rate == 0 then b
    else
      var added := (now - b.last) * rate / NANOS_PER_SEC;
      Ideal(Min(b.tokens + added, capacity), b.last + added * NANOS_PER_SEC / rate)
  }

  function IdealConsume(b: Ideal, capacity: int, rate: int, now: int, cost: int): (Ideal, Reply) {
    var b1 := IdealRefill(b, capacity, rate, now);
    if b1.tokens < cost * SCALE then (b1, Reply(false, b1.tokens / SCALE))
    else (b1.(tokens := b1.tokens - cost * SCALE), Reply(true, (b1.tokens - cost * SCALE) / SCALE))
  }

  function IdealReplies(b: Ideal, capacity: int, rate: int, h: seq<Call>): seq<Reply>
    decreases h
  {
    if h == [] then []
    else
      var (b', reply) := IdealConsume(b, capacity, rate, h[0].now, h[0].cost);
      [reply] + IdealReplies(b', capacity, rate, h[1..])
  }

  function TokenReplies(b: TB.Bucket, p: TB.Scaled, h: seq<Call>): seq<Reply>
    decreases h
  {
    if h == [] then []
    else
      var c := TB.Consume(b, p, h[0].now, h[0].cost);
      [Reply(c.permitted, c.remaining)] + TokenReplies(c.bucket, p, h[1..])
  }

  function ExactReplies(b: PB.Bucket, p: PB.Params, rng: PB.Rng, h: seq<Call>): seq<Reply>
    requires p.sampleRate == 1
    decreases h
  {
    if h == [] then []
    else
      var a := PB.Consume(b, p, h[0].now, h[0].cost, rng);
      [Reply(a.permitted, a.remaining)] + ExactReplies(a.bucket, p, a.rng, h[1..])
  }

  /** Gaps between calls whose accrual fits an `i64`, residue included. */
  predicate GapsFitI64(rate: int, start: u64, h: seq<Call>)
    decreases h
  {
    h == [] || (
      && (h[0].now - start) * rate + NANOS_PER_SEC + rate <= (I64_MAX + 1) * NANOS_PER_SEC
      && GapsFitI64(rate, h[0].now, h[1..]))
  }

  /** Within the `i64` clamps, nothing owed is more than one residue old. */
  predicate InRange(p: TB.Scaled, b: Ideal, now: u64) {
    && p.rate <= I64_MAX / 2 && p.capacity <= I64_MAX / 2
    && 0 <= b.tokens <= p.capacity && 0 <= b.last <= now
    && (now - b.last) * p.rate < NANOS_PER_SEC + p.rate
  }

  predicate Fits(p: TB.Scaled, b: Ideal, now: u64) {
    b.last <= now && (now - b.last) * p.rate < (I64_MAX + 1) * NANOS_PER_SEC
  }

  /** The accrual that each call of a run finds fits an `i64`. */
  predicate RunFits(p: TB.Scaled, b: Ideal, h: seq<Call>)
    decreases h
  {
    h == [] || (
      && Fits(p, b, h[0].now)
      && RunFits(p, IdealConsume(b, p.capacity, p.rate, h[0].now, h[0].cost).0, h[1..]))
  }

  lemma {:induction false} GapsKeepRunFitting(p: TB.Scaled, b: Ideal, start: u64, h: seq<Call>)
    requires InRange(p, b, start) && TR.Monotone(start, h) && GapsFitI64(p.rate, start, h)
    ensures RunFits(p, b, h)
    decreases h
  {
    if h != [] {
      var now := h[0].now;
      assert (now - b.last) * p.rate == (now - start) * p.rate + (start - b.last) * p.rate;
      IdealStaysInRange(p, b, start, now, h[0].cost);
      GapsKeepRunFitting(p, IdealConsume(b, p.capacity, p.rate, now, h[0].cost).0, now, h[1..]);
    }
  }

  /** Up to 500,000 tokens per second everything the clock can show fits. */
  lemma {:induction false} SlowRunsFit(p: TB.Scaled, b: Ideal, start: u64, h: seq<Call>)
    requires InRange(p, b, start) && TR.Monotone(start, h) && 2 * p.rate <= NANOS_PER_SEC
    ensures RunFits(p, b, h)
    decreases h
  {
    if h != [] {
      var now := h[0].now;
      MulMono(now - b.last, U64_MAX, p.rate);
      IdealStaysInRange(p, b, start, now, h[0].cost);
      SlowRunsFit(p, IdealConsume(b, p.capacity, p.rate, now, h[0].cost).0, now, h[1..]);
    }
  }

  /** The one refill that all three perform. */
  lemma SameRefill(p: TB.Scaled, b: Ideal, now: u64)
    requires p.rate > 0 && 0 <= b.last && Fits(p, b, now)
    ensures var e := now - b.last;
            var added := e * p.rate / NANOS_PER_SEC;
            && 0 <= added <= I64_MAX
            && RefillTokens(e, p.rate) == added == PB.RefillTokensI(e, p.rate)
            && NanosForTokens(added, p.rate) == added * NANOS_PER_SEC / p.rate == PB.NanosForTokensI(added, p.rate)
            && 0 <= added * NANOS_PER_SEC / p.rate <= e
  {
    var e := now - b.last;
    RefillFloor(e, p.rate);
    ClaimFitsElapsed(e, p.rate);
    FloorBelow(I64_MAX + 1, e * p.rate, NANOS_PER_SEC);
    if RefillTokens(e, p.rate) == 0 {
      FloorExactly(0, 0, p.rate);
    }
  }

  lemma IdealStaysInRange(p: TB.Scaled, b: Ideal, start: u64, now: u64, cost: u64)
    requires InRange(p, b, start) && start <= now && Fits(p, b, now)
    ensures InRange(p, IdealConsume(b, p.capacity, p.rate, now, cost).0, now)
  {
    if p.rate > 0 {
      SameRefill(p, b, now);
      RefillFloor(now - b.last, p.rate);
      ClaimAccounting(now - b.last, p.rate);
    }
  }

  /** The `u64` words and the ideal bucket. */
  predicate SameWords(t: TB.Bucket, b: Ideal) {
    t.tokens == b.tokens && t.last == b.last
  }

  lemma TokenStepIsIdeal(p: TB.Scaled, t: TB.Bucket, b: Ideal, start: u64, now: u64, cost: u64)
    requires InRange(p, b, start) && start <= now && Fits(p, b, now) && SameWords(t, b)
    ensures var (b', reply) := IdealConsume(b, p.capacity, p.rate, now, cost);
            var c := TB.Consume(t, p, now, cost);
            SameWords(c.bucket, b') && reply == Reply(c.permitted, c.remaining)
  {
    if p.rate > 0 {
      SameRefill(p, b, now);
    }
    var b1 := IdealRefill(b, p.capacity, p.rate, now);
    var t1 := TB.Refill(t.(access := now), p, now);
    assert SameWords(t1, b1);
  }

  predicate SameSignedWords(x: PB.Bucket, b: Ideal) {
    x.tokens == b.tokens && x.last == b.last
  }

  lemma ExactStepIsIdeal(p: TB.Scaled, q: PB.Params, x: PB.Bucket, b: Ideal, start: u64, now: u64, cost: u64,
          rng: PB.Rng)
    requires InRange(p, b, start) && start <= now && Fits(p, b, now) && SameSignedWords(x, b)
    requires q.sampleRate == 1 && q.capacity == p.capacity && q.rate == p.rate
    ensures var (b', reply) := IdealConsume(b, p.capacity, p.rate, now, cost);
            var a := PB.Consume(x, q, now, cost, rng);
            SameSignedWords(a.bucket, b') && a.rng == rng && reply == Reply(a.permitted, a.remaining)
  {
    if p.rate > 0 {
      SameRefill(p, b, now);
    }
    var b1 := IdealRefill(b, p.capacity, p.rate, now);
    var x1 := PB.Refill(x, q, now);
    assert SameSignedWords(x1, b1);
  }

  /** On every history, from agreeing words, the three buckets give the same replies. */
  lemma {:induction false} WidthsAgree(
      p: TB.Scaled, q: PB.Params, t: TB.Bucket, x: PB.Bucket, b: Ideal, start: u64, h: seq<Call>, rng: PB.Rng)
    requires InRange(p, b, start) && SameWords(t, b) && SameSignedWords(x, b)
    requires q.sampleRate == 1 && q.capacity == p.capacity && q.rate == p.rate
    requires TR.Monotone(start, h) && RunFits(p, b, h)
    ensures TokenReplies(t, p, h) == IdealReplies(b, p.capacity, p.rate, h) == ExactReplies(x, q, rng, h)
    decreases h
  {
    if h != [] {
      var now, cost := h[0].now, h[0].cost;
      IdealStaysInRange(p, b, start, now, cost);
      TokenStepIsIdeal(p, t, b, start, now, cost);
      ExactStepIsIdeal(p, q, x, b, start, now, cost, rng);
      WidthsAgree(p, q, TB.Consume(t, p, now, cost).bucket, PB.Consume(x, q, now, cost, rng).bucket,
                  IdealConsume(b, p.capacity, p.rate, now, cost).0, now, h[1..], rng);
    }
  }

  /** Two keys created at the same instant, of the deterministic bucket and of the
      sampled one with `sample_rate = 1`, and the unbounded bucket, on a run whose
      accruals fit. */
  lemma {:induction false} UnsampledIsTheTokenBucket(capacity: u64, rate: u64, start: u64, phase: u64, h: seq<Call>,
          rng: PB.Rng)
    requires capacity <= PB.MAX_BURST && rate <= PB.MAX_RATE_PER_SEC
    requires TR.Monotone(start, h)
    requires RunFits(TB.Scaled(capacity * SCALE, rate * SCALE), Ideal(capacity * SCALE, start), h)
    ensures var p, q := TB.NewConfig(capacity, rate).Scale(), PB.NewParams(capacity, rate, 1);
            TokenReplies(TB.NewBucket(capacity, start), p, h)
            == IdealReplies(Ideal(capacity * SCALE, start), capacity * SCALE, rate * SCALE, h)
            == ExactReplies(PB.NewBucket(q, start, phase), q, rng, h)
  {
    var p, q := TB.NewConfig(capacity, rate).Scale(), PB.NewParams(capacity, rate, 1);
    assert p == TB.Scaled(capacity * SCALE, rate * SCALE);
    WidthsAgree(p, q, TB.NewBucket(capacity, start), PB.NewBucket(q, start, phase),
                Ideal(capacity * SCALE, start), start, h, rng);
  }

  /** One history, from the creation of both keys. */
  predicate AnswersAlike(capacity: u64, rate: u64, start: u64, phase: u64, h: seq<Call>, rng: PB.Rng) {
    var p, q := TB.NewConfig(capacity, rate).Scale(), PB.NewParams(capacity, rate, 1);
    TR.Monotone(start, h) ==>
      TokenReplies(TB.NewBucket(capacity, start), p, h) == ExactReplies(PB.NewBucket(q, start, phase), q, rng, h)
  }

  /** The same from what a caller can check: the gaps between the calls. */
  lemma {:induction false} GapsKeepKeysAlike(capacity: u64, rate: u64, start: u64, phase: u64, h: seq<Call>,
          rng: PB.Rng)
    requires capacity <= PB.MAX_BURST && rate <= PB.MAX_RATE_PER_SEC
    requires GapsFitI64(rate * SCALE, start, h)
    ensures AnswersAlike(capacity, rate, start, phase, h, rng)
  {
    if TR.Monotone(start, h) {
      var p := TB.Scaled(capacity * SCALE, rate * SCALE);
      GapsKeepRunFitting(p, Ideal(p.capacity, start), start, h);
      UnsampledIsTheTokenBucket(capacity, rate, start, phase, h, rng);
    }
  }

  // Exactly when the two widths agree.

  /** "Exactly the deterministic token bucket", on every history: for a configuration
      within the signed clamps that is up to 500,000 tokens per second (or no capacity),
      and no further. */
  lemma UnsampledIsTheTokenBucketIff(capacity: u64, rate: u64)
    requires capacity <= PB.MAX_BURST && rate <= PB.MAX_RATE_PER_SEC
    ensures (forall start: u64, phase: u64, h: seq<Call>, rng: PB.Rng ::
              AnswersAlike(capacity, rate, start, phase, h, rng))
       <==> 2 * rate * SCALE <= NANOS_PER_SEC || capacity == 0
  {
    if 2 * rate * SCALE <= NANOS_PER_SEC || capacity == 0 {
      forall start: u64, phase: u64, h: seq<Call>, rng: PB.Rng
        ensures AnswersAlike(capacity, rate, start, phase, h, rng)
      {
        if TR.Monotone(start, h) {
          if capacity == 0 {
            EmptyAnswersAlike(rate, start, phase, h, rng);
          } else {
            SlowRunsFit(TB.Scaled(capacity * SCALE, rate * SCALE), Ideal(capacity * SCALE, start), start, h);
            UnsampledIsTheTokenBucket(capacity, rate, start, phase, h, rng);
          }
        }
      }
    } else {
      LongIdleTellsThemApart(capacity, rate, 0, PB.Rng(_ => 0, 0));
    }
  }

  lemma EmptyAnswersAlike(rate: u64, start: u64, phase: u64, h: seq<Call>, rng: PB.Rng)
    requires rate <= PB.MAX_RATE_PER_SEC
    ensures AnswersAlike(0, rate, start, phase, h, rng)
  {
    var p, q := TB.NewConfig(0, rate).Scale(), PB.NewParams(0, rate, 1);
    EmptyReplies(TB.NewBucket(0, start), PB.NewBucket(q, start, phase), p, q, h, rng);
  }

  lemma {:induction false} EmptyReplies(t: TB.Bucket, x: PB.Bucket, p: TB.Scaled, q: PB.Params, h: seq<Call>,
          rng: PB.Rng)
    requires t.tokens == 0 && x.tokens == 0 && p.capacity == 0 && q.capacity == 0 && q.sampleRate == 1
    ensures TokenReplies(t, p, h) == ExactReplies(x, q, rng, h)
    decreases h
  {
    if h != [] {
      var c, a := TB.Consume(t, p, h[0].now, h[0].cost), PB.Consume(x, q, h[0].now, h[0].cost, rng);
      assert TB.Refill(t.(access := h[0].now), p, h[0].now).tokens == 0 && PB.Refill(x, q, h[0].now).tokens == 0;
      EmptyReplies(c.bucket, a.bucket, p, q, h[1..], rng);
    }
  }

  /** Nanoseconds whose accrual is a whole number of scaled tokens, and exceeds an `i64`
      by at least a token but fits a `u64`. */
  function LongIdle(rate: u64): (e: u64)
    requires rate <= PB.MAX_RATE_PER_SEC && 2 * rate * SCALE > NANOS_PER_SEC
    ensures e * (rate * SCALE) % NANOS_PER_SEC == 0
    ensures (I64_MAX + 1001) * NANOS_PER_SEC <= e * (rate * SCALE) < (U64_MAX + 1) * NANOS_PER_SEC
  {
    var k := CeilDiv((I64_MAX + 1001) * SCALE, rate * SCALE);
    LongIdleAccrues(rate, k);
    k * NANOS_PER_MILLI
  }

  lemma LongIdleAccrues(rate: u64, k: nat)
    requires rate <= PB.MAX_RATE_PER_SEC && 2 * rate * SCALE > NANOS_PER_SEC
    requires (k - 1) * (rate * SCALE) < (I64_MAX + 1001) * SCALE <= k * (rate * SCALE)
    ensures var e, r := k * NANOS_PER_MILLI, rate * SCALE;
            && e <= U64_MAX
            && e * r % NANOS_PER_SEC == 0
            && (I64_MAX + 1001) * NANOS_PER_SEC <= e * r < (U64_MAX + 1) * NANOS_PER_SEC
  {
    var e, r := k * NANOS_PER_MILLI, rate * SCALE;
    assert e * r == (k * r) * NANOS_PER_MILLI;
    assert k * r == (k * rate) * SCALE;
    assert e * r == (k * rate) * NANOS_PER_SEC;
    FloorExactly(k * rate, e * r, NANOS_PER_SEC);
    assert (k - 1) * r == k * r - r;
    if k > U64_MAX / NANOS_PER_MILLI {
      MulMono(U64_MAX / NANOS_PER_MILLI, k - 1, r);
    }
  }

  /** What the `u64` bucket does after such an idle time: it claims all of it. */
  lemma UnsignedClaimsAll(p: TB.Scaled, b: TB.Bucket, e: u64)
    requires p.Valid() && p.rate > 0 && b.last == 0 && b.tokens == p.capacity
    requires e * p.rate % NANOS_PER_SEC == 0 && Unclamped(e, p.rate)
    ensures TB.Refill(b, p, e).tokens == p.capacity && TB.Refill(b, p, e).last == e
  {
    RefillFloor(e, p.rate);
    ClaimFitsElapsed(e, p.rate);
    FloorExactly(e, e * p.rate, p.rate);
    TR.RefillStep(p, b, e);
  }

  /** The `i64` bucket claims what an `i64` of credit accounts for, and more than a
      token's worth of the idle time stays on the clock. */
  lemma SignedLeavesAToken(p: PB.Params, b: PB.Bucket, e: u64)
    requires p.Valid() && p.rate > 0 && b.last == 0 && b.tokens == p.capacity
    requires (I64_MAX + 1001) * NANOS_PER_SEC <= e * p.rate
    ensures var b' := PB.Refill(b, p, e);
            b'.tokens == p.capacity && b'.last <= e && PB.RefillTokensI(e - b'.last, p.rate) >= SCALE
  {
    RefillFloor(e, p.rate);
    if Unclamped(e, p.rate) {
      FloorAtLeast(I64_MAX, e * p.rate, NANOS_PER_SEC);
    }
    assert PB.RefillTokensI(e, p.rate) == I64_MAX;
    var q := I64_MAX * NANOS_PER_SEC / p.rate;
    FloorBounds(I64_MAX * NANOS_PER_SEC, p.rate);
    FloorAtLeast(0, I64_MAX * NANOS_PER_SEC, p.rate);
    if q > e {
      MulMono(e, q, p.rate);
    }
    assert (e - q) * p.rate == e * p.rate - q * p.rate;
    RefillFloor(e - q, p.rate);
    if Unclamped(e - q, p.rate) {
      FloorAtLeast(SCALE, (e - q) * p.rate, NANOS_PER_SEC);
    }
  }

  function DrainThenOne(e: u64, capacity: u64): (h: seq<Call>)
    ensures |h| == 2 && h[0] == TR.Call(e, capacity) && h[1..] == [TR.Call(e, 1)]
  {
    [TR.Call(e, capacity), TR.Call(e, 1)]
  }

  lemma {:induction false} LastTokenReply(b: TB.Bucket, p: TB.Scaled, call: Call)
    ensures var c := TB.Consume(b, p, call.now, call.cost);
            TokenReplies(b, p, [call]) == [Reply(c.permitted, c.remaining)]
  {
    assert [call][1..] == [];
  }

  lemma {:induction false} LastExactReply(b: PB.Bucket, p: PB.Params, rng: PB.Rng, call: Call)
    requires p.sampleRate == 1
    ensures var a := PB.Consume(b, p, call.now, call.cost, rng);
            ExactReplies(b, p, rng, [call]) == [Reply(a.permitted, a.remaining)]
  {
    assert [call][1..] == [];
  }

  lemma {:induction false} UnsignedDenies(p: TB.Scaled, b: TB.Bucket, e: u64, capacity: u64)
    requires p.Valid() && p.rate > 0 && b.last == 0 && b.tokens == p.capacity == capacity * SCALE
    requires e * p.rate % NANOS_PER_SEC == 0 && Unclamped(e, p.rate)
    ensures var replies := TokenReplies(b, p, DrainThenOne(e, capacity));
            |replies| == 2 && !replies[1].permitted
  {
    UnsignedClaimsAll(p, b.(access := e), e);
    var b1 := TB.Consume(b, p, e, capacity).bucket;
    assert b1 == TB.Bucket(0, e, e);
    assert TB.Refill(b1, p, e) == b1;
    LastTokenReply(b1, p, TR.Call(e, 1));
  }

  lemma {:induction false} SignedPermits(p: PB.Params, b: PB.Bucket, e: u64, capacity: u64, rng: PB.Rng)
    requires p.Valid() && p.sampleRate == 1 && p.rate > 0 && b.last == 0
    requires b.tokens == p.capacity == capacity * SCALE && capacity > 0
    requires (I64_MAX + 1001) * NANOS_PER_SEC <= e * p.rate
    ensures var replies := ExactReplies(b, p, rng, DrainThenOne(e, capacity));
            |replies| == 2 && replies[1].permitted
  {
    SignedLeavesAToken(p, b, e);
    DrainAll(p, b, e, capacity, rng);
    var b1 := PB.Consume(b, p, e, capacity, rng).bucket;
    OneTokenIsBack(p, b1, e, rng);
    LastExactReply(b1, p, rng, TR.Call(e, 1));
  }

  lemma DrainAll(p: PB.Params, b: PB.Bucket, e: u64, capacity: u64, rng: PB.Rng)
    requires p.sampleRate == 1 && 0 <= p.capacity == capacity * SCALE && PB.Refill(b, p, e).tokens == p.capacity
    ensures var a := PB.Consume(b, p, e, capacity, rng);
            a.bucket == PB.Refill(b, p, e).(tokens := 0) && a.rng == rng
  {
  }

  lemma OneTokenIsBack(p: PB.Params, b: PB.Bucket, e: u64, rng: PB.Rng)
    requires p.Valid() && p.sampleRate == 1 && p.capacity >= SCALE && b.tokens == 0
    requires b.last <= e && PB.RefillTokensI(e - b.last, p.rate) >= SCALE
    ensures PB.Consume(b, p, e, 1, rng).permitted
  {
    assert PB.Refill(b, p, e).tokens >= SCALE;
  }

  /** Drained after such an idle time, the `u64` bucket denies one more token and the
      `i64` bucket permits it. */
  lemma LongIdleTellsThemApart(capacity: u64, rate: u64, phase: u64, rng: PB.Rng)
    requires 0 < capacity <= PB.MAX_BURST && rate <= PB.MAX_RATE_PER_SEC && 2 * rate * SCALE > NANOS_PER_SEC
    ensures !AnswersAlike(capacity, rate, 0, phase, DrainThenOne(LongIdle(rate), capacity), rng)
  {
    var e := LongIdle(rate);
    var p, q := TB.NewConfig(capacity, rate).Scale(), PB.NewParams(capacity, rate, 1);
    UnsignedDenies(p, TB.NewBucket(capacity, 0), e, capacity);
    SignedPermits(q, PB.NewBucket(q, 0, phase), e, capacity, rng);
    assert TR.Monotone(0, DrainThenOne(e, capacity));
  }
}
