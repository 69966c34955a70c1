/** What one request of the sampled bucket decides, pays and reports, in terms of its cost,
    the level that a refill would leave and the words it draws; and what an idle time is
    worth to the next request of any key
    (src/algorithm/probabilistic_token_bucket.rs:121-152, 332-356, 424-514). */
module ProbabilisticRequests {
  import opened Machine
  import opened Arithmetic
  import opened Internal
  import opened Probabilistic
  import opened ProbabilisticRuns
  import TR = TokenRuns

  /** The level at which requests of this cost are admitted on every word: what a group
      costs, or a whole bucket when it cannot hold that. */
  function FullAdmission(p: Params, cost: u64): int {
    Max(Min(p.sampleRate * (cost * SCALE), p.capacity), 1)
  }

  lemma RampIsFullAdmission(p: Params, cost: u64)
    requires p.Valid() && cost > 0
    ensures Ramp(p, Lump(p, ScaledI(cost))) == FullAdmission(p, cost)
  {
    LumpIsGroupCost(p, cost);
  }

  /** The level that a refill at this instant leaves. */
  function LevelAt(b: Bucket, p: Params, now: u64): int {
    Refill(b, p, now).tokens
  }

  /** A request reads, without writing it, the level that a refill would leave. */
  lemma EstimateIsRefill(b: Bucket, p: Params, now: u64)
    requires p.Valid() && b.tokens <= p.capacity
    ensures Estimated(b, p, now) == LevelAt(b, p, now)
  {
    RefillKeepsRange(b, p, now);
  }

  // Unsampled requests.

  /** An unsampled request changes nothing but the tick. It is admitted on a word exactly
      when the word modulo the full level is below the present one, accrual included; and
      it reports whole tokens of that level, or of the credited part when that decides. */
  lemma UnsampledRequest(b: Bucket, p: Params, now: u64, cost: u64, rng: Rng)
    requires p.Valid() && p.sampleRate > 1 && cost > 0 && b.tokens <= p.capacity && b.tick % p.sampleRate != 0
    ensures var a, level, full := Consume(b, p, now, cost, rng), LevelAt(b, p, now), FullAdmission(p, cost);
            && a.bucket == b.(tick := (b.tick + 1) % (U64_MAX + 1))
            && (a.permitted <==> rng.Word() % full < level)
            && (b.tokens >= full ==> a.permitted && a.remaining == b.tokens / SCALE)
            && (b.tokens < full ==> a.remaining == Max(level, 0) / SCALE)
  {
    RampIsFullAdmission(p, cost);
    EstimateIsRefill(b, p, now);
    RefillKeepsRange(b, p, now);
  }

  // Sampled requests.

  /** The part of an accrual that a word selects is the part of 2^32 that the word's high
      half is, rounded down. So over all words it spreads evenly from nothing to all. */
  lemma FractionIsProportional(accrued: i64, word: u64)
    requires accrued > 0
    ensures var high, f := word / U32_RANGE, FractionOf(accrued, word);
            && f * U32_RANGE <= accrued * high < (f + 1) * U32_RANGE
            && (word < U32_RANGE ==> f == 0)
            && (word == U64_MAX ==> f >= accrued - accrued / U32_RANGE - 1)
  {
    var high := word / U32_RANGE;
    FloorBounds(accrued * high, U32_RANGE);
    if word < U32_RANGE {
      NoPart(accrued, word);
    }
    if word == U64_MAX {
      WholePart(accrued);
    }
  }

  lemma NoPart(accrued: i64, word: u64)
    requires accrued > 0 && word < U32_RANGE
    ensures FractionOf(accrued, word) == 0
  {
    FloorExactly(0, word, U32_RANGE);
    assert word / U32_RANGE == 0;
  }

  lemma WholePart(accrued: i64)
    requires accrued > 0
    ensures FractionOf(accrued, U64_MAX) >= accrued - accrued / U32_RANGE - 1
  {
    FloorBounds(accrued, U32_RANGE);
    FloorAtLeast(accrued - accrued / U32_RANGE - 1, accrued * (U32_RANGE - 1), U32_RANGE);
    assert U64_MAX / U32_RANGE == U32_RANGE - 1;
  }

  predicate SelectedPart(accrued: int, word: u64, part: int) {
    part * U32_RANGE <= accrued * (word / U32_RANGE) < (part + 1) * U32_RANGE
  }

  /** The expected cost of a group at that level: the share of words that admit, rounded down. */
  predicate PaysShare(debit: int, lump: int, full: int, observed: int) {
    debit * full <= lump * Max(0, Min(observed, full)) < (debit + 1) * full
  }

  lemma PartIsSelected(accrued: i64, rng: Rng)
    requires accrued >= 0
    ensures SelectedPart(accrued, if accrued > 0 then rng.Word() else 0, RandomPart(accrued, rng).0)
    ensures 0 <= RandomPart(accrued, rng).0 <= accrued
    ensures RandomPart(accrued, rng).1 == if accrued > 0 then rng.Advanced() else rng
  {
    if accrued > 0 {
      FractionIsProportional(accrued, rng.Word());
    }
  }

  lemma ShareIsPaid(observed: i64, lump: i64, full: i64)
    requires 0 <= lump && 1 <= full
    ensures PaysShare(Debit(observed, lump, full), lump, full, observed)
  {
    AdmissionIsProportional(observed, full);
    DebitIsExpectedCost(observed, lump, full);
  }

  /** A sampled request by the part it selects and the debit it pays, when nothing saturates. */
  lemma SampledConsume(b: Bucket, p: Params, now: u64, cost: u64, rng: Rng, lump: i64, part: i64, debit: i64)
    requires p.Valid() && p.sampleRate > 1 && b.tick % p.sampleRate == 0 && lump == Lump(p, ScaledI(cost)) >= 0
    requires part == RandomPart(RefillTokensI(SatSub(now, b.last), p.rate), rng).0
    requires part >= 0 && debit == Debit(Min(b.tokens + part, p.capacity), lump, Ramp(p, lump))
    requires LevelAt(b, p, now) - debit >= -I64_MAX
    ensures var a, rng1 := Consume(b, p, now, cost, rng), RandomPart(RefillTokensI(SatSub(now, b.last), p.rate), rng).1;
            && a.bucket.tokens == LevelAt(b, p, now) - debit && a.bucket.last == Refill(b, p, now).last
            && a.bucket.tick == (b.tick + 1) % (U64_MAX + 1)
            && (a.permitted <==> rng1.Word() % Ramp(p, lump) < Min(b.tokens + part, p.capacity))
            && a.remaining == Max(LevelAt(b, p, now) - debit, 0) / SCALE
  {
    assert Refill(Ticked(b), p, now) == Refill(b, p, now).(tick := (b.tick + 1) % (U64_MAX + 1));
  }

  /** A sampled request observes a level within the window since the last refill, at the
      part of the accrual that its first word selects. It refills the bucket, pays its
      group's expected cost at that level, is admitted like any request at that level, and
      reports the whole tokens it leaves. */
  lemma SampledRequest(b: Bucket, p: Params, now: u64, cost: u64, rng: Rng) returns (part: int, debit: int)
    requires p.Valid() && p.sampleRate > 1 && cost > 0 && p.capacity - I64_MAX <= b.tokens <= p.capacity
    requires b.tick % p.sampleRate == 0
    ensures var a, full := Consume(b, p, now, cost, rng), FullAdmission(p, cost);
            var accrued := RefillTokensI(SatSub(now, b.last), p.rate);
            var observed := Min(b.tokens + part, p.capacity);
            && SelectedPart(accrued, if accrued > 0 then rng.Word() else 0, part)
            && b.tokens <= observed <= LevelAt(b, p, now)
            && PaysShare(debit, Min(p.sampleRate * (cost * SCALE), I64_MAX), full, observed)
            && a.bucket.tokens == LevelAt(b, p, now) - debit && a.bucket.last == Refill(b, p, now).last
            && a.bucket.tick == (b.tick + 1) % (U64_MAX + 1)
            && (a.permitted <==> (if accrued > 0 then rng.Advanced() else rng).Word() % full < observed)
            && a.remaining == Max(LevelAt(b, p, now) - debit, 0) / SCALE
  {
    var lump := Lump(p, ScaledI(cost));
    RampIsFullAdmission(p, cost);
    LumpIsGroupCost(p, cost);
    part := RandomPart(RefillTokensI(SatSub(now, b.last), p.rate), rng).0;
    debit := DebitAtPart(b, p, now, cost, rng, lump, part);
    SampledConsume(b, p, now, cost, rng, lump, part, debit);
  }

  lemma DebitAtPart(b: Bucket, p: Params, now: u64, cost: u64, rng: Rng, lump: i64, part: i64) returns (debit: i64)
    requires p.Valid() && p.capacity - I64_MAX <= b.tokens <= p.capacity && lump == Lump(p, ScaledI(cost)) >= 0
    requires part == RandomPart(RefillTokensI(SatSub(now, b.last), p.rate), rng).0
    ensures var accrued, observed := RefillTokensI(SatSub(now, b.last), p.rate), Min(b.tokens + part, p.capacity);
            && SelectedPart(accrued, if accrued > 0 then rng.Word() else 0, part) && part >= 0
            && RandomPart(accrued, rng).1 == (if accrued > 0 then rng.Advanced() else rng)
            && b.tokens <= observed <= LevelAt(b, p, now)
            && debit == Debit(observed, lump, Ramp(p, lump)) && PaysShare(debit, lump, Ramp(p, lump), observed)
            && LevelAt(b, p, now) - debit >= -I64_MAX
  {
    var observed := Min(b.tokens + part, p.capacity);
    RefillKeepsRange(b, p, now);
    PartIsSelected(RefillTokensI(SatSub(now, b.last), p.rate), rng);
    debit := Debit(observed, lump, Ramp(p, lump));
    ShareIsPaid(observed, lump, Ramp(p, lump));
    ObservedWithinRefill(b, p, now, part);
    DebitKeepsDepth(observed, lump, Ramp(p, lump));
  }

  // What levels mean to callers.

  /** A full bucket admits every request, sampled or not, of whatever cost, on every word. */
  lemma FullBucketAdmits(b: Bucket, p: Params, now: u64, cost: u64, rng: Rng)
    requires p.Valid() && p.sampleRate > 1 && cost > 0 && b.tokens == p.capacity >= 1
    ensures Consume(b, p, now, cost, rng).permitted
  {
    RefillKeepsRange(b, p, now);
    if b.tick % p.sampleRate == 0 {
      var part, debit := SampledRequest(b, p, now, cost, rng);
    } else {
      UnsampledRequest(b, p, now, cost, rng);
    }
  }

  /** Without a level even after the refill, every request is denied. */
  lemma EmptyBucketDenies(b: Bucket, p: Params, now: u64, cost: u64, rng: Rng)
    requires p.Valid() && cost > 0 && p.capacity - I64_MAX <= b.tokens <= p.capacity && LevelAt(b, p, now) <= 0
    ensures !Consume(b, p, now, cost, rng).permitted
  {
    if p.sampleRate > 1 && b.tick % p.sampleRate == 0 {
      var part, debit := SampledRequest(b, p, now, cost, rng);
      assert 0 <= (if RefillTokensI(SatSub(now, b.last), p.rate) > 0 then rng.Advanced() else rng).Word()
                  % FullAdmission(p, cost);
    } else if p.sampleRate > 1 {
      UnsampledRequest(b, p, now, cost, rng);
    }
  }

  lemma RequestKeepsClock(b: Bucket, p: Params, now: u64, cost: u64, rng: Rng)
    requires p.Valid() && p.sampleRate > 1 && b.tokens <= p.capacity
    ensures var b' := Consume(b, p, now, cost, rng).bucket;
            b'.last <= Max(now, b.last) && b'.tick == (b.tick + 1) % (U64_MAX + 1) && b'.tokens <= p.capacity
  {
    RefillKeepsRange(Ticked(b), p, now);
    CapacityIsKept(b, p, now, cost, rng);
  }

  /** A history claims no time to come. */
  lemma {:induction false} RunKeepsClock(b: Bucket, p: Params, rng: Rng, start: u64, h: seq<Call>)
    requires p.Valid() && p.sampleRate > 1 && b.tokens <= p.capacity && b.last <= start && TR.Monotone(start, h)
    ensures RunOf(b, p, rng, h).bucket.last <= TR.End(start, h)
    decreases h
  {
    if h != [] {
      var a := Consume(b, p, h[0].now, h[0].cost, rng);
      RequestKeepsClock(b, p, h[0].now, h[0].cost, rng);
      RunKeepsClock(a.bucket, p, a.rng, h[0].now, h[1..]);
      assert TR.End(h[0].now, h[1..]) == TR.End(start, h);
    }
  }

  lemma TicksAdd(tick: u64, next: u64, n: nat)
    requires next == (tick + 1) % (U64_MAX + 1)
    ensures (next + n) % (U64_MAX + 1) == (tick + (n + 1)) % (U64_MAX + 1)
  {
  }

  predicate Ticks(from: u64, to: u64, n: nat) {
    to == (from + n) % (U64_MAX + 1)
  }

  lemma {:induction false} TickThenRest(b: Bucket, p: Params, rng: Rng, call: Call, rest: seq<Call>, a: Answer)
    requires p.Valid() && p.sampleRate > 1 && b.tokens <= p.capacity && a == Consume(b, p, call.now, call.cost, rng)
    requires Ticks(a.bucket.tick, RunOf(a.bucket, p, a.rng, rest).bucket.tick, |rest|)
    ensures Ticks(b.tick, RunOf(b, p, rng, [call] + rest).bucket.tick, |[call] + rest|)
  {
    RequestKeepsClock(b, p, call.now, call.cost, rng);
    TicksAdd(b.tick, a.bucket.tick, |rest|);
    assert ([call] + rest)[1..] == rest;
  }

  /** A history moves the tick by one for each request. */
  lemma {:induction false} RunTicks(b: Bucket, p: Params, rng: Rng, h: seq<Call>)
    requires p.Valid() && p.sampleRate > 1 && b.tokens <= p.capacity
    ensures Ticks(b.tick, RunOf(b, p, rng, h).bucket.tick, |h|)
    decreases h
  {
    if h != [] {
      var a := Consume(b, p, h[0].now, h[0].cost, rng);
      RequestKeepsClock(b, p, h[0].now, h[0].cost, rng);
      RunTicks(a.bucket, p, a.rng, h[1..]);
      TickThenRest(b, p, rng, h[0], h[1..], a);
      assert [h[0]] + h[1..] == h;
    }
  }

  /** The level that an idle time worth so much leaves. */
  lemma IdleRefills(b: Bucket, p: Params, since: u64, now: u64, worth: nat)
    requires p.Valid() && p.capacity - I64_MAX <= b.tokens <= p.capacity && b.last <= since <= now
    requires (now - since) * p.rate >= worth * NANOS_PER_SEC
    ensures LevelAt(b, p, now) >= Min(b.tokens + worth, p.capacity)
  {
    RefillKeepsRange(b, p, now);
    MulMono(now - since, now - b.last, p.rate);
    RefillFloor(now - b.last, p.rate);
    if Unclamped(now - b.last, p.rate) {
      FloorAtLeast(worth, (now - b.last) * p.rate, NANOS_PER_SEC);
    }
  }

  /** After any history of a new key, of costs up to `most`, idle time that is worth the
      full level and the deepest debt is enough: the next unsampled request is admitted
      on every stream. */
  lemma {:induction false} IdleServes(p: Params, start: u64, phase: u64, rng: Rng, h: seq<Call>, most: u64, cost: u64,
          now: u64)
    requires p.Valid() && p.sampleRate > 1 && p.capacity >= 1 && cost > 0
    requires TR.Monotone(start, h) && TR.End(start, h) <= now
    requires forall i :: 0 <= i < |h| ==> h[i].cost <= most
    requires (phase + |h|) % (U64_MAX + 1) % p.sampleRate != 0
    requires var debt := Max(0, p.sampleRate * (most * SCALE) - p.capacity);
             (now - TR.End(start, h)) * p.rate >= (FullAdmission(p, cost) + debt) * NANOS_PER_SEC
    ensures var run := RunOf(NewBucket(p, start, phase), p, rng, h);
            Consume(run.bucket, p, now, cost, run.rng).permitted
  {
    var run, debt := RunOf(NewBucket(p, start, phase), p, rng, h), Max(0, p.sampleRate * (most * SCALE) - p.capacity);
    LevelWithinGroup(p, start, phase, rng, most, h);
    RunKeepsClock(NewBucket(p, start, phase), p, rng, start, h);
    RunTicks(NewBucket(p, start, phase), p, rng, h);
    IdleRefills(run.bucket, p, TR.End(start, h), now, FullAdmission(p, cost) + debt);
    UnsampledRequest(run.bucket, p, now, cost, run.rng);
  }
}
