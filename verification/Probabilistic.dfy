/** One key of the probabilistic token bucket
    (src/algorithm/probabilistic_token_bucket.rs): a signed level, lump debits on
    one request in `sampleRate`, and an admission ramp driven by a random stream. */
module Probabilistic {
  import opened Machine
  import opened Arithmetic
  import opened Internal

  const MAX_BURST := I64_MAX / (2 * SCALE)
  const MAX_RATE_PER_SEC := I64_MAX / (2 * SCALE)
  const U32_RANGE := 0x1_0000_0000

  /** Capacity and rate in scaled tokens, and the sampling rate. */
  datatype Params = Params(capacity: i64, rate: u64, sampleRate: u32) {
    predicate Valid() {
      0 <= capacity <= I64_MAX / 2 && rate <= I64_MAX / 2 && sampleRate >= 1
    }
  }

  function ScaledI(tokens: u64): i64 {
    Min(SatMul(tokens, SCALE), I64_MAX)
  }

  /** The clamps of `ProbabilisticTokenBucket::new`, then the scaling of each call. */
  function NewParams(capacity: u64, rate: u64, sampleRate: u32): (p: Params)
    requires sampleRate >= 1
    ensures p.Valid() && p.sampleRate == sampleRate
    ensures capacity <= MAX_BURST ==> p.capacity == capacity * SCALE
    ensures rate <= MAX_RATE_PER_SEC ==> p.rate == rate * SCALE
  {
    Params(ScaledI(Min(capacity, MAX_BURST)), SatMul(Min(rate, MAX_RATE_PER_SEC), SCALE), sampleRate)
  }

  /** The largest capacity and rate, in whole tokens, and what becomes of larger ones. */
  lemma LargestParams(capacity: u64, rate: u64, sampleRate: u32)
    requires sampleRate >= 1
    ensures var p := NewParams(4_611_686_018_427_387, 4_611_686_018_427_387, sampleRate);
            && p == Params(4_611_686_018_427_387_000, 4_611_686_018_427_387_000, sampleRate)
            && (capacity > 4_611_686_018_427_387 && rate > 4_611_686_018_427_387 ==>
                  NewParams(capacity, rate, sampleRate) == p)
  {
  }

  function RefillTokensI(elapsed: u64, rateScaled: u64): i64 {
    Min(RefillTokens(elapsed, rateScaled), I64_MAX)
  }

  function NanosForTokensI(added: i64, rateScaled: u64): u64 {
    if added <= 0 then 0 else NanosForTokens(added, rateScaled)
  }

  function RemainingOf(available: i64): u64 {
    Max(available, 0) / SCALE
  }

  // Randomness: an arbitrary stream of words and a position in it.

  datatype Rng = Rng(stream: nat -> u64, at: nat) {
    function Word(): u64 {
      stream(at)
    }

    function Advanced(): Rng {
      Rng(stream, at + 1)
    }
  }

  /** The part of `accrued` that a drawn word selects: `accrued` times a fraction below one. */
  function FractionOf(accrued: i64, word: u64): (f: i64)
    requires accrued > 0
    ensures 0 <= f <= accrued
  {
    var fraction := word / U32_RANGE;
    assert 0 <= fraction < U32_RANGE;
    FractionWithin(accrued, fraction);
    accrued * fraction / U32_RANGE
  }

  lemma FractionWithin(accrued: int, fraction: int)
    requires 0 < accrued && 0 <= fraction < U32_RANGE
    ensures 0 <= accrued * fraction / U32_RANGE <= accrued
  {
    MulMono(fraction, U32_RANGE, accrued);
    MulMono(0, fraction, accrued);
    FloorAtLeast(0, accrued * fraction, U32_RANGE);
    FloorMono(accrued * fraction, accrued * U32_RANGE, U32_RANGE);
    FloorExactly(accrued, accrued * U32_RANGE, U32_RANGE);
  }

  function RandomPart(accrued: i64, rng: Rng): (i64, Rng) {
    if accrued <= 0 then (0, rng) else (FractionOf(accrued, rng.Word()), rng.Advanced())
  }

  function Admission(available: i64, ramp: i64, rng: Rng): (bool, Rng) {
    if available >= ramp then (true, rng)
    else if available <= 0 then (false, rng)
    else (rng.Word() % ramp < available, rng.Advanced())
  }

  // The sequential meaning of one request.

  datatype Bucket = Bucket(tokens: i64, last: u64, tick: u64, access: u64)

  function NewBucket(p: Params, now: u64, phase: u64): Bucket {
    Bucket(p.capacity, now, phase, now)
  }

  datatype Answer = Answer(bucket: Bucket, rng: Rng, permitted: bool, remaining: u64)

  function Refill(b: Bucket, p: Params, now: u64): Bucket {
    var added := RefillTokensI(SatSub(now, b.last), p.rate);
    if added == 0 then b
    else b.(tokens := if b.tokens >= p.capacity then b.tokens else Min(SatAddI(b.tokens, added), p.capacity),
            last := SatAdd(b.last, NanosForTokensI(added, p.rate)))
  }

  function Estimated(b: Bucket, p: Params, now: u64): i64 {
    Min(SatAddI(b.tokens, RefillTokensI(SatSub(now, b.last), p.rate)), p.capacity)
  }

  function Lump(p: Params, costScaled: i64): i64
    requires costScaled >= 0
  {
    MulMono(0, costScaled, p.sampleRate);
    Min(costScaled * p.sampleRate, I64_MAX)
  }

  function Ramp(p: Params, lump: i64): i64 {
    Max(Min(lump, p.capacity), 1)
  }

  /** What a sampled request pays: the expected consumption of its whole group. */
  function Debit(observed: i64, lump: i64, ramp: i64): (d: i64)
    requires 0 <= lump && 1 <= ramp
    ensures 0 <= d <= lump
    ensures observed <= 0 && observed < ramp ==> d == 0
  {
    if observed >= ramp then lump
    else if observed <= 0 then 0
    else
      DebitWithinLump(observed, lump, ramp);
      lump * observed / ramp
  }

  lemma DebitWithinLump(observed: int, lump: int, ramp: int)
    requires 0 <= lump && 0 < observed < ramp
    ensures 0 <= lump * observed / ramp <= lump
  {
    MulMono(0, observed, lump);
    MulMono(observed, ramp, lump);
    FloorAtLeast(0, lump * observed, ramp);
    FloorMono(lump * observed, lump * ramp, ramp);
    FloorExactly(lump, lump * ramp, ramp);
  }

  predicate Sampled(b: Bucket, p: Params)
    requires p.sampleRate >= 1
  {
    b.tick % p.sampleRate == 0
  }

  function Ticked(b: Bucket): Bucket {
    b.(tick := (b.tick + 1) % (U64_MAX + 1))
  }

  function ExactAnswer(b: Bucket, p: Params, now: u64, costScaled: i64, rng: Rng): Answer
    requires costScaled >= 0
  {
    var b1 := Refill(b, p, now);
    if b1.tokens >= costScaled
    then Answer(b1.(tokens := b1.tokens - costScaled), rng, true, RemainingOf(b1.tokens - costScaled))
    else Answer(b1, rng, false, RemainingOf(b1.tokens))
  }

  function SampledAnswer(b: Bucket, p: Params, now: u64, lump: i64, rng: Rng): Answer
    requires lump >= 0
  {
    var ramp := Ramp(p, lump);
    var (fraction, rng1) := RandomPart(RefillTokensI(SatSub(now, b.last), p.rate), rng);
    var observed := Min(SatAddI(b.tokens, fraction), p.capacity);
    var b1 := Refill(b, p, now);
    var left := SatSubI(b1.tokens, Debit(observed, lump, ramp));
    var (permitted, rng2) := Admission(observed, ramp, rng1);
    Answer(b1.(tokens := left), rng2, permitted, RemainingOf(left))
  }

  /** The unsampled path: a level that covers the ramp decides without the clock. */
  function UnsampledAnswer(b: Bucket, p: Params, now: u64, lump: i64, rng: Rng): Answer {
    var ramp := Ramp(p, lump);
    if b.tokens >= ramp then Answer(b, rng, true, RemainingOf(b.tokens))
    else EstimateAnswer(b, p, now, ramp, rng)
  }

  function EstimateAnswer(b: Bucket, p: Params, now: u64, ramp: i64, rng: Rng): Answer {
    var available := Estimated(b, p, now);
    var (permitted, rng1) := Admission(available, ramp, rng);
    Answer(b, rng1, permitted, RemainingOf(available))
  }

  function Consume(b: Bucket, p: Params, now: u64, cost: u64, rng: Rng): Answer
    requires p.sampleRate >= 1
  {
    if p.sampleRate <= 1 then ExactAnswer(b, p, now, ScaledI(cost), rng)
    else
      var lump := Lump(p, ScaledI(cost));
      if Sampled(b, p) then SampledAnswer(Ticked(b), p, now, lump, rng)
      else UnsampledAnswer(Ticked(b), p, now, lump, rng)
  }

  /** The same request with the clock read unconditionally up front. */
  function ConsumeEagerly(b: Bucket, p: Params, now: u64, cost: u64, rng: Rng): Answer
    requires p.sampleRate >= 1
  {
    if p.sampleRate <= 1 then ExactAnswer(b, p, now, ScaledI(cost), rng)
    else
      var lump := Lump(p, ScaledI(cost));
      if Sampled(b, p) then SampledAnswer(Ticked(b), p, now, lump, rng)
      else EstimateAnswer(Ticked(b), p, now, Ramp(p, lump), rng)
  }

  // The objects.

  class RandomSource {
    const stream: nat -> u64
    var at: nat

    function Value(): Rng
      reads this
    {
      Rng(stream, at)
    }

    constructor (stream: nat -> u64)
      ensures Value() == Rng(stream, 0)
    {
      this.stream := stream;
      at := 0;
    }

    method FastRandom() returns (word: u64)
      modifies this
      ensures word == old(Value()).Word() && Value() == old(Value()).Advanced()
    {
      word := stream(at);
      at := at + 1;
    }

    method RandomFractionOf(accrued: i64) returns (part: i64)
      modifies this
      ensures (part, Value()) == RandomPart(accrued, old(Value()))
    {
      if accrued <= 0 {
        return 0;
      }
      var word := FastRandom();
      part := FractionOf(accrued, word);
    }

    method Admit(available: i64, ramp: i64) returns (permitted: bool)
      modifies this
      ensures (permitted, Value()) == Admission(available, ramp, old(Value()))
    {
      if available >= ramp {
        return true;
      }
      if available <= 0 {
        return false;
      }
      var word := FastRandom();
      permitted := word % ramp < available;
    }
  }

  /** A timestamp read at most once per request. `instant` is what the clock shows
      when it is first asked, and `readings` counts how often it was. */
  class LazyNow {
    const instant: u64
    var cached: Option<u64>
    var readings: nat

    predicate Valid()
      reads this
    {
      cached == (if readings == 0 then None else Some(instant)) && readings <= 1
    }

    constructor (instant: u64)
      ensures Valid() && this.instant == instant && readings == 0
    {
      this.instant := instant;
      cached := None;
      readings := 0;
    }

    method Get() returns (now: u64)
      requires Valid()
      modifies this
      ensures Valid() && readings == 1 && now == instant
    {
      match cached
      case Some(value) => now := value;
      case None =>
        now := instant;
        cached := Some(now);
        readings := readings + 1;
    }
  }

  class AtomicProbabilisticState {
    var tokens: i64
    var lastRefillNanos: u64
    var requestTick: u64
    var lastAccessNanos: u64

    function Value(): Bucket
      reads this
    {
      Bucket(tokens, lastRefillNanos, requestTick, lastAccessNanos)
    }

    constructor (capacity: u64, nowNanos: u64, phase: u64)
      ensures Value() == Bucket(ScaledI(capacity), nowNanos, phase, nowNanos)
    {
      tokens := ScaledI(capacity);
      lastRefillNanos := nowNanos;
      requestTick := phase;
      lastAccessNanos := nowNanos;
    }

    method ShouldSample(sampleRate: u32) returns (sampled: bool)
      requires sampleRate >= 1
      modifies this`requestTick
      ensures sampled <==> old(requestTick) % sampleRate == 0
      ensures Value() == Ticked(old(Value()))
    {
      var tick := requestTick;
      requestTick := (tick + 1) % (U64_MAX + 1);
      sampled := tick % sampleRate == 0;
    }

    method ApplyRefill(p: Params, nowNanos: u64, spurious: nat)
      modifies this`tokens, this`lastRefillNanos
      ensures Value() == Refill(old(Value()), p, nowNanos)
    {
      var failures := spurious;
      while true
        invariant Value() == old(Value())
        decreases failures
      {
        var last := lastRefillNanos;
        var added := RefillTokensI(SatSub(nowNanos, last), p.rate);
        if added == 0 {
          return;
        }
        var claimed := NanosForTokensI(added, p.rate);
        if failures > 0 {
          failures := failures - 1;
          continue;
        }
        lastRefillNanos := SatAdd(last, claimed);
        if tokens < p.capacity {
          tokens := Min(SatAddI(tokens, added), p.capacity);
        }
        return;
      }
    }

    method Estimate(p: Params, nowNanos: u64) returns (available: i64)
      ensures available == Estimated(Value(), p, nowNanos)
    {
      var current := tokens;
      var last := lastRefillNanos;
      var added := RefillTokensI(SatSub(nowNanos, last), p.rate);
      available := Min(SatAddI(current, added), p.capacity);
    }

    method ConsumeExact(p: Params, nowNanos: u64, costScaled: i64, spurious: nat, ghost rng: Rng)
      returns (permitted: bool, remaining: u64)
      requires costScaled >= 0
      modifies this`tokens, this`lastRefillNanos
      ensures ExactAnswer(old(Value()), p, nowNanos, costScaled, rng)
           == Answer(Value(), rng, permitted, remaining)
    {
      ApplyRefill(p, nowNanos, spurious);
      var current := tokens;
      if current >= costScaled {
        tokens := current - costScaled;
        return true, RemainingOf(current - costScaled);
      }
      return false, RemainingOf(current);
    }

    method TryConsumeProbabilistic(p: Params, now: LazyNow, cost: u64, trackAccess: bool, random: RandomSource,
            spurious: nat)
      returns (permitted: bool, remaining: u64)
      requires p.Valid() && now.Valid()
      modifies this, now, random
      ensures now.Valid()
      ensures var b := old(Value());
              var seen := if trackAccess then b.(access := now.instant) else b;
              var answer := Consume(seen, p, now.instant, cost, old(random.Value()));
              answer == Answer(Value(), random.Value(), permitted, remaining)
      ensures (!trackAccess && p.sampleRate > 1 && !Sampled(old(Value()), p)
               && old(tokens) >= Ramp(p, Lump(p, ScaledI(cost)))) ==> now.readings == old(now.readings)
    {
      if trackAccess {
        lastAccessNanos := now.Get();
      }
      var costScaled := ScaledI(cost);
      if p.sampleRate <= 1 {
        var instant := now.Get();
        permitted, remaining := ConsumeExact(p, instant, costScaled, spurious, random.Value());
        return;
      }
      var lump := Lump(p, costScaled);
      var ramp := Ramp(p, lump);
      var sampled := ShouldSample(p.sampleRate);
      if !sampled {
        var current := tokens;
        if current >= ramp {
          return true, RemainingOf(current);
        }
        var instant := now.Get();
        var available := Estimate(p, instant);
        permitted := random.Admit(available, ramp);
        return permitted, RemainingOf(available);
      }
      var nowNanos := now.Get();
      var current := tokens;
      var last := lastRefillNanos;
      var accrued := RefillTokensI(SatSub(nowNanos, last), p.rate);
      var fraction := random.RandomFractionOf(accrued);
      var observed := Min(SatAddI(current, fraction), p.capacity);
      ApplyRefill(p, nowNanos, spurious);
      var debit := Debit(observed, lump, ramp);
      var previous := tokens;
      if debit > 0 {
        tokens := SatSubI(previous, debit);
      }
      permitted := random.Admit(observed, ramp);
      remaining := RemainingOf(SatSubI(previous, debit));
    }
  }
}
