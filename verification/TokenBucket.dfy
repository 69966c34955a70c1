/** One key of the token bucket (src/algorithm/token_bucket.rs): the sequential
    meaning of a check, and the atomics that implement it. */
module TokenBucket {
  import opened Machine
  import opened Internal

  const MAX_BURST := U64_MAX / (2 * SCALE)
  const MAX_RATE_PER_SEC := U64_MAX / (2 * SCALE)

  datatype Config = Config(capacity: u64, rate: u64) {
    predicate Valid() {
      capacity <= MAX_BURST && rate <= MAX_RATE_PER_SEC
    }

    function Scale(): Scaled {
      Scaled(SatMul(capacity, SCALE), SatMul(rate, SCALE))
    }
  }

  /** Capacity and rate in scaled tokens, as the arithmetic uses them. */
  datatype Scaled = Scaled(capacity: u64, rate: u64) {
    predicate Valid() {
      capacity <= U64_MAX / 2 && rate <= U64_MAX / 2
    }
  }

  lemma ScaleIsValid(cfg: Config)
    requires cfg.Valid()
    ensures cfg.Scale().Valid()
    ensures cfg.Scale().capacity == cfg.capacity * SCALE && cfg.Scale().rate == cfg.rate * SCALE
  {
  }

  /** `TokenBucket::new` clamps; after that the scaled values never saturate. */
  function NewConfig(capacity: u64, rate: u64): (cfg: Config)
    ensures cfg.Valid()
    ensures cfg.Scale() == Scaled(cfg.capacity * SCALE, cfg.rate * SCALE) && cfg.Scale().Valid()
    ensures capacity <= MAX_BURST && rate <= MAX_RATE_PER_SEC ==> cfg == Config(capacity, rate)
  {
    Config(Min(capacity, MAX_BURST), Min(rate, MAX_RATE_PER_SEC))
  }

  /** The largest capacity and rate, in whole tokens, and what becomes of larger ones. */
  lemma LargestConfig(capacity: u64, rate: u64)
    ensures NewConfig(9_223_372_036_854_775, 9_223_372_036_854_775)
         == Config(9_223_372_036_854_775, 9_223_372_036_854_775)
    ensures capacity > 9_223_372_036_854_775 && rate > 9_223_372_036_854_775 ==>
              NewConfig(capacity, rate) == Config(9_223_372_036_854_775, 9_223_372_036_854_775)
  {
  }

  /** The three atomics of one key, as values. */
  datatype Bucket = Bucket(tokens: u64, last: u64, access: u64)

  function NewBucket(capacity: u64, now: u64): Bucket {
    Bucket(SatMul(capacity, SCALE), now, now)
  }

  /** What the credit writes over the tokens it finds. */
  function Credited(tokens: u64, added: u64, capacityScaled: u64): u64 {
    if tokens >= capacityScaled then tokens
    else Min(SatAdd(tokens, added), capacityScaled)
  }

  function Refill(b: Bucket, p: Scaled, now: u64): Bucket {
    var added := RefillTokens(SatSub(now, b.last), p.rate);
    if added == 0 then b
    else b.(tokens := Credited(b.tokens, added, p.capacity),
            last := SatAdd(b.last, NanosForTokens(added, p.rate)))
  }

  datatype Consumed = Consumed(bucket: Bucket, permitted: bool, remaining: u64)

  function Spend(b: Bucket, costScaled: u64): Consumed {
    if b.tokens < costScaled then Consumed(b, false, b.tokens / SCALE)
    else Consumed(b.(tokens := b.tokens - costScaled), true, (b.tokens - costScaled) / SCALE)
  }

  function Consume(b: Bucket, p: Scaled, now: u64, cost: u64): Consumed {
    Spend(Refill(b.(access := now), p, now), SatMul(cost, SCALE))
  }

  /** The shared object behind one key. `spurious` is how many of the call's weak
      compare-and-swaps fail although the value they expect is there. */
  class AtomicTokenState {
    var tokens: u64
    var lastRefillNanos: u64
    var lastAccessNanos: u64

    function Value(): Bucket
      reads this
    {
      Bucket(tokens, lastRefillNanos, lastAccessNanos)
    }

    constructor (capacity: u64, nowNanos: u64)
      ensures Value() == NewBucket(capacity, nowNanos)
    {
      tokens := SatMul(capacity, SCALE);
      lastRefillNanos := nowNanos;
      lastAccessNanos := nowNanos;
    }

    method ApplyRefill(capacityScaled: u64, rateScaled: u64, nowNanos: u64, spurious: nat)
      modifies this
      ensures Value() == Refill(old(Value()), Scaled(capacityScaled, rateScaled), nowNanos)
    {
      var failures := spurious;
      while true
        invariant Value() == old(Value())
        decreases failures
      {
        var last := lastRefillNanos;
        var added := RefillTokens(SatSub(nowNanos, last), rateScaled);
        if added == 0 {
          return;
        }
        var claimed := NanosForTokens(added, rateScaled);
        if failures > 0 {
          failures := failures - 1;
          continue;
        }
        lastRefillNanos := SatAdd(last, claimed);
        if tokens < capacityScaled {
          tokens := Min(SatAdd(tokens, added), capacityScaled);
        }
        return;
      }
    }

    method TryConsume(cfg: Config, nowNanos: u64, cost: u64, spurious: nat)
      returns (permitted: bool, remaining: u64)
      modifies this
      ensures Consume(old(Value()), cfg.Scale(), nowNanos, cost)
           == Consumed(Value(), permitted, remaining)
    {
      lastAccessNanos := nowNanos;
      var tokenCost := SatMul(cost, SCALE);
      ApplyRefill(cfg.Scale().capacity, cfg.Scale().rate, nowNanos, spurious);
      var failures := spurious;
      while true
        invariant Value() == Refill(old(Value()).(access := nowNanos), cfg.Scale(), nowNanos)
        decreases failures
      {
        var current := tokens;
        if current < tokenCost {
          return false, current / SCALE;
        }
        if failures > 0 {
          failures := failures - 1;
          continue;
        }
        tokens := current - tokenCost;
        return true, (current - tokenCost) / SCALE;
      }
    }
  }
}
