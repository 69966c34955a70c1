/** One key of the leaky bucket (src/algorithm/leaky_bucket.rs), and why it decides
    exactly as a token bucket of the same capacity and rate. */
module LeakyBucket {
  import opened Machine
  import opened Internal
  import opened TokenBucket
  import opened TokenRuns

  /** The three atomics of one key; `level` counts what has not leaked yet. */
  datatype Leaky = Leaky(level: u64, last: u64, access: u64)

  function NewLeaky(now: u64): Leaky {
    Leaky(0, now, now)
  }

  function Leak(b: Leaky, rateScaled: u64, now: u64): Leaky {
    var leaked := RefillTokens(SatSub(now, b.last), rateScaled);
    if leaked == 0 then b
    else b.(level := SatSub(b.level, leaked), last := SatAdd(b.last, NanosForTokens(leaked, rateScaled)))
  }

  datatype Added = Added(bucket: Leaky, permitted: bool, remaining: u64)

  function Add(b: Leaky, p: Scaled, now: u64, cost: u64): Added {
    var b1 := Leak(b.(access := now), p.rate, now);
    var filled := SatAdd(b1.level, SatMul(cost, SCALE));
    if filled > p.capacity then Added(b1, false, SatSub(p.capacity, b1.level) / SCALE)
    else Added(b1.(level := filled), true, SatSub(p.capacity, filled) / SCALE)
  }

  class AtomicLeakyState {
    var tokens: u64
    var lastLeakNanos: u64
    var lastAccessNanos: u64

    function Value(): Leaky
      reads this
    {
      Leaky(tokens, lastLeakNanos, lastAccessNanos)
    }

    constructor (nowNanos: u64)
      ensures Value() == NewLeaky(nowNanos)
    {
      tokens := 0;
      lastLeakNanos := nowNanos;
      lastAccessNanos := nowNanos;
    }

    method ApplyLeak(rateScaled: u64, nowNanos: u64, spurious: nat)
      modifies this
      ensures Value() == Leak(old(Value()), rateScaled, nowNanos)
    {
      var failures := spurious;
      while true
        invariant Value() == old(Value())
        decreases failures
      {
        var last := lastLeakNanos;
        var leaked := RefillTokens(SatSub(nowNanos, last), rateScaled);
        if leaked == 0 {
          return;
        }
        var claimed := NanosForTokens(leaked, rateScaled);
        if failures > 0 {
          failures := failures - 1;
          continue;
        }
        lastLeakNanos := SatAdd(last, claimed);
        tokens := SatSub(tokens, leaked);
        return;
      }
    }

    method TryAdd(cfg: Config, nowNanos: u64, cost: u64, spurious: nat)
      returns (permitted: bool, remaining: u64)
      modifies this
      ensures Add(old(Value()), cfg.Scale(), nowNanos, cost) == Added(Value(), permitted, remaining)
    {
      lastAccessNanos := nowNanos;
      var scaledCapacity, tokenCost := cfg.Scale().capacity, SatMul(cost, SCALE);
      ApplyLeak(cfg.Scale().rate, nowNanos, spurious);
      var failures := spurious;
      while true
        invariant Value() == Leak(old(Value()).(access := nowNanos), cfg.Scale().rate, nowNanos)
        decreases failures
      {
        var current := tokens;
        var newTokens := SatAdd(current, tokenCost);
        if newTokens > scaledCapacity {
          return false, SatSub(scaledCapacity, current) / SCALE;
        }
        if failures > 0 {
          failures := failures - 1;
          continue;
        }
        tokens := newTokens;
        return true, SatSub(scaledCapacity, newTokens) / SCALE;
      }
    }
  }

  function LeakyDecision(cfg: Config, permitted: bool, remaining: u64, cost: u64): Decision {
    var level := SatSub(cfg.capacity, remaining);
    Decision(
      permitted,
      if permitted then None else Some(WaitForTokens(cost, cfg.rate)),
      Some(remaining),
      cfg.capacity,
      if cfg.rate > 0 && level > 0 then Some(WaitForTokens(level, cfg.rate)) else Some(0))
  }

  // The mirror image.

  /** The token bucket with what the leaky bucket has room for. */
  function Mirror(p: Scaled, b: Leaky): Bucket
    requires b.level <= p.capacity
  {
    Bucket(p.capacity - b.level, b.last, b.access)
  }

  lemma AddMirrorsConsume(p: Scaled, b: Leaky, now: u64, cost: u64)
    requires p.Valid() && b.level <= p.capacity
    ensures var a := Add(b, p, now, cost);
            && a.bucket.level <= p.capacity
            && Consume(Mirror(p, b), p, now, cost) == Consumed(Mirror(p, a.bucket), a.permitted, a.remaining)
  {
    var b1 := b.(access := now);
    assert Refill(Mirror(p, b1), p, now) == Mirror(p, Leak(b1, p.rate, now));
  }

  function LeakyDecisions(cfg: Config, b: Leaky, h: seq<Call>): (ds: seq<Decision>)
    ensures |ds| == |h|
    decreases h
  {
    if h == [] then []
    else
      var a := Add(b, cfg.Scale(), h[0].now, h[0].cost);
      [LeakyDecision(cfg, a.permitted, a.remaining, h[0].cost)] + LeakyDecisions(cfg, a.bucket, h[1..])
  }

  function TokenDecisions(cfg: Config, b: Bucket, h: seq<Call>): (ds: seq<Decision>)
    ensures |ds| == |h|
    decreases h
  {
    if h == [] then []
    else
      var c := Consume(b, cfg.Scale(), h[0].now, h[0].cost);
      [TokenDecision(c.permitted, c.remaining, cfg.capacity, cfg.rate, h[0].cost)]
      + TokenDecisions(cfg, c.bucket, h[1..])
  }

  /** What a caller can tell apart: nothing but `reset` at rate zero, and a longer
      `retry_after` on the leaky side. */
  predicate SameAnswer(rate: u64, leaky: Decision, token: Decision) {
    && leaky.permitted == token.permitted
    && leaky.remaining == token.remaining
    && leaky.limit == token.limit
    && (rate > 0 ==> leaky.reset == token.reset)
    && (rate == 0 ==> leaky.reset == Some(0) && token.reset == None)
    && leaky.retryAfter.Some? == token.retryAfter.Some?
    && (leaky.retryAfter.Some? ==> token.retryAfter.value <= leaky.retryAfter.value)
  }

  lemma AnswerMirrors(cfg: Config, b: Leaky, call: Call)
    requires cfg.Valid() && b.level <= cfg.Scale().capacity
    ensures var a := Add(b, cfg.Scale(), call.now, call.cost);
            var c := Consume(Mirror(cfg.Scale(), b), cfg.Scale(), call.now, call.cost);
            SameAnswer(cfg.rate,
                       LeakyDecision(cfg, a.permitted, a.remaining, call.cost),
                       TokenDecision(c.permitted, c.remaining, cfg.capacity, cfg.rate, call.cost))
  {
    AddMirrorsConsume(cfg.Scale(), b, call.now, call.cost);
    var a := Add(b, cfg.Scale(), call.now, call.cost);
    WaitGrows(SatSub(call.cost, a.remaining), call.cost, cfg.rate);
  }

  predicate SameAnswers(rate: u64, leaky: seq<Decision>, token: seq<Decision>) {
    |leaky| == |token| && forall i :: 0 <= i < |leaky| ==> SameAnswer(rate, leaky[i], token[i])
  }

  lemma SameAnswersPrepend(rate: u64, l: Decision, leaky: seq<Decision>, t: Decision, token: seq<Decision>)
    requires SameAnswer(rate, l, t) && SameAnswers(rate, leaky, token)
    ensures SameAnswers(rate, [l] + leaky, [t] + token)
  {
  }

  /** Every history of calls gets the same answers from both buckets. */
  lemma {:induction false} LeakyAnswersLikeToken(cfg: Config, b: Leaky, h: seq<Call>)
    requires cfg.Valid() && b.level <= cfg.Scale().capacity
    ensures SameAnswers(cfg.rate, LeakyDecisions(cfg, b, h), TokenDecisions(cfg, Mirror(cfg.Scale(), b), h))
    decreases h
  {
    if h != [] {
      var p := cfg.Scale();
      ScaleIsValid(cfg);
      AddMirrorsConsume(p, b, h[0].now, h[0].cost);
      AnswerMirrors(cfg, b, h[0]);
      var a, c := Add(b, p, h[0].now, h[0].cost), Consume(Mirror(p, b), p, h[0].now, h[0].cost);
      LeakyAnswersLikeToken(cfg, a.bucket, h[1..]);
      SameAnswersPrepend(
        cfg.rate,
        LeakyDecision(cfg, a.permitted, a.remaining, h[0].cost), LeakyDecisions(cfg, a.bucket, h[1..]),
        TokenDecision(c.permitted, c.remaining, cfg.capacity, cfg.rate, h[0].cost),
        TokenDecisions(cfg, c.bucket, h[1..]));
    }
  }

  /** "No bursts" is not what the code does: a key's first check is permitted for any
      cost up to the whole capacity, and for no other. */
  lemma FirstBurstIsCapacity(cfg: Config, now: u64, cost: u64)
    requires cfg.Valid()
    ensures Add(NewLeaky(now), cfg.Scale(), now, cost).permitted <==> cost <= cfg.capacity
  {
    assert Leak(NewLeaky(now), cfg.Scale().rate, now) == NewLeaky(now);
  }

  lemma NewLeakyMirrorsNewBucket(cfg: Config, now: u64)
    ensures Mirror(cfg.Scale(), NewLeaky(now)) == NewBucket(cfg.capacity, now)
  {
  }
}
