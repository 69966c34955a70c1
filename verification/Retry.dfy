/** What `retry_after`, `Retry-After` and `reset` are worth to a caller who waits
    (src/algorithm/internal.rs:74-131, src/middleware.rs:417-421). */
module Retry {
  import opened Machine
  import opened Arithmetic
  import opened Float64
  import opened Internal
  import opened TokenBucket
  import TR = TokenRuns
  import LB = LeakyBucket

  lemma RemainingIsFloor(cfg: Config, b: Bucket, now: u64, cost: u64)
    requires cfg.Valid() && TR.WellFormed(cfg.Scale(), b, now)
    ensures var c := Consume(b, cfg.Scale(), now, cost);
            && TR.WellFormed(cfg.Scale(), c.bucket, now)
            && c.remaining * SCALE <= c.bucket.tokens < (c.remaining + 1) * SCALE
            && c.remaining <= cfg.capacity
            && (!c.permitted ==> c.remaining < cost)
  {
    TR.RefillStep(cfg.Scale(), b.(access := now), now);
  }

  /** What has accrued once the rate over the time since `now` is worth `needed` tokens. */
  lemma WaitRefills(cfg: Config, b: Bucket, now: u64, later: u64, needed: u64)
    requires cfg.Valid() && TR.WellFormed(cfg.Scale(), b, now) && needed <= cfg.capacity
    requires later >= now && (later - now) * cfg.rate >= needed * NANOS_PER_SEC
    ensures var p := cfg.Scale();
            Refill(b.(access := later), p, later).tokens >= Min(b.tokens + needed * SCALE, p.capacity)
  {
    TR.RefillStep(cfg.Scale(), b.(access := later), later);
    MulMono(later - now, later - b.last, cfg.rate);
    AccruedIff(needed, cfg.rate, later - b.last);
  }

  /** Without refill, or beyond the capacity, no wait helps. */
  lemma NeverServed(cfg: Config, b: Bucket, now: u64, later: u64, cost: u64)
    requires cfg.Valid() && TR.WellFormed(cfg.Scale(), b, now) && now <= later
    requires cost > cfg.capacity || (cfg.rate == 0 && b.tokens < cost * SCALE)
    ensures !Consume(b, cfg.Scale(), later, cost).permitted
  {
    TR.RefillStep(cfg.Scale(), b.(access := later), later);
  }

  // What a denied caller has to wait for.

  predicate DeniedLeaving(cfg: Config, b: Bucket, now: u64, cost: u64, remaining: u64) {
    var c := Consume(b, cfg.Scale(), now, cost);
    TR.WellFormed(cfg.Scale(), b, now) && !c.permitted && c.remaining == remaining
  }

  /** The same call again at `later`, with no other in between. */
  predicate ServedAgain(cfg: Config, b: Bucket, now: u64, cost: u64, later: u64) {
    Consume(Consume(b, cfg.Scale(), now, cost).bucket, cfg.Scale(), later, cost).permitted
  }

  /** Whoever was denied with this remaining and comes back after `wait` is served. */
  ghost predicate WaitSuffices(cfg: Config, cost: u64, remaining: u64, wait: Duration) {
    forall b: Bucket, now: u64, later: u64 ::
      DeniedLeaving(cfg, b, now, cost, remaining) && later >= now + wait ==> ServedAgain(cfg, b, now, cost, later)
  }

  lemma ServedAfter(cfg: Config, b: Bucket, now: u64, cost: u64, remaining: u64, later: u64)
    requires cfg.Valid() && DeniedLeaving(cfg, b, now, cost, remaining) && cost <= cfg.capacity && later >= now
    requires (later - now) * cfg.rate >= (cost - remaining) * NANOS_PER_SEC
    ensures ServedAgain(cfg, b, now, cost, later)
  {
    RemainingIsFloor(cfg, b, now, cost);
    WaitRefills(cfg, Consume(b, cfg.Scale(), now, cost).bucket, now, later, cost - remaining);
  }

  /** A bucket with no part of a token beyond `remaining` and nothing unclaimed. */
  function Barely(remaining: u64): Bucket
    requires remaining * SCALE <= U64_MAX
  {
    Bucket(remaining * SCALE, 0, 0)
  }

  lemma BarelyDenied(cfg: Config, cost: u64, remaining: u64)
    requires cfg.Valid() && remaining < cost && remaining <= cfg.capacity
    ensures DeniedLeaving(cfg, Barely(remaining), 0, cost, remaining)
    ensures Consume(Barely(remaining), cfg.Scale(), 0, cost).bucket == Barely(remaining)
  {
  }

  lemma BarelyRefilled(cfg: Config, remaining: u64, needed: u64, wait: u64)
    requires cfg.Valid() && remaining + needed <= cfg.capacity && wait * cfg.rate < needed * NANOS_PER_SEC
    ensures Refill(Barely(remaining).(access := wait), cfg.Scale(), wait).tokens < (remaining + needed) * SCALE
  {
    AccruedIff(needed, cfg.rate, wait);
    TR.RefillStep(cfg.Scale(), Barely(remaining).(access := wait), wait);
  }

  /** Any wait, however it was computed: it suffices for every bucket that could have
      given this answer exactly when the bucket can hold the cost and the rate over the
      wait is worth the missing tokens. */
  lemma WaitSufficesIff(cfg: Config, cost: u64, remaining: u64, wait: Duration)
    requires cfg.Valid() && remaining < cost && remaining <= cfg.capacity && wait <= U64_MAX
    ensures WaitSuffices(cfg, cost, remaining, wait)
       <==> cost <= cfg.capacity && wait * cfg.rate >= (cost - remaining) * NANOS_PER_SEC
  {
    if cost > cfg.capacity {
      BarelyDenied(cfg, cost, remaining);
      NeverServed(cfg, Barely(remaining), 0, wait, cost);
      assert !ServedAgain(cfg, Barely(remaining), 0, cost, wait);
    } else if wait * cfg.rate < (cost - remaining) * NANOS_PER_SEC {
      BarelyDenied(cfg, cost, remaining);
      BarelyRefilled(cfg, remaining, cost - remaining, wait);
      assert !ServedAgain(cfg, Barely(remaining), 0, cost, wait);
    } else {
      forall b: Bucket, now: u64, later: u64 | DeniedLeaving(cfg, b, now, cost, remaining) && later >= now + wait
        ensures ServedAgain(cfg, b, now, cost, later)
      {
        MulMono(wait, later - now, cfg.rate);
        ServedAfter(cfg, b, now, cost, remaining, later);
      }
    }
  }

  /** Thirteen days, below which a wait is within a nanosecond of the exact one. */
  predicate Moderate(missing: u64, rate: u64) {
    8 * (missing * NANOS_PER_SEC) <= rate * TWO_53
  }

  /** One nanosecond more than a wait is worth the tokens. */
  lemma OneNanosecondMore(missing: u64, rate: u64, wait: Duration)
    requires Moderate(missing, rate) && (rate == 0 ==> missing > 0) && wait == WaitForTokens(missing, rate)
    ensures (wait + 1) * rate >= missing * NANOS_PER_SEC
  {
    WaitIsClose(missing, rate);
  }

  /** The wait is the time for that many tokens within a nanosecond, or the millisecond floor. */
  predicate WaitsFor(wait: Option<Duration>, missing: u64, rate: u64) {
    && wait.Some? && wait.value >= NANOS_PER_MILLI
    && (wait.value + 1) * rate >= missing * NANOS_PER_SEC
    && (wait.value > NANOS_PER_MILLI ==> (wait.value - 1) * rate <= missing * NANOS_PER_SEC)
  }

  /** Two nanoseconds less are not, above the millisecond floor. */
  lemma TwoNanosecondsLess(missing: u64, rate: u64, wait: Duration)
    requires rate > 0 && Moderate(missing, rate) && wait == WaitForTokens(missing, rate) > NANOS_PER_MILLI
    ensures (wait - 2) * rate < missing * NANOS_PER_SEC
  {
    WaitIsClose(missing, rate);
    assert (wait - 2) * rate == (wait - 1) * rate - rate;
  }

  lemma RetryAfterIsTheWait(cfg: Config, cost: u64, remaining: u64)
    requires cfg.Valid() && remaining < cost && remaining <= cfg.capacity
    ensures var d := TokenDecision(false, remaining, cfg.capacity, cfg.rate, cost);
            && d.retryAfter == Some(WaitForTokens(cost - remaining, cfg.rate))
            && (if cfg.rate == 0 then d.retryAfter == Some(NANOS_PER_SEC) && d.reset == None
                else Moderate(cost - remaining, cfg.rate) ==> WaitsFor(d.retryAfter, cost - remaining, cfg.rate))
  {
    if cfg.rate > 0 {
      WaitIsClose(cost - remaining, cfg.rate);
    }
  }

  lemma WithinTwoNanoseconds(cfg: Config, cost: u64, remaining: u64, wait: Duration)
    requires cfg.Valid() && remaining < cost <= cfg.capacity && Moderate(cost - remaining, cfg.rate)
    requires wait == WaitForTokens(cost - remaining, cfg.rate) < U64_MAX
    ensures WaitSuffices(cfg, cost, remaining, wait + 1)
    ensures wait > NANOS_PER_MILLI ==> !WaitSuffices(cfg, cost, remaining, wait - 2)
  {
    NanosecondMoreSuffices(cfg, cost, remaining, wait);
    if wait > NANOS_PER_MILLI {
      TwoNanosecondsLess(cost - remaining, cfg.rate, wait);
      WaitSufficesIff(cfg, cost, remaining, wait - 2);
    }
  }

  lemma NanosecondMoreSuffices(cfg: Config, cost: u64, remaining: u64, wait: Duration)
    requires cfg.Valid() && remaining < cost <= cfg.capacity && Moderate(cost - remaining, cfg.rate)
    requires wait == WaitForTokens(cost - remaining, cfg.rate) < U64_MAX
    ensures WaitSuffices(cfg, cost, remaining, wait + 1)
  {
    OneNanosecondMore(cost - remaining, cfg.rate, wait);
    WaitSufficesIff(cfg, cost, remaining, wait + 1);
  }

  /** `retry_after` is such a wait: rounded to the nearest `f64` and then nanosecond, it can
      fall short. Up to thirteen days one nanosecond more never does, and above the
      millisecond floor two nanoseconds less always do. */
  lemma RetryAfterSufficesIff(cfg: Config, cost: u64, remaining: u64)
    requires cfg.Valid() && remaining < cost && remaining <= cfg.capacity
    ensures var d := TokenDecision(false, remaining, cfg.capacity, cfg.rate, cost);
            && d.retryAfter.Some?
            && (d.retryAfter.value < U64_MAX ==>
                  var wait := d.retryAfter.value;
                  && (WaitSuffices(cfg, cost, remaining, wait)
                      <==> cost <= cfg.capacity && wait * cfg.rate >= (cost - remaining) * NANOS_PER_SEC)
                  && (cost <= cfg.capacity && Moderate(cost - remaining, cfg.rate) ==>
                        && WaitSuffices(cfg, cost, remaining, wait + 1)
                        && (wait > NANOS_PER_MILLI ==> !WaitSuffices(cfg, cost, remaining, wait - 2))))
    ensures var d := TokenDecision(false, remaining, cfg.capacity, cfg.rate, cost);
            if cfg.rate == 0 then d.retryAfter == Some(NANOS_PER_SEC) && d.reset == None
            else Moderate(cost - remaining, cfg.rate) ==> WaitsFor(d.retryAfter, cost - remaining, cfg.rate)
  {
    var wait := WaitForTokens(cost - remaining, cfg.rate);
    RetryAfterIsTheWait(cfg, cost, remaining);
    if wait < U64_MAX {
      WaitSufficesIff(cfg, cost, remaining, wait);
      if cost <= cfg.capacity && Moderate(cost - remaining, cfg.rate) {
        WithinTwoNanoseconds(cfg, cost, remaining, wait);
      }
    }
  }

  lemma WholeSeconds(seconds: nat, rate: nat, needed: nat)
    ensures seconds * NANOS_PER_SEC * rate >= needed * NANOS_PER_SEC <==> seconds * rate >= needed
  {
    assert seconds * NANOS_PER_SEC * rate == seconds * rate * NANOS_PER_SEC;
  }

  /** Whole seconds suffice exactly when they are worth the tokens. */
  lemma SecondsSufficeIff(cfg: Config, cost: u64, remaining: u64, seconds: nat)
    requires cfg.Valid() && remaining < cost && remaining <= cfg.capacity && seconds * NANOS_PER_SEC <= U64_MAX
    ensures WaitSuffices(cfg, cost, remaining, seconds * NANOS_PER_SEC)
       <==> cost <= cfg.capacity && seconds * cfg.rate >= cost - remaining
  {
    WaitSufficesIff(cfg, cost, remaining, seconds * NANOS_PER_SEC);
    WholeSeconds(seconds, cfg.rate, cost - remaining);
  }

  /** The seconds of a `Retry-After` header (section 10.2.3 of RFC 9110) are such seconds,
      and suffice whenever a `retry_after` of less than 97 days does. */
  lemma RetryAfterHeaderSufficesIff(cfg: Config, cost: u64, remaining: u64)
    requires cfg.Valid() && remaining < cost && remaining <= cfg.capacity
    ensures var d := TokenDecision(false, remaining, cfg.capacity, cfg.rate, cost);
            && d.retryAfter.Some?
            && var seconds := HttpSecondsCeil(d.retryAfter.value);
               seconds * NANOS_PER_SEC <= U64_MAX ==>
                 && (WaitSuffices(cfg, cost, remaining, seconds * NANOS_PER_SEC)
                     <==> cost <= cfg.capacity && seconds * cfg.rate >= cost - remaining)
                 && (WaitSuffices(cfg, cost, remaining, d.retryAfter.value) && d.retryAfter.value < LONG_WAIT ==>
                       WaitSuffices(cfg, cost, remaining, seconds * NANOS_PER_SEC))
  {
    var wait := WaitForTokens(cost - remaining, cfg.rate);
    assert TokenDecision(false, remaining, cfg.capacity, cfg.rate, cost).retryAfter == Some(wait);
    var seconds := HttpSecondsCeil(wait);
    if seconds * NANOS_PER_SEC <= U64_MAX {
      SecondsSufficeIff(cfg, cost, remaining, seconds);
      if WaitSuffices(cfg, cost, remaining, wait) && wait < LONG_WAIT {
        HttpSecondsCoverWait(wait);
        LongerSuffices(cfg, cost, remaining, wait, seconds * NANOS_PER_SEC);
      }
    }
  }

  lemma LongerSuffices(cfg: Config, cost: u64, remaining: u64, wait: Duration, longer: Duration)
    requires wait <= longer && WaitSuffices(cfg, cost, remaining, wait)
    ensures WaitSuffices(cfg, cost, remaining, longer)
  {
  }

  // When the bucket is full.

  /** Whatever call left this remaining, the bucket is full from `wait` on. */
  ghost predicate FillsAfter(cfg: Config, remaining: u64, wait: Duration) {
    forall b: Bucket, now: u64, cost: u64, later: u64 ::
      LeavesToFill(cfg, b, now, cost, remaining) && later >= now + wait ==>
        FullAt(cfg, Consume(b, cfg.Scale(), now, cost).bucket, later)
  }

  predicate LeavesToFill(cfg: Config, b: Bucket, now: u64, cost: u64, remaining: u64) {
    TR.WellFormed(cfg.Scale(), b, now) && Consume(b, cfg.Scale(), now, cost).remaining == remaining
  }

  predicate FullAt(cfg: Config, b: Bucket, later: u64) {
    Refill(b.(access := later), cfg.Scale(), later).tokens == cfg.Scale().capacity
  }

  lemma FullAfter(cfg: Config, b: Bucket, now: u64, cost: u64, remaining: u64, later: u64)
    requires cfg.Valid() && LeavesToFill(cfg, b, now, cost, remaining) && later >= now && remaining <= cfg.capacity
    requires (later - now) * cfg.rate >= (cfg.capacity - remaining) * NANOS_PER_SEC
    ensures FullAt(cfg, Consume(b, cfg.Scale(), now, cost).bucket, later)
  {
    var left := Consume(b, cfg.Scale(), now, cost).bucket;
    RemainingIsFloor(cfg, b, now, cost);
    WaitRefills(cfg, left, now, later, cfg.capacity - remaining);
    TR.RefillStep(cfg.Scale(), left.(access := later), later);
  }

  lemma FillsAfterIff(cfg: Config, remaining: u64, wait: Duration)
    requires cfg.Valid() && remaining <= cfg.capacity && wait <= U64_MAX
    ensures FillsAfter(cfg, remaining, wait)
       <==> wait * cfg.rate >= (cfg.capacity - remaining) * NANOS_PER_SEC
  {
    var missing := cfg.capacity - remaining;
    if wait * cfg.rate < missing * NANOS_PER_SEC {
      var b, cost := Barely(remaining), remaining + 1;
      BarelyDenied(cfg, cost, remaining);
      BarelyRefilled(cfg, remaining, missing, wait);
      assert LeavesToFill(cfg, b, 0, cost, remaining) && !FullAt(cfg, Consume(b, cfg.Scale(), 0, cost).bucket, wait);
    } else {
      forall b: Bucket, now: u64, cost: u64, later: u64
        | LeavesToFill(cfg, b, now, cost, remaining) && later >= now + wait
        ensures FullAt(cfg, Consume(b, cfg.Scale(), now, cost).bucket, later)
      {
        MulMono(wait, later - now, cfg.rate);
        FullAfter(cfg, b, now, cost, remaining, later);
      }
    }
  }

  lemma NanosecondMoreFills(cfg: Config, remaining: u64, reset: Duration)
    requires cfg.Valid() && cfg.rate > 0 && remaining <= cfg.capacity && Moderate(cfg.capacity - remaining, cfg.rate)
    requires Some(reset) == TimeUntilFull(cfg.capacity - remaining, cfg.rate) && reset < U64_MAX
    ensures FillsAfter(cfg, remaining, reset + 1)
  {
    FillsAfterIff(cfg, remaining, reset + 1);
    if remaining < cfg.capacity {
      OneNanosecondMore(cfg.capacity - remaining, cfg.rate, reset);
    }
  }

  lemma NoSoonerFull(cfg: Config, remaining: u64, reset: Duration)
    requires cfg.Valid() && cfg.rate > 0 && remaining <= cfg.capacity && Moderate(cfg.capacity - remaining, cfg.rate)
    requires Some(reset) == TimeUntilFull(cfg.capacity - remaining, cfg.rate) && reset < U64_MAX
    ensures reset > NANOS_PER_MILLI ==> !FillsAfter(cfg, remaining, reset - 2)
  {
    if reset > NANOS_PER_MILLI {
      TwoNanosecondsLess(cfg.capacity - remaining, cfg.rate, reset);
      FillsAfterIff(cfg, remaining, reset - 2);
    }
  }

  /** `reset` is reported exactly when the bucket refills, and the bucket is full from then
      on exactly when the rate over it is worth the missing tokens: always when none are
      missing, one nanosecond later up to thirteen days, and there never two nanoseconds
      earlier above the millisecond floor. */
  lemma ResetFillsIff(cfg: Config, permitted: bool, remaining: u64, cost: u64)
    requires cfg.Valid() && remaining <= cfg.capacity
    ensures var d := TokenDecision(permitted, remaining, cfg.capacity, cfg.rate, cost);
            var missing := cfg.capacity - remaining;
            && (d.reset.Some? <==> cfg.rate > 0)
            && (d.reset.Some? && d.reset.value < U64_MAX ==>
                  && (FillsAfter(cfg, remaining, d.reset.value)
                      <==> d.reset.value * cfg.rate >= missing * NANOS_PER_SEC)
                  && (missing == 0 ==> d.reset.value == 0)
                  && (Moderate(missing, cfg.rate) ==>
                        && FillsAfter(cfg, remaining, d.reset.value + 1)
                        && (d.reset.value > NANOS_PER_MILLI ==> !FillsAfter(cfg, remaining, d.reset.value - 2))))
  {
    var missing := cfg.capacity - remaining;
    var reset := TimeUntilFull(missing, cfg.rate);
    assert TokenDecision(permitted, remaining, cfg.capacity, cfg.rate, cost).reset == reset;
    if cfg.rate > 0 && reset.value < U64_MAX {
      FillsAfterIff(cfg, remaining, reset.value);
      if Moderate(missing, cfg.rate) {
        NanosecondMoreFills(cfg, remaining, reset.value);
        NoSoonerFull(cfg, remaining, reset.value);
      }
    }
  }

  // The leaky bucket.

  ghost predicate LeakyWaitSuffices(cfg: Config, cost: u64, remaining: u64, wait: Duration) {
    forall b: LB.Leaky, now: u64, later: u64 ::
      LeakyDeniedLeaving(cfg, b, now, cost, remaining) && later >= now + wait
      ==> LeakyServedAgain(cfg, b, now, cost, later)
  }

  predicate LeakyDeniedLeaving(cfg: Config, b: LB.Leaky, now: u64, cost: u64, remaining: u64) {
    var a := LB.Add(b, cfg.Scale(), now, cost);
    b.level <= cfg.Scale().capacity && b.last <= now && !a.permitted && a.remaining == remaining
  }

  predicate LeakyServedAgain(cfg: Config, b: LB.Leaky, now: u64, cost: u64, later: u64) {
    LB.Add(LB.Add(b, cfg.Scale(), now, cost).bucket, cfg.Scale(), later, cost).permitted
  }

  lemma LeakyTwiceMirrors(cfg: Config, b: LB.Leaky, now: u64, cost: u64, remaining: u64, later: u64)
    requires cfg.Valid() && b.level <= cfg.Scale().capacity
    ensures var m := LB.Mirror(cfg.Scale(), b);
            && (LeakyDeniedLeaving(cfg, b, now, cost, remaining) <==> DeniedLeaving(cfg, m, now, cost, remaining))
            && (LeakyServedAgain(cfg, b, now, cost, later) <==> ServedAgain(cfg, m, now, cost, later))
  {
    var p := cfg.Scale();
    ScaleIsValid(cfg);
    LB.AddMirrorsConsume(p, b, now, cost);
    LB.AddMirrorsConsume(p, LB.Add(b, p, now, cost).bucket, later, cost);
  }

  lemma LeakyWaitsAlike(cfg: Config, cost: u64, remaining: u64, wait: Duration)
    requires cfg.Valid()
    ensures LeakyWaitSuffices(cfg, cost, remaining, wait) <==> WaitSuffices(cfg, cost, remaining, wait)
  {
    var p := cfg.Scale();
    if WaitSuffices(cfg, cost, remaining, wait) {
      forall b: LB.Leaky, now: u64, later: u64
        | LeakyDeniedLeaving(cfg, b, now, cost, remaining) && later >= now + wait
        ensures LeakyServedAgain(cfg, b, now, cost, later)
      {
        LeakyTwiceMirrors(cfg, b, now, cost, remaining, later);
      }
    }
    if LeakyWaitSuffices(cfg, cost, remaining, wait) {
      forall b: Bucket, now: u64, later: u64 | DeniedLeaving(cfg, b, now, cost, remaining) && later >= now + wait
        ensures ServedAgain(cfg, b, now, cost, later)
      {
        var leaky := LB.Leaky(p.capacity - b.tokens, b.last, b.access);
        assert LB.Mirror(p, leaky) == b;
        LeakyTwiceMirrors(cfg, leaky, now, cost, remaining, later);
      }
    }
  }

  /** The leaky bucket's `retry_after` is computed from the whole cost: it is no shorter,
      and suffices under the same condition. */
  lemma LeakyRetrySufficesIff(cfg: Config, cost: u64, remaining: u64)
    requires cfg.Valid() && remaining < cost && remaining <= cfg.capacity
    ensures var d := LB.LeakyDecision(cfg, false, remaining, cost);
            && d.retryAfter.Some? && d.retryAfter.value >= WaitForTokens(cost - remaining, cfg.rate)
            && (cfg.rate == 0 ==> d.retryAfter.value == NANOS_PER_SEC)
            && (d.retryAfter.value <= U64_MAX ==>
                  var wait := d.retryAfter.value;
                  LeakyWaitSuffices(cfg, cost, remaining, wait)
                  <==> cost <= cfg.capacity && wait * cfg.rate >= (cost - remaining) * NANOS_PER_SEC)
  {
    var wait := WaitForTokens(cost, cfg.rate);
    WaitGrows(cost - remaining, cost, cfg.rate);
    if wait <= U64_MAX {
      LeakyWaitsAlike(cfg, cost, remaining, wait);
      WaitSufficesIff(cfg, cost, remaining, wait);
    }
  }

  /** And it is the time in which the whole cost leaks: within a nanosecond up to thirteen
      days, above the millisecond floor. */
  lemma LeakyRetryIsCostLeak(cfg: Config, cost: u64, remaining: u64)
    requires cfg.Valid() && 0 < cfg.rate && Moderate(cost, cfg.rate)
    ensures WaitsFor(LB.LeakyDecision(cfg, false, remaining, cost).retryAfter, cost, cfg.rate)
  {
    var wait := WaitForTokens(cost, cfg.rate);
    assert LB.LeakyDecision(cfg, false, remaining, cost).retryAfter == Some(wait);
    WaitIsClose(cost, cfg.rate);
  }

  /** When a level of that many tokens has leaked away. */
  lemma LeaksAwayIff(cfg: Config, cost: u64, now: u64, e: nat)
    requires cfg.Valid() && cost <= cfg.capacity && now + e <= U64_MAX
    ensures LB.Leak(LB.Leaky(cost * SCALE, now, now), cfg.Scale().rate, now + e).level == 0
       <==> e * cfg.rate >= cost * NANOS_PER_SEC
  {
    ScaleIsValid(cfg);
    AccruedIff(cost, cfg.rate, e);
  }

  lemma FreshServes(cfg: Config, now: u64, cost: u64)
    requires cfg.Valid() && cost <= cfg.capacity
    ensures Consume(NewBucket(cfg.capacity, now), cfg.Scale(), now, cost).permitted
  {
    var b := NewBucket(cfg.capacity, now);
    assert Refill(b, cfg.Scale(), now) == b;
  }
}
