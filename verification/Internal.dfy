/** Refill arithmetic, waits and decisions shared by every bucket (src/algorithm/internal.rs). */
module Internal {
  import opened Machine
  import opened Arithmetic
  import opened Float64

  const SCALE := 1000
  const NANOS_PER_SEC := 1_000_000_000
  const NANOS_PER_MILLI := 1_000_000

  /** A span of time, in whole nanoseconds. */
  type Duration = nat

  /** Scaled tokens accrued over `elapsed` nanoseconds. */
  function RefillTokens(elapsed: u64, rateScaled: u64): u64 {
    if elapsed == 0 || rateScaled == 0 then 0
    else
      assert elapsed * rateScaled >= 0;
      Min(elapsed * rateScaled / NANOS_PER_SEC, U64_MAX)
  }

  /** Nanoseconds that `added` scaled tokens account for. */
  function NanosForTokens(added: u64, rateScaled: u64): u64 {
    if added == 0 || rateScaled == 0 then 0
    else
      FloorAtLeast(0, added * NANOS_PER_SEC, rateScaled);
      Min(added * NANOS_PER_SEC / rateScaled, U64_MAX)
  }

  /** The nanoseconds by which a refill over `elapsed` moves `last_refill_nanos`. */
  function ClaimedNanos(elapsed: u64, rateScaled: u64): u64 {
    NanosForTokens(RefillTokens(elapsed, rateScaled), rateScaled)
  }

  /** What a claim over `elapsed` credits beyond what the nanoseconds it takes are
      worth, counted in scaled tokens times `NANOS_PER_SEC`. */
  function OverCredit(elapsed: u64, rateScaled: u64): int {
    RefillTokens(elapsed, rateScaled) * NANOS_PER_SEC - ClaimedNanos(elapsed, rateScaled) * rateScaled
  }

  /** The accrual over `elapsed` fits a `u64`, so `refill_tokens` does not clamp. */
  predicate Unclamped(elapsed: u64, rateScaled: u64) {
    elapsed * rateScaled < (U64_MAX + 1) * NANOS_PER_SEC
  }

  lemma RefillFloor(e: u64, r: u64)
    ensures RefillTokens(e, r) * NANOS_PER_SEC <= e * r
    ensures Unclamped(e, r) ==> e * r < RefillTokens(e, r) * NANOS_PER_SEC + NANOS_PER_SEC
    ensures RefillTokens(e, r) < U64_MAX ==> Unclamped(e, r)
    ensures Unclamped(e, r) ==> RefillTokens(e, r) == e * r / NANOS_PER_SEC
  {
    if e == 0 || r == 0 {
      assert e * r == 0;
    } else {
      FloorBounds(e * r, NANOS_PER_SEC);
      if Unclamped(e, r) {
        FloorBelow(U64_MAX + 1, e * r, NANOS_PER_SEC);
      } else {
        FloorAtLeast(U64_MAX + 1, e * r, NANOS_PER_SEC);
      }
    }
  }

  /** A claim never takes more time than has elapsed, and its `u64` clamp is never reached. */
  lemma ClaimFitsElapsed(e: u64, r: u64)
    requires r > 0
    ensures ClaimedNanos(e, r) <= e
    ensures ClaimedNanos(e, r) == RefillTokens(e, r) * NANOS_PER_SEC / r
  {
    RefillFloor(e, r);
    var a := RefillTokens(e, r);
    assert a * NANOS_PER_SEC < (e + 1) * r;
    FloorBelow(e + 1, a * NANOS_PER_SEC, r);
    if a == 0 {
      FloorExactly(0, 0, r);
    }
  }

  /** The near-inverse law of the two floor divisions: a claim never under-credits,
      over-credits by less than `r`, and leaves less than a token and a
      nanosecond's accrual behind. */
  lemma ClaimAccounting(e: u64, r: u64)
    requires r > 0
    ensures ClaimedNanos(e, r) <= e
    ensures 0 <= OverCredit(e, r) <= r - 1
    ensures Unclamped(e, r) ==> (e - ClaimedNanos(e, r)) * r <= NANOS_PER_SEC + r - 2
    ensures RefillTokens(e, r) == 0 ==> ClaimedNanos(e, r) == 0 && e * r <= NANOS_PER_SEC - 1
  {
    ClaimFitsElapsed(e, r);
    RefillFloor(e, r);
    var a, c := RefillTokens(e, r), ClaimedNanos(e, r);
    FloorBounds(a * NANOS_PER_SEC, r);
    assert (e - c) * r == e * r - c * r;
  }

  /** The nanosecond at which the first scaled token is due. */
  lemma FirstToken(r: u64)
    requires 0 < r < NANOS_PER_SEC
    ensures 0 < NANOS_PER_SEC / r + 1 <= U64_MAX
    ensures RefillTokens(NANOS_PER_SEC / r + 1, r) == 1
    ensures NanosForTokens(1, r) == NANOS_PER_SEC / r
  {
    var q := NANOS_PER_SEC / r;
    FloorBounds(NANOS_PER_SEC, r);
    FloorAtLeast(0, NANOS_PER_SEC, r);
    FloorBelow(NANOS_PER_SEC + 1, NANOS_PER_SEC, r);
    assert (q + 1) * r == q * r + r;
    FloorExactly(1, (q + 1) * r, NANOS_PER_SEC);
  }

  /** One nanosecond at `r >= NANOS_PER_SEC` is worth `r / NANOS_PER_SEC` scaled tokens, which
      account for that nanosecond only when the division is exact. */
  lemma FirstNanosecond(r: u64)
    requires r >= NANOS_PER_SEC
    ensures RefillTokens(1, r) == r / NANOS_PER_SEC > 0
    ensures ClaimedNanos(1, r) == if r % NANOS_PER_SEC == 0 then 1 else 0
  {
    var a := r / NANOS_PER_SEC;
    FloorBounds(r, NANOS_PER_SEC);
    assert RefillTokens(1, r) == a;
    ClaimFitsElapsed(1, r);
    if r % NANOS_PER_SEC == 0 {
      FloorExactly(1, a * NANOS_PER_SEC, r);
    } else {
      FloorExactly(0, a * NANOS_PER_SEC, r);
    }
  }

  /** When one nanosecond is worth a whole number of scaled tokens. */
  lemma WholeTokensPerNano(e: u64, r: u64)
    requires r > 0 && r % NANOS_PER_SEC == 0
    ensures Unclamped(e, r) ==> ClaimedNanos(e, r) == e && OverCredit(e, r) == 0
  {
    var m := r / NANOS_PER_SEC;
    assert r == m * NANOS_PER_SEC;
    if Unclamped(e, r) {
      RefillFloor(e, r);
      ClaimFitsElapsed(e, r);
      assert e * r == (e * m) * NANOS_PER_SEC;
      FloorExactly(e * m, e * r, NANOS_PER_SEC);
      FloorExactly(e, e * r, r);
    }
  }

  /** "Two threads cannot both credit the same nanos" needs every claim that
      credits something to move the timestamp. It does exactly when a
      nanosecond is worth at most one scaled token or a whole number of them. */
  lemma ClaimsMakeProgressIff(r: u64)
    requires r > 0
    ensures (forall e: u64 :: RefillTokens(e, r) > 0 ==> ClaimedNanos(e, r) > 0)
       <==> r <= NANOS_PER_SEC || r % NANOS_PER_SEC == 0
  {
    if r <= NANOS_PER_SEC || r % NANOS_PER_SEC == 0 {
      forall e: u64 | RefillTokens(e, r) > 0
        ensures ClaimedNanos(e, r) > 0
      {
        ClaimMakesProgress(e, r);
      }
    } else {
      FirstNanosecond(r);
    }
  }

  lemma ClaimMakesProgress(e: u64, r: u64)
    requires r > 0 && (r <= NANOS_PER_SEC || r % NANOS_PER_SEC == 0)
    requires RefillTokens(e, r) > 0
    ensures ClaimedNanos(e, r) > 0
  {
    ClaimFitsElapsed(e, r);
    var a := RefillTokens(e, r);
    if Unclamped(e, r) && r % NANOS_PER_SEC == 0 {
      WholeTokensPerNano(e, r);
    } else {
      RefillFloor(e, r);
      assert a == U64_MAX || r <= NANOS_PER_SEC;
      assert 1 * r <= a * NANOS_PER_SEC;
      FloorAtLeast(1, a * NANOS_PER_SEC, r);
    }
  }

  /** No claim ever over-credits exactly when one of the two units divides the
      other (and, in the second case, also divides the clamped accrual). */
  lemma ClaimsAreExactIff(r: u64)
    requires r > 0
    ensures (forall e: u64 :: OverCredit(e, r) == 0)
       <==> NANOS_PER_SEC % r == 0 || (r % NANOS_PER_SEC == 0 && U64_MAX % (r / NANOS_PER_SEC) == 0)
  {
    if NANOS_PER_SEC % r == 0 {
      forall e: u64 ensures OverCredit(e, r) == 0 {
        ClaimExactWhenRateDivides(e, r);
      }
    } else if r < NANOS_PER_SEC {
      FirstToken(r);
      assert NANOS_PER_SEC == NANOS_PER_SEC / r * r + NANOS_PER_SEC % r;
      assert OverCredit(NANOS_PER_SEC / r + 1, r) != 0;
    } else if r % NANOS_PER_SEC != 0 {
      FirstNanosecond(r);
      assert OverCredit(1, r) != 0;
    } else {
      var m := r / NANOS_PER_SEC;
      assert U64_MAX == U64_MAX / m * m + U64_MAX % m;
      ClampedClaim(m, U64_MAX);
      if U64_MAX % m == 0 {
        forall e: u64 ensures OverCredit(e, r) == 0 {
          if Unclamped(e, r) {
            WholeTokensPerNano(e, r);
          } else {
            ClampedClaim(m, e);
          }
        }
      } else {
        assert m > 1;
        assert U64_MAX * r >= (U64_MAX + 1) * NANOS_PER_SEC;
        assert OverCredit(U64_MAX, r) != 0;
      }
    }
  }

  lemma ClaimExactWhenRateDivides(e: u64, r: u64)
    requires r > 0 && NANOS_PER_SEC % r == 0
    ensures OverCredit(e, r) == 0
  {
    ClaimFitsElapsed(e, r);
    var a, d := RefillTokens(e, r), NANOS_PER_SEC / r;
    assert NANOS_PER_SEC == d * r;
    assert a * NANOS_PER_SEC == (a * d) * r;
    FloorExactly(a * d, a * NANOS_PER_SEC, r);
  }

  lemma ClampedClaim(m: int, e: u64)
    requires m > 0 && 0 <= m * NANOS_PER_SEC <= U64_MAX
    ensures !Unclamped(e, m * NANOS_PER_SEC)
        ==> OverCredit(e, m * NANOS_PER_SEC) == (U64_MAX % m) * NANOS_PER_SEC
  {
    var r := m * NANOS_PER_SEC;
    if !Unclamped(e, r) {
      RefillFloor(e, r);
      ClaimFitsElapsed(e, r);
      var q := U64_MAX / m;
      assert U64_MAX == q * m + U64_MAX % m;
      assert q * r == (q * m) * NANOS_PER_SEC;
      FloorExactly(q, U64_MAX * NANOS_PER_SEC, r);
    }
  }

  // Waits and decisions.

  function CeilDiv(x: nat, d: nat): (q: nat)
    requires d > 0
    ensures (q - 1) * d < x <= q * d
  {
    FloorBounds(x + d - 1, d);
    FloorAtLeast(0, x + d - 1, d);
    var q := (x + d - 1) / d;
    assert (q - 1) * d == q * d - d;
    q
  }

  lemma CeilIsLeast(x: nat, q: nat, d: nat)
    requires d > 0 && x <= q * d
    ensures CeilDiv(x, d) <= q
  {
    if CeilDiv(x, d) > q {
      MulMono(q, CeilDiv(x, d) - 1, d);
    }
  }

  lemma CeilOfLonger(x: nat, w: nat, d: nat)
    requires d > 0
    ensures CeilDiv(x, d) <= CeilDiv(x + w, d) <= CeilDiv(x, d) + w
  {
    var q := CeilDiv(x, d);
    MulMono(1, d, w);
    assert (q + w) * d == q * d + w * d;
    CeilIsLeast(x + w, q + w, d);
    CeilIsLeast(x, CeilDiv(x + w, d), d);
  }

  lemma CeilExactly(x: nat, q: nat, d: nat)
    requires d > 0 && (q - 1) * d < x <= q * d
    ensures CeilDiv(x, d) == q
  {
    var q' := CeilDiv(x, d);
    if q' > q {
      MulMono(q, q' - 1, d);
    }
    if q > q' {
      MulMono(q', q - 1, d);
    }
  }

  lemma CeilOfOneMore(x: nat, d: nat)
    requires d > 0
    ensures CeilDiv(x + d, d) == CeilDiv(x, d) + 1
  {
    var q := CeilDiv(x, d);
    assert (q - 1) * d == q * d - d && (q + 1) * d == q * d + d;
    CeilExactly(x + d, q + 1, d);
  }

  lemma CeilIsPositive(x: nat, d: nat)
    requires d > 0
    ensures CeilDiv(x, d) >= 1 <==> x >= 1
  {
  }

  /** The quotient of the two numbers as `f64`, in whole nanoseconds, as
      `Duration::from_secs_f64` rounds it. */
  function QuotientNanos(needed: u64, rate: u64): nat
    requires rate > 0
  {
    var q := Quotient(needed, rate);
    NearestEven(q.num * NANOS_PER_SEC, q.den)
  }

  /** The floor is the same before and after the rounding, which keeps order. */
  function WaitForTokens(needed: u64, rate: u64): Duration {
    if rate == 0 then NANOS_PER_SEC else Max(QuotientNanos(needed, rate), NANOS_PER_MILLI)
  }

  function TimeUntilFull(missing: u64, rate: u64): Option<Duration> {
    if rate == 0 then None
    else if missing == 0 then Some(0)
    else Some(WaitForTokens(missing, rate))
  }

  /** `Duration::as_secs_f64`: its seconds and its nanoseconds as `f64`, added. */
  function SecondsOf(d: Duration): Ratio {
    FloorAtLeast(0, d, NANOS_PER_SEC);
    Sum(Float(d / NANOS_PER_SEC, 1), Float(d % NANOS_PER_SEC, NANOS_PER_SEC))
  }

  function HttpSecondsCeil(d: Duration): nat {
    if d == 0 then 0 else Max(CeilDiv(SecondsOf(d).num, SecondsOf(d).den), 1)
  }

  datatype Decision = Decision(
    permitted: bool,
    retryAfter: Option<Duration>,
    remaining: Option<u64>,
    limit: u64,
    reset: Option<Duration>)

  function TokenDecision(permitted: bool, remaining: u64, limit: u64, rate: u64, cost: u64): Decision {
    Decision(
      permitted,
      if permitted then None else Some(WaitForTokens(SatSub(cost, remaining), rate)),
      Some(remaining),
      limit,
      TimeUntilFull(SatSub(limit, remaining), rate))
  }

  function ZeroCostDecision(limit: u64): Decision {
    Decision(false, None, None, limit, None)
  }

  /** Tokens have accrued after a time exactly when the rate over that time is worth them. */
  lemma AccruedIff(needed: u64, rate: u64, e: u64)
    requires rate * SCALE <= U64_MAX && needed * SCALE <= U64_MAX
    ensures RefillTokens(e, rate * SCALE) >= needed * SCALE <==> e * rate >= needed * NANOS_PER_SEC
  {
    var r := rate * SCALE;
    RefillFloor(e, r);
    assert e * r == (e * rate) * SCALE;
    if e * rate >= needed * NANOS_PER_SEC {
      if Unclamped(e, r) {
        FloorAtLeast(needed * SCALE, e * r, NANOS_PER_SEC);
      }
    } else {
      FloorBelow(needed * SCALE, e * r, NANOS_PER_SEC);
    }
  }

  lemma QuotientNanosAreClose(needed: u64, rate: u64)
    requires rate > 0
    ensures var w := QuotientNanos(needed, rate);
            && 2 * (needed * NANOS_PER_SEC) * (TWO_53 - 4) <= (2 * w + 1) * rate * TWO_53
            && (2 * w - 1) * rate * TWO_53 <= 2 * (needed * NANOS_PER_SEC) * (TWO_53 + 4)
  {
    var q, w := Quotient(needed, rate), QuotientNanos(needed, rate);
    QuotientIsClose(needed, rate);
    NearestEvenIsNearest(q.num * NANOS_PER_SEC, q.den);
    NanosFromSeconds(q.num, q.den, needed, rate, w, TWO_53, TWO_53 - 4, TWO_53 + 4);
  }

  lemma NanosFromSeconds(num: nat, den: nat, needed: nat, rate: nat, w: nat, m: nat, less: nat, more: nat)
    requires den > 0 && IsNearest(w, num * NANOS_PER_SEC, den)
    requires needed * den * less <= num * rate * m <= needed * den * more
    ensures 2 * (needed * NANOS_PER_SEC) * less <= (2 * w + 1) * rate * m
    ensures (2 * w - 1) * rate * m <= 2 * (needed * NANOS_PER_SEC) * more
  {
    MulMono(2 * (num * NANOS_PER_SEC), (2 * w + 1) * den, rate * m);
    MulMono((2 * w - 1) * den, 2 * (num * NANOS_PER_SEC), rate * m);
    assert 2 * (num * NANOS_PER_SEC) * (rate * m) == 2 * NANOS_PER_SEC * (num * rate * m);
    NanosOf(needed, den, less);
    NanosOf(needed, den, more);
    HalvesOf(2 * w + 1, den, rate, m);
    HalvesOf(2 * w - 1, den, rate, m);
    SameFactor((2 * w + 1) * rate * m, 2 * (needed * NANOS_PER_SEC) * less, den);
    SameFactor(2 * (needed * NANOS_PER_SEC) * more, (2 * w - 1) * rate * m, den);
  }

  lemma NanosOf(needed: nat, den: nat, parts: nat)
    ensures 2 * NANOS_PER_SEC * (needed * den * parts) == 2 * (needed * NANOS_PER_SEC) * parts * den
  {
  }

  lemma HalvesOf(h: int, den: nat, rate: nat, m: nat)
    ensures h * den * (rate * m) == h * rate * m * den
  {
  }

  /** A wait is the exact one up to four parts in 2^53 and half a nanosecond, or the
      millisecond floor; for waits up to 13 days that is one nanosecond. */
  lemma WaitIsClose(needed: u64, rate: u64)
    requires rate > 0
    ensures var w, exact := WaitForTokens(needed, rate), needed * NANOS_PER_SEC;
            && w >= NANOS_PER_MILLI
            && 2 * exact * (TWO_53 - 4) <= (2 * w + 1) * rate * TWO_53
            && (w > NANOS_PER_MILLI ==> (2 * w - 1) * rate * TWO_53 <= 2 * exact * (TWO_53 + 4))
            && (8 * exact <= rate * TWO_53 ==>
                  exact <= (w + 1) * rate && (w > NANOS_PER_MILLI ==> (w - 1) * rate <= exact))
  {
    var n, w, exact := QuotientNanos(needed, rate), WaitForTokens(needed, rate), needed * NANOS_PER_SEC;
    QuotientNanosAreClose(needed, rate);
    LongerStaysAbove(2 * n + 1, 2 * w + 1, rate, TWO_53);
    if 8 * exact <= rate * TWO_53 {
      WithinANano(exact, rate, w, TWO_53);
    }
  }

  lemma LongerStaysAbove(n: int, w: int, rate: nat, m: nat)
    requires n <= w
    ensures n * rate * m <= w * rate * m
  {
    MulMono(n, w, rate);
    MulMono(n * rate, w * rate, m);
  }

  lemma WithinANano(x: nat, rate: nat, w: nat, m: nat)
    requires m > 0 && 8 * x <= rate * m
    ensures 2 * x * (m - 4) <= (2 * w + 1) * rate * m ==> x <= (w + 1) * rate
    ensures (2 * w - 1) * rate * m <= 2 * x * (m + 4) ==> (w - 1) * rate <= x
  {
    var y, z := x * m, w * rate * m;
    assert 2 * x * (m - 4) == 2 * y - 8 * x && 2 * x * (m + 4) == 2 * y + 8 * x;
    assert (2 * w + 1) * rate * m == 2 * z + rate * m && (2 * w - 1) * rate * m == 2 * z - rate * m;
    assert (w + 1) * rate * m == z + rate * m && (w - 1) * rate * m == z - rate * m;
    if 2 * x * (m - 4) <= (2 * w + 1) * rate * m {
      SameFactor((w + 1) * rate, x, m);
    }
    if (2 * w - 1) * rate * m <= 2 * x * (m + 4) {
      SameFactor(x, (w - 1) * rate, m);
    }
  }

  /** The same number of nanoseconds for each second keeps the order of two ratios. */
  lemma NanosMono(num: nat, den: nat, num': nat, den': nat)
    requires den > 0 && den' > 0 && num * den' <= num' * den
    ensures NearestEven(num * NANOS_PER_SEC, den) <= NearestEven(num' * NANOS_PER_SEC, den')
  {
    assert num * NANOS_PER_SEC * den' == num * den' * NANOS_PER_SEC;
    assert num' * NANOS_PER_SEC * den == num' * den * NANOS_PER_SEC;
    NearestMono(num * NANOS_PER_SEC, den, num' * NANOS_PER_SEC, den');
  }

  /** Nobody is told to wait for less than a millisecond. */
  lemma ShortWaitsAreAMilli(needed: u64, rate: u64)
    requires rate > 0 && needed * 1000 <= rate
    ensures WaitForTokens(needed, rate) == 1_000_000
  {
    QuotientNanosAreClose(needed, rate);
    AtMostAMilli(needed, rate, QuotientNanos(needed, rate));
  }

  lemma AtMostAMilli(needed: nat, rate: nat, w: nat)
    requires rate > 0 && needed * 1000 <= rate
    requires (2 * w - 1) * rate * TWO_53 <= 2 * (needed * NANOS_PER_SEC) * (TWO_53 + 4)
    ensures w <= NANOS_PER_MILLI
  {
    if w > NANOS_PER_MILLI {
      MulMono(2 * NANOS_PER_MILLI + 1, 2 * w - 1, rate);
    }
  }

  lemma WaitGrows(needed: u64, more: u64, rate: u64)
    requires needed <= more
    ensures WaitForTokens(needed, rate) <= WaitForTokens(more, rate)
  {
    if rate > 0 {
      QuotientMono(needed, more, rate);
      var q, q' := Quotient(needed, rate), Quotient(more, rate);
      NanosMono(q.num, q.den, q'.num, q'.den);
    }
  }

  lemma WaitOfExactQuotient(needed: u64, rate: u64)
    requires rate > 0 && Quotient(needed, rate).num * rate == needed * Quotient(needed, rate).den
    ensures WaitForTokens(needed, rate) == Max(NearestEven(needed * NANOS_PER_SEC, rate), NANOS_PER_MILLI)
  {
    var q := Quotient(needed, rate);
    NanosMono(q.num, q.den, needed, rate);
    NanosMono(needed, rate, q.num, q.den);
  }

  /** The seconds of a wait fit a `Duration`, beyond which `Duration::from_secs_f64` panics,
      except for the largest 1024 numbers of tokens at one per second. */
  lemma WaitFitsIff(needed: u64, rate: u64)
    requires rate > 0
    ensures Quotient(needed, rate).num < TWO_64 * Quotient(needed, rate).den <==> rate > 1 || needed < TWO_64 - 1024
  {
    var q := Quotient(needed, rate);
    if rate == 1 {
      QuotientByOne(needed);
    } else {
      QuotientIsClose(needed, rate);
      HalfFits(q.num, q.den, needed, rate);
    }
  }

  lemma HalfFits(num: nat, den: nat, needed: u64, rate: u64)
    requires rate > 1 && den > 0 && num * rate * TWO_53 <= needed * den * (TWO_53 + 4)
    ensures num < TWO_64 * den
  {
    if num >= TWO_64 * den {
      MulMono(2, rate, num);
      MulMono(needed, U64_MAX, den);
      assert false;
    }
  }

  /** When the rate is a power of two `f64` holds the quotient exactly, and the tokens have
      accrued after the wait unless it was rounded down and the millisecond floor does
      not make up for it. */
  lemma {:induction false} PowerOfTwoSufficesIff(needed: u64, k: nat)
    requires needed < TWO_53 && Pow2(k) < TWO_53 && needed * SCALE <= U64_MAX
    requires WaitForTokens(needed, Pow2(k)) <= U64_MAX
    ensures var x, rate, w := needed * NANOS_PER_SEC, Pow2(k), WaitForTokens(needed, Pow2(k));
            && w == Max(NearestEven(x, rate), NANOS_PER_MILLI)
            && (RefillTokens(w, rate * SCALE) >= needed * SCALE
                <==> x % rate == 0 || RoundsUp(x, rate) || x / rate < NANOS_PER_MILLI)
  {
    var x, rate, w := needed * NANOS_PER_SEC, Pow2(k), WaitForTokens(needed, Pow2(k));
    QuotientByPowerOfTwo(needed, k);
    WaitOfExactQuotient(needed, rate);
    AccruedIff(needed, rate, w);
    CoversIff(x, rate, w);
  }

  lemma CoversIff(x: nat, d: nat, w: nat)
    requires d > 0
    ensures w * d >= x <==> w >= CeilDiv(x, d)
    ensures CeilDiv(x, d) == x / d + if x % d == 0 then 0 else 1
  {
    CeilIsFloorOrNext(x, d);
    if w >= CeilDiv(x, d) {
      MulMono(CeilDiv(x, d), w, d);
    }
    if w * d >= x {
      CeilIsLeast(x, w, d);
    }
  }

  lemma CeilIsFloorOrNext(x: nat, d: nat)
    requires d > 0
    ensures CeilDiv(x, d) == x / d + if x % d == 0 then 0 else 1
  {
    var q := x / d + if x % d == 0 then 0 else 1;
    assert x == x / d * d + x % d;
    assert (q - 1) * d == q * d - d;
    FloorAtLeast(0, x, d);
    assert (x / d + 1) * d == x / d * d + d;
    CeilExactly(x, q, d);
  }

  /** Two waits that fall short: one token at 3 per second, below the half, and 1025 at
      1024 per second, where the half goes to the even nanosecond. */
  lemma WaitFallsShort()
    ensures WaitForTokens(1, 3) == 333_333_333 && RefillTokens(333_333_333, 3 * SCALE) == 999
    ensures WaitForTokens(1025, 1024) == 1_000_976_562 && RefillTokens(1_000_976_562, 1024 * SCALE) == 1_024_999
  {
    QuotientNanosAreClose(1, 3);
    assert Pow2(10) == 1024;
    QuotientByPowerOfTwo(1025, 10);
    WaitOfExactQuotient(1025, 1024);
  }

  /** `Retry-After` in whole seconds: never a full second longer than the wait, zero only
      for a zero wait, and no shorter exactly when the sum in `f64` keeps what there is
      beyond the whole seconds. */
  lemma HttpSecondsCoverIff(d: Duration)
    requires d / NANOS_PER_SEC + 1 < TWO_53
    ensures HttpSecondsCeil(d) * NANOS_PER_SEC < d + NANOS_PER_SEC
    ensures HttpSecondsCeil(d) == 0 <==> d == 0
    ensures HttpSecondsCeil(d) * NANOS_PER_SEC >= d
       <==> d % NANOS_PER_SEC == 0 || SecondsOf(d).num > d / NANOS_PER_SEC * SecondsOf(d).den
  {
    var n, x, q := d / NANOS_PER_SEC, d % NANOS_PER_SEC, SecondsOf(d);
    FloorAtLeast(0, d, NANOS_PER_SEC);
    SumBounds(n, x, NANOS_PER_SEC);
    if x > 0 && n == 0 {
      SumKeepsPart(n, x, NANOS_PER_SEC);
    }
    CeilBetween(q.num, q.den, n);
  }

  lemma CeilBetween(x: nat, d: nat, n: nat)
    requires d > 0 && n * d <= x <= (n + 1) * d
    ensures CeilDiv(x, d) == if x == n * d then n else n + 1
  {
    assert (n - 1) * d == n * d - d;
    CeilExactly(x, if x == n * d then n else n + 1, d);
  }

  const LONG_WAIT := 0x80_0000 * NANOS_PER_SEC

  /** It does up to 97 days. */
  lemma HttpSecondsCoverWait(d: Duration)
    requires d < LONG_WAIT
    ensures HttpSecondsCeil(d) * NANOS_PER_SEC >= d
  {
    HttpSecondsCoverIff(d);
    if d % NANOS_PER_SEC > 0 {
      FloorAtLeast(0, d, NANOS_PER_SEC);
      SumKeepsPart(d / NANOS_PER_SEC, d % NANOS_PER_SEC, NANOS_PER_SEC);
    }
  }

  /** Beyond that it need not: of 2^24 seconds and a nanosecond, the nanosecond is lost. */
  lemma HttpSecondsLoseANanosecond()
    ensures HttpSecondsCeil(0x100_0000 * NANOS_PER_SEC + 1) == 0x100_0000
  {
    SumLosesPart(1, NANOS_PER_SEC);
    SumBounds(0x100_0000, 1, NANOS_PER_SEC);
    var q := SecondsOf(0x100_0000 * NANOS_PER_SEC + 1);
    CeilBetween(q.num, q.den, 0x100_0000);
  }
}
