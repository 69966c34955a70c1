/** Exactly which token buckets keep the sliding-window bound on every run: what a key
    that idled past the `u64` clamp can be refilled within one instant
    (src/algorithm/token_bucket.rs:83-136, src/algorithm/internal.rs:56-72). */
module TokenWindow {
  import opened Machine
  import opened Arithmetic
  import opened Internal
  import opened TokenBucket
  import opened TokenRuns

  /** The bound on the calls from `i` up to `j` of a run. */
  predicate WindowHolds(p: Scaled, b: Bucket, start: u64, h: seq<Call>, i: nat, j: nat) {
    WellFormed(p, b, start) && Monotone(start, h) && i < j <= |h|
    ==> WithinWindow(p, StateAfter(p, b, h[..i]), h[i..j])
  }

  predicate Fast(p: Scaled) {
    p.Valid() && p.rate > NANOS_PER_SEC
  }

  /** The nanoseconds that a claim takes whose accrual meets the clamp. */
  function ClampedNanos(p: Scaled): (c: u64)
    requires Fast(p)
    ensures c * p.rate <= U64_MAX * NANOS_PER_SEC < c * p.rate + p.rate
    ensures 2 * NANOS_PER_SEC <= c <= U64_MAX - 3
  {
    FloorBounds(U64_MAX * NANOS_PER_SEC, p.rate);
    FloorAtLeast(2 * NANOS_PER_SEC, U64_MAX * NANOS_PER_SEC, p.rate);
    FloorBelow(U64_MAX - 2, U64_MAX * NANOS_PER_SEC, p.rate);
    NanosForTokens(U64_MAX, p.rate)
  }

  /** How often a key that has idled for as long as the clock can show is refilled at
      one instant after the first call there. */
  function RefillsAtOnce(p: Scaled): (k: nat)
    requires Fast(p)
    ensures k >= 1
  {
    CeilDiv(U64_MAX - 1 - ClampedNanos(p), ClampedNanos(p))
  }

  /** What a whole refill is worth beyond the rounding slack of its claim. */
  function Excess(p: Scaled): int {
    p.capacity * NANOS_PER_SEC - (p.rate - 1)
  }

  /** The refills that one instant allows beyond the first, less their slack, fit the
      residue that the bound allows; up to 1,000,000 tokens per second there are none. */
  predicate WindowSafe(p: Scaled)
    requires p.Valid()
  {
    p.rate <= NANOS_PER_SEC || RefillsAtOnce(p) * Excess(p) <= NANOS_PER_SEC + p.rate - 2
  }

  // What idle time is worth.

  /** Pieces of `c` nanoseconds, worth `d <= r` each, gain at most `r` a nanosecond. */
  lemma PiecesGrow(d: nat, c: nat, r: nat, x: nat, w: nat)
    requires d <= r && c > 0
    ensures d * CeilDiv(x, c) <= d * CeilDiv(x + w, c) <= d * CeilDiv(x, c) + w * r
  {
    CeilOfLonger(x, w, c);
    var q, q' := CeilDiv(x, c), CeilDiv(x + w, c);
    MulMono(q, q', d);
    MulMono(q', q + w, d);
    MulMono(d, r, w);
    assert (q + w) * d == q * d + w * d;
  }

  /** The whole refills in `idle` nanoseconds at one instant, each worth its excess; the
      last one may start at one nanosecond (`grain` zero) or only at two. */
  function Worth(p: Scaled, grain: nat, idle: nat): int
    requires Fast(p)
  {
    Max(Excess(p), 0) * CeilDiv(Max(idle - grain, 0), ClampedNanos(p))
    + (if grain == 1 && p.rate % NANOS_PER_SEC == 0 && idle >= 1 then 1 else 0)
  }

  predicate Graded(p: Scaled, grain: nat) {
    Fast(p) && grain <= 1 && (grain == 0 ==> p.rate % NANOS_PER_SEC == 0) && Excess(p) <= p.rate
  }

  lemma WorthIsNatural(p: Scaled, grain: nat, idle: nat)
    requires Fast(p)
    ensures Worth(p, grain, idle) >= 0
    ensures idle > grain ==> Worth(p, grain, idle) >= Max(Excess(p), 0)
    ensures idle == 0 ==> Worth(p, grain, idle) == 0
  {
    var d, q := Max(Excess(p), 0), CeilDiv(Max(idle - grain, 0), ClampedNanos(p));
    CeilIsPositive(Max(idle - grain, 0), ClampedNanos(p));
    if q > 0 {
      MulMono(1, q, d);
    }
  }

  lemma WorthGrows(p: Scaled, grain: nat, idle: nat, w: nat)
    requires Graded(p, grain)
    ensures Worth(p, grain, idle) <= Worth(p, grain, idle + w) <= Worth(p, grain, idle) + w * p.rate
  {
    var x, y := Max(idle - grain, 0), Max(idle + w - grain, 0);
    PiecesGrow(Max(Excess(p), 0), ClampedNanos(p), p.rate, x, y - x);
    assert (y - x) * p.rate == if y - x == w then w * p.rate else w * p.rate - p.rate;
  }

  /** A claim that meets the clamp takes one whole piece of the idle time. */
  lemma ClampedClaimIsWorth(p: Scaled, grain: nat, e: u64)
    requires Graded(p, grain) && !Unclamped(e, p.rate)
    ensures RefillTokens(e, p.rate) == U64_MAX && ClaimedNanos(e, p.rate) == ClampedNanos(p) < e
    ensures Worth(p, grain, e) == Worth(p, grain, e - ClampedNanos(p)) + Max(Excess(p), 0)
  {
    var d, c := Max(Excess(p), 0), ClampedNanos(p);
    RefillFloor(e, p.rate);
    if e <= c {
      MulMono(e, c, p.rate);
    }
    var x := e - c - grain;
    CeilOfOneMore(x, c);
    assert d * (CeilDiv(x, c) + 1) == d * CeilDiv(x, c) + d;
  }

  /** The worth that any claim uses up covers what it credits beyond its slack. */
  lemma ClaimIsWorth(p: Scaled, grain: nat, e: u64)
    requires Graded(p, grain) && RefillTokens(e, p.rate) > 0
    ensures ClaimedNanos(e, p.rate) <= e
    ensures Min(RefillTokens(e, p.rate), p.capacity) * NANOS_PER_SEC
         <= p.rate - 1 + Worth(p, grain, e) - Worth(p, grain, e - ClaimedNanos(e, p.rate))
  {
    if !Unclamped(e, p.rate) {
      ClampedClaimIsWorth(p, grain, e);
    } else if p.rate % NANOS_PER_SEC == 0 {
      WholeClaimIsWorth(p, grain, e);
    } else {
      RoundedClaimIsWorth(p, grain, e);
    }
  }

  lemma WholeClaimIsWorth(p: Scaled, grain: nat, e: u64)
    requires Graded(p, grain) && e > 0 && Unclamped(e, p.rate) && p.rate % NANOS_PER_SEC == 0
    ensures ClaimedNanos(e, p.rate) == e
    ensures Min(RefillTokens(e, p.rate), p.capacity) * NANOS_PER_SEC
         <= p.rate - 1 + Worth(p, grain, e) - Worth(p, grain, 0)
  {
    WholeTokensPerNano(e, p.rate);
    RefillFloor(e, p.rate);
    WorthIsNatural(p, grain, e);
    WorthIsNatural(p, grain, 0);
  }

  lemma RoundedClaimIsWorth(p: Scaled, grain: nat, e: u64)
    requires Graded(p, grain) && Unclamped(e, p.rate) && p.rate % NANOS_PER_SEC != 0
    ensures ClaimedNanos(e, p.rate) <= e
    ensures Min(RefillTokens(e, p.rate), p.capacity) * NANOS_PER_SEC
         <= p.rate - 1 + Worth(p, grain, e) - Worth(p, grain, e - ClaimedNanos(e, p.rate))
  {
    ClaimAccounting(e, p.rate);
    var rest := e - ClaimedNanos(e, p.rate);
    RestOfUnclamped(rest, p.rate);
    WorthIsNatural(p, grain, e);
    AtMostAGrain(p, rest);
    if e <= 1 {
      OneNanoIsSlack(e, p.rate);
    }
  }

  lemma AtMostAGrain(p: Scaled, rest: nat)
    requires Fast(p) && rest <= 1 && p.rate % NANOS_PER_SEC != 0
    ensures Worth(p, 1, rest) == 0
  {
    CeilIsPositive(0, ClampedNanos(p));
  }

  lemma RestOfUnclamped(rest: nat, r: nat)
    requires r > NANOS_PER_SEC && rest * r <= NANOS_PER_SEC + r - 2
    ensures rest <= 1
  {
    if rest >= 2 {
      MulMono(2, rest, r);
    }
  }

  /** When a nanosecond is worth no whole number of tokens, what it credits is slack. */
  lemma OneNanoIsSlack(e: u64, r: u64)
    requires e <= 1 && r > NANOS_PER_SEC && r % NANOS_PER_SEC != 0
    ensures RefillTokens(e, r) * NANOS_PER_SEC <= r - 1 && ClaimedNanos(e, r) == 0
  {
    if e == 1 {
      FirstNanosecond(r);
      FloorBounds(r, NANOS_PER_SEC);
    }
  }

  lemma RefillIsWorth(p: Scaled, grain: nat, b: Bucket, now: u64)
    requires Graded(p, grain) && WellFormed(p, b, now)
    ensures var b' := Refill(b, p, now);
            && WellFormed(p, b', now)
            && b'.tokens * NANOS_PER_SEC + Worth(p, grain, now - b'.last)
               <= b.tokens * NANOS_PER_SEC + Worth(p, grain, now - b.last)
                  + (if Claiming(p, b, now) then p.rate - 1 else 0)
  {
    RefillStep(p, b, now);
    if Claiming(p, b, now) {
      ClaimIsWorth(p, grain, now - b.last);
    }
  }

  lemma CallIsWorth(p: Scaled, grain: nat, b: Bucket, start: u64, call: Call)
    requires Graded(p, grain) && WellFormed(p, b, start) && start <= call.now
    ensures var b' := Consume(b, p, call.now, call.cost).bucket;
            && WellFormed(p, b', call.now)
            && CallSpent(p, b, call) * NANOS_PER_SEC + b'.tokens * NANOS_PER_SEC + Worth(p, grain, call.now - b'.last)
               <= b.tokens * NANOS_PER_SEC + Worth(p, grain, start - b.last) + (call.now - start) * p.rate
                  + (if Claiming(p, b, call.now) then p.rate - 1 else 0)
  {
    RefillIsWorth(p, grain, b.(access := call.now), call.now);
    WorthGrows(p, grain, start - b.last, call.now - start);
  }

  predicate WithinWorth(p: Scaled, grain: nat, b: Bucket, start: u64, end: u64, spent: nat, claims: nat)
    requires Fast(p)
  {
    start >= b.last
    && spent * NANOS_PER_SEC
       <= b.tokens * NANOS_PER_SEC + Worth(p, grain, start - b.last) + (end - start) * p.rate + ClaimSlack(p, claims)
  }

  lemma CallThenRest(p: Scaled, grain: nat, b: Bucket, start: u64, call: Call, end: u64, spent: nat, claims: nat)
    requires Graded(p, grain) && WellFormed(p, b, start) && start <= call.now
    requires WithinWorth(p, grain, Consume(b, p, call.now, call.cost).bucket, call.now, end, spent, claims)
    ensures WithinWorth(p, grain, b, start, end,
                        CallSpent(p, b, call) + spent, (if Claiming(p, b, call.now) then 1 else 0) + claims)
  {
    CallIsWorth(p, grain, b, start, call);
    ClaimSlackAdds(p, if Claiming(p, b, call.now) then 1 else 0, claims);
    SlackOfOneClaim(p);
    SpanSplits(p.rate, start, call.now, end);
  }

  lemma NoCalls(p: Scaled, grain: nat, b: Bucket, start: u64)
    requires Fast(p) && WellFormed(p, b, start)
    ensures WithinWorth(p, grain, b, start, start, 0, 0)
  {
    WorthIsNatural(p, grain, start - b.last);
    SlackOfOneClaim(p);
  }

  lemma {:induction false} SpentWithinWorth(p: Scaled, grain: nat, b: Bucket, start: u64, h: seq<Call>)
    requires Graded(p, grain) && WellFormed(p, b, start) && Monotone(start, h)
    ensures WithinWorth(p, grain, b, start, End(start, h), Spent(p, b, h), Claims(p, b, h))
    decreases h
  {
    if h == [] {
      NoCalls(p, grain, b, start);
    } else {
      var call, rest := h[0], h[1..];
      var b' := Consume(b, p, call.now, call.cost).bucket;
      StaysWellFormed(p, b, call);
      SpentWithinWorth(p, grain, b', call.now, rest);
      CallThenRest(p, grain, b, start, call, End(call.now, rest), Spent(p, b', rest), Claims(p, b', rest));
      SpentUnfolds(p, b, h);
      assert End(call.now, rest) == End(start, h);
    }
  }

  lemma SlackOfOneClaim(p: Scaled)
    requires Fast(p)
    ensures ClaimSlack(p, 0) == 0 && ClaimSlack(p, 1) == p.rate - 1
  {
  }

  // The safe buckets.

  lemma OnlyOneRefill(p: Scaled)
    requires Fast(p) && RefillsAtOnce(p) == 1
    ensures p.rate <= 3 * NANOS_PER_SEC
  {
    var c := ClampedNanos(p);
    assert U64_MAX - 1 - c <= c;
    if p.rate > 3 * NANOS_PER_SEC {
      MulMono(3 * NANOS_PER_SEC, p.rate, c);
    }
  }

  lemma SafeExcess(p: Scaled)
    requires Fast(p) && WindowSafe(p) && (p.capacity == 0 || p.capacity >= SCALE)
    ensures Excess(p) <= p.rate
  {
    if Excess(p) > p.rate {
      if RefillsAtOnce(p) == 1 {
        OnlyOneRefill(p);
      } else {
        MulMono(2, RefillsAtOnce(p), Excess(p));
      }
    }
  }

  /** The refills at one instant are never worth exactly all of the residue when one
      nanosecond more would count: no such number of pieces makes up the clock. */
  lemma PiecesMissTheClock(m: int, k: nat, x: int, c: int)
    requires 1 <= m && x >= 0 && c >= 2 * NANOS_PER_SEC && (k + 1) * c == U64_MAX - 1
    ensures k * (x * NANOS_PER_SEC + 1) != NANOS_PER_SEC + m * NANOS_PER_SEC - 2
  {
    if k * (x * NANOS_PER_SEC + 1) == NANOS_PER_SEC + m * NANOS_PER_SEC - 2 {
      var j := 1 + m - k * x;
      assert k * (x * NANOS_PER_SEC + 1) == (k * x) * NANOS_PER_SEC + k;
      assert k + 2 == j * NANOS_PER_SEC;
      MulMono(2 * NANOS_PER_SEC, c, k + 1);
      assert 1 <= j <= 9;
      assert (j * NANOS_PER_SEC - 1) * c == U64_MAX - 1;
      NoSuchPieces(j, c);
    }
  }

  lemma NoSuchPieces(j: int, c: int)
    requires 1 <= j <= 9
    ensures (j * NANOS_PER_SEC - 1) * c != U64_MAX - 1
  {
    if j == 1 {
    } else if j == 2 {
    } else if j == 3 {
    } else if j == 4 {
    } else if j == 5 {
    } else if j == 6 {
    } else if j == 7 {
    } else if j == 8 {
    } else {
    }
  }

  /** What is left of the longest idle time after one clamped claim: the refills it
      holds, and one part more at most if they make up the whole clock. */
  lemma LongestIdle(p: Scaled) returns (grain: nat)
    requires Fast(p) && Excess(p) <= p.rate
    ensures Graded(p, grain)
    ensures Worth(p, grain, U64_MAX - ClampedNanos(p))
         <= RefillsAtOnce(p) * Max(Excess(p), 0) + (if MakesUpTheClock(p) then 1 else 0)
  {
    var c, k, d := ClampedNanos(p), RefillsAtOnce(p), Max(Excess(p), 0);
    assert d * k == k * d;
    if p.rate % NANOS_PER_SEC == 0 && !MakesUpTheClock(p) {
      grain := 0;
      assert (k - 1) * c + c == k * c && k * c + c == (k + 1) * c;
      CeilExactly(U64_MAX - c, k, c);
    } else {
      grain := 1;
    }
  }

  predicate MakesUpTheClock(p: Scaled)
    requires Fast(p)
  {
    p.rate % NANOS_PER_SEC == 0 && (RefillsAtOnce(p) + 1) * ClampedNanos(p) == U64_MAX - 1
  }

  /** In a safe bucket that is worth no more than the residue. */
  lemma LongestIdleIsWorth(p: Scaled) returns (grain: nat)
    requires Fast(p) && WindowSafe(p) && Excess(p) <= p.rate
    ensures Graded(p, grain)
    ensures Worth(p, grain, U64_MAX - ClampedNanos(p)) <= NANOS_PER_SEC + p.rate - 2
  {
    grain := LongestIdle(p);
    if MakesUpTheClock(p) {
      var m, x := p.rate / NANOS_PER_SEC, p.capacity - p.rate / NANOS_PER_SEC;
      assert Excess(p) == x * NANOS_PER_SEC + 1;
      if x >= 0 {
        PiecesMissTheClock(m, RefillsAtOnce(p), x, ClampedNanos(p));
      }
    }
  }

  /** The window's first call, when its refill meets the clamp. */
  lemma ClampedFirstCall(p: Scaled, grain: nat, b: Bucket, call: Call)
    requires Graded(p, grain) && WellFormed(p, b, call.now) && !Unclamped(call.now - b.last, p.rate)
    ensures var next := Consume(b, p, call.now, call.cost).bucket;
            && WellFormed(p, next, call.now)
            && next.tokens + CallSpent(p, b, call) <= p.capacity
            && Worth(p, grain, call.now - next.last) <= Worth(p, grain, U64_MAX - ClampedNanos(p))
  {
    var next := Consume(b, p, call.now, call.cost).bucket;
    ClampedClaimIsWorth(p, grain, call.now - b.last);
    RefillStep(p, b.(access := call.now), call.now);
    assert next.last == b.last + ClampedNanos(p);
    WorthGrows(p, grain, call.now - next.last, U64_MAX - ClampedNanos(p) - (call.now - next.last));
  }

  lemma {:induction false} SafeWindow(p: Scaled, b: Bucket, w: seq<Call>)
    requires Fast(p) && WindowSafe(p) && Excess(p) <= p.rate
    requires w != [] && WellFormed(p, b, w[0].now) && Monotone(w[0].now, w)
    requires !Unclamped(w[0].now - b.last, p.rate)
    ensures WithinWindow(p, b, w)
  {
    var now, rest := w[0].now, w[1..];
    var next := Consume(b, p, now, w[0].cost).bucket;
    var grain := LongestIdleIsWorth(p);
    ClampedFirstCall(p, grain, b, w[0]);
    SpentWithinWorth(p, grain, next, now, rest);
    SpentUnfolds(p, b, w);
    assert End(now, rest) == w[|w| - 1].now;
    FirstAndRestFit(p, CallSpent(p, b, w[0]), Spent(p, next, rest), next.tokens,
                    Worth(p, grain, now - next.last), End(now, rest) - now, Claims(p, next, rest));
  }

  lemma FirstAndRestFit(p: Scaled, first: nat, rest: nat, tokens: nat, worth: int, span: int, claims: nat)
    requires tokens + first <= p.capacity && worth <= NANOS_PER_SEC + p.rate - 2
    requires rest * NANOS_PER_SEC <= tokens * NANOS_PER_SEC + worth + span * p.rate + ClaimSlack(p, claims)
    ensures FitsWindow(p, first + rest, span, claims)
  {
  }

  lemma SafeWindowHolds(p: Scaled, b: Bucket, start: u64, h: seq<Call>, i: nat, j: nat)
    requires p.Valid() && (p.capacity == 0 || p.capacity >= SCALE) && WindowSafe(p)
    ensures WindowHolds(p, b, start, h, i, j)
  {
    if WellFormed(p, b, start) && Monotone(start, h) && i < j <= |h| {
      WindowIsARun(p, b, start, h, i, j);
      var opening, w := StateAfter(p, b, h[..i]), h[i..j];
      assert w[0] == h[i];
      if Unclamped(w[0].now - opening.last, p.rate) {
        SlidingWindow(p, b, start, h, i, j);
      } else {
        MulMono(w[0].now - opening.last, U64_MAX, p.rate);
        SafeExcess(p);
        SafeWindow(p, opening, w);
      }
    }
  }

  // The others: calls at the last instant of the clock.

  function Burst(n: nat, cost: u64): (h: seq<Call>)
    ensures |h| == n && forall i :: 0 <= i < n ==> h[i] == Call(U64_MAX, cost)
  {
    if n == 0 then [] else [Call(U64_MAX, cost)] + Burst(n - 1, cost)
  }

  /** Idle time that another refill at this instant would still leave a whole one in. */
  lemma ClampedRefill(p: Scaled, b: Bucket)
    requires Fast(p) && b.tokens <= p.capacity && U64_MAX - b.last >= ClampedNanos(p) + 2
    ensures Refill(b, p, U64_MAX) == b.(tokens := p.capacity, last := b.last + ClampedNanos(p))
  {
    var c, e := ClampedNanos(p), U64_MAX - b.last;
    MulMono(c + 2, e, p.rate);
    assert (c + 2) * p.rate == c * p.rate + 2 * p.rate;
    RefillFloor(e, p.rate);
    ClaimFitsElapsed(e, p.rate);
    RefillStep(p, b, U64_MAX);
  }

  lemma LastRefill(p: Scaled, b: Bucket)
    requires Fast(p) && b.tokens <= p.capacity && p.capacity * NANOS_PER_SEC <= 2 * p.rate && U64_MAX - b.last >= 2
    ensures Refill(b, p, U64_MAX).tokens == p.capacity
    ensures p.capacity > 0 ==> Claiming(p, b, U64_MAX)
  {
    var e := U64_MAX - b.last;
    MulMono(2, e, p.rate);
    RefillFloor(e, p.rate);
    if Unclamped(e, p.rate) {
      FloorAtLeast(p.capacity, e * p.rate, NANOS_PER_SEC);
    }
    RefillStep(p, b, U64_MAX);
  }

  /** `n` calls for a whole bucket each, when the idle time left holds as many refills. */
  predicate Holds(p: Scaled, idle: int, n: nat)
    requires Fast(p)
  {
    n == 0
    || idle >= n * ClampedNanos(p) + 2
    || (idle >= (n - 1) * ClampedNanos(p) + 2 && p.capacity * NANOS_PER_SEC <= 2 * p.rate)
  }

  lemma FullCall(p: Scaled, b: Bucket, cost: u64, n: nat)
    requires Fast(p) && b.tokens == 0 && cost > 0 && p.capacity == cost * SCALE
    requires n > 0 && Holds(p, U64_MAX - b.last, n)
    ensures var c := Consume(b, p, U64_MAX, cost);
            && c.permitted && c.bucket.tokens == 0 && Claiming(p, b, U64_MAX)
            && Holds(p, U64_MAX - c.bucket.last, n - 1)
  {
    var b1, c := b.(access := U64_MAX), ClampedNanos(p);
    assert n * c == (n - 1) * c + c && (n - 2) * c == (n - 1) * c - c;
    MulMono(0, n - 1, c);
    if U64_MAX - b.last >= c + 2 {
      ClampedRefill(p, b1);
    } else {
      if n >= 2 {
        MulMono(1, n - 1, c);
      }
      LastRefill(p, b1);
    }
  }

  lemma {:induction false} BurstSpends(p: Scaled, b: Bucket, cost: u64, n: nat)
    requires Fast(p) && b.tokens == 0 && cost > 0 && p.capacity == cost * SCALE
    requires Holds(p, U64_MAX - b.last, n)
    ensures Spent(p, b, Burst(n, cost)) == n * p.capacity && Claims(p, b, Burst(n, cost)) == n
    ensures Monotone(U64_MAX, Burst(n, cost))
    decreases n
  {
    if n > 0 {
      FullCall(p, b, cost, n);
      BurstSpends(p, Consume(b, p, U64_MAX, cost).bucket, cost, n - 1);
      TotalsUnfold(p, b, Call(U64_MAX, cost), Burst(n - 1, cost));
      OneMore(n, p.capacity);
    }
  }

  /** A full bucket never touched before the last instant of the clock, and drained then. */
  lemma DrainAfterLongestIdle(p: Scaled, cost: u64)
    requires Fast(p) && p.capacity == cost * SCALE
    ensures Consume(Bucket(p.capacity, 0, 0), p, U64_MAX, cost)
         == Consumed(Bucket(0, ClampedNanos(p), U64_MAX), true, 0)
  {
    ClampedRefill(p, Bucket(p.capacity, 0, U64_MAX));
  }

  /** Calls at that instant after the drain that spend more than their slack and a residue. */
  lemma {:induction false} AtOnceBreaksWindow(p: Scaled, cost: u64, rest: seq<Call>)
    requires Fast(p) && p.capacity == cost * SCALE
    requires rest != [] && Monotone(U64_MAX, rest)
    requires var next := Bucket(0, ClampedNanos(p), U64_MAX);
             Spent(p, next, rest) * NANOS_PER_SEC > NANOS_PER_SEC + p.rate - 2 + Claims(p, next, rest) * (p.rate - 1)
    ensures !WindowHolds(p, Bucket(p.capacity, 0, 0), 0, [Call(U64_MAX, cost)] + rest, 0, |rest| + 1)
  {
    var b, h := Bucket(p.capacity, 0, 0), [Call(U64_MAX, cost)] + rest;
    assert h[1..] == rest && h[0..|rest| + 1] == h && h[..0] == [];
    DrainAfterLongestIdle(p, cost);
    TotalsUnfold(p, b, h[0], rest);
    var next := Bucket(0, ClampedNanos(p), U64_MAX);
    ExceedsWindow(p, Spent(p, next, rest), Claims(p, next, rest));
    assert Monotone(0, h) && h[|h| - 1].now == U64_MAX by {
      RunStaysWellFormed(p, Bucket(0, 0, 0), U64_MAX, rest);
    }
  }

  lemma ExceedsWindow(p: Scaled, spent: nat, claims: nat)
    requires Fast(p) && spent * NANOS_PER_SEC > NANOS_PER_SEC + p.rate - 2 + claims * (p.rate - 1)
    ensures !FitsWindow(p, p.capacity + spent, 0, claims)
  {
    SlackOfClaims(p, claims);
  }

  lemma {:induction false} BurstBreaksWindow(p: Scaled, cost: u64, n: nat)
    requires Fast(p) && cost > 0 && p.capacity == cost * SCALE
    requires Holds(p, U64_MAX - ClampedNanos(p), n) && n * Excess(p) > NANOS_PER_SEC + p.rate - 2
    ensures !WindowHolds(p, Bucket(p.capacity, 0, 0), 0, Burst(n + 1, cost), 0, n + 1)
  {
    BurstSpends(p, Bucket(0, ClampedNanos(p), U64_MAX), cost, n);
    BurstIsExcess(n, p.capacity, p.rate);
    AtOnceBreaksWindow(p, cost, Burst(n, cost));
  }

  lemma BurstIsExcess(n: nat, capacity: int, r: int)
    ensures (n * capacity) * NANOS_PER_SEC == n * (capacity * NANOS_PER_SEC - (r - 1)) + n * (r - 1)
  {
  }

  lemma SlackOfClaims(p: Scaled, n: nat)
    requires Fast(p)
    ensures ClaimSlack(p, n) == n * (p.rate - 1)
  {
  }

  /** Above a bucket that fills in about two nanoseconds, one more refill is enough. */
  lemma SecondCallBreaksWindow(p: Scaled, cost: u64, second: u64)
    requires Fast(p) && p.capacity == cost * SCALE && 0 < second <= cost
    requires second * SCALE * NANOS_PER_SEC > NANOS_PER_SEC + 2 * p.rate - 3
    requires second * SCALE * NANOS_PER_SEC <= U64_MAX * (p.rate - NANOS_PER_SEC)
    ensures !WindowHolds(p, Bucket(p.capacity, 0, 0), 0, [Call(U64_MAX, cost), Call(U64_MAX, second)], 0, 2)
  {
    var next, call := Bucket(0, ClampedNanos(p), U64_MAX), Call(U64_MAX, second);
    RefillAfterClamp(p, second * SCALE);
    TotalsUnfold(p, next, call, []);
    assert [call] + [] == [call];
    AtOnceBreaksWindow(p, cost, [call]);
    assert [Call(U64_MAX, cost)] + [call] == [Call(U64_MAX, cost), call];
  }

  /** What the rest of the longest idle time refills at once. */
  lemma RefillAfterClamp(p: Scaled, tokens: u64)
    requires Fast(p) && 0 < tokens <= p.capacity && tokens * NANOS_PER_SEC <= U64_MAX * (p.rate - NANOS_PER_SEC)
    ensures var b := Bucket(0, ClampedNanos(p), U64_MAX);
            Claiming(p, b, U64_MAX) && tokens <= Refill(b, p, U64_MAX).tokens <= p.capacity
  {
    var b, e := Bucket(0, ClampedNanos(p), U64_MAX), U64_MAX - ClampedNanos(p);
    assert e * p.rate == U64_MAX * p.rate - ClampedNanos(p) * p.rate;
    RefillFloor(e, p.rate);
    if Unclamped(e, p.rate) {
      FloorAtLeast(tokens, e * p.rate, NANOS_PER_SEC);
    }
    RefillStep(p, b, U64_MAX);
  }

  /** What breaks the bound at an unsafe configuration: one refill at the last instant, or
      two, or as many as there are, as the bucket is large, middling or small. */
  function CallsBreakingWindow(p: Scaled, cost: u64): (h: seq<Call>)
    requires Fast(p) && cost > 0
    ensures forall i :: 0 <= i < |h| ==> h[i].cost > 0 && h[i].now == U64_MAX
  {
    if Excess(p) > NANOS_PER_SEC + p.rate - 2 then [Call(U64_MAX, cost), Call(U64_MAX, Min(cost, 18_446_744_073))]
    else Burst(1 + if p.capacity * NANOS_PER_SEC > 2 * p.rate then 2 else RefillsAtOnce(p), cost)
  }

  lemma ClampBreaksWindow(p: Scaled, cost: u64)
    requires Fast(p) && p.rate % SCALE == 0 && cost > 0 && p.capacity == cost * SCALE && !WindowSafe(p)
    ensures var h := CallsBreakingWindow(p, cost);
            !WindowHolds(p, Bucket(p.capacity, 0, 0), 0, h, 0, |h|)
  {
    if Excess(p) > NANOS_PER_SEC + p.rate - 2 {
      LargeBreaksWindow(p, cost, Min(cost, 18_446_744_073));
    } else if p.capacity * NANOS_PER_SEC > 2 * p.rate {
      MiddlingBreaksWindow(p, cost);
    } else {
      PiecesHold(p);
      BurstBreaksWindow(p, cost, RefillsAtOnce(p));
    }
  }

  lemma UnsafeHoldsTokens(p: Scaled)
    requires Fast(p) && !WindowSafe(p)
    ensures p.capacity > 0 && Excess(p) > 0
  {
    if Excess(p) <= 0 {
      MulMono(Excess(p), 0, RefillsAtOnce(p));
    }
  }

  lemma LargeBreaksWindow(p: Scaled, cost: u64, second: u64)
    requires Fast(p) && p.rate % SCALE == 0 && cost > 0 && p.capacity == cost * SCALE
    requires Excess(p) > NANOS_PER_SEC + p.rate - 2 && second == Min(cost, 18_446_744_073)
    ensures !WindowHolds(p, Bucket(p.capacity, 0, 0), 0, [Call(U64_MAX, cost), Call(U64_MAX, second)], 0, 2)
  {
    assert p.rate - NANOS_PER_SEC >= SCALE;
    SecondCallBreaksWindow(p, cost, second);
  }

  lemma {:induction false} MiddlingBreaksWindow(p: Scaled, cost: u64)
    requires Fast(p) && cost > 0 && p.capacity == cost * SCALE
    requires 2 * p.rate < p.capacity * NANOS_PER_SEC && Excess(p) <= NANOS_PER_SEC + p.rate - 2
    ensures !WindowHolds(p, Bucket(p.capacity, 0, 0), 0, Burst(3, cost), 0, 3)
  {
    assert p.capacity >= SCALE;
    FourPieces(p);
    BurstBreaksWindow(p, cost, 2);
  }

  lemma FourPieces(p: Scaled)
    requires Fast(p) && p.rate >= 4 * NANOS_PER_SEC
    ensures Holds(p, U64_MAX - ClampedNanos(p), 2)
  {
    MulMono(4 * NANOS_PER_SEC, p.rate, ClampedNanos(p));
  }

  lemma PiecesHold(p: Scaled)
    requires Fast(p) && p.capacity * NANOS_PER_SEC <= 2 * p.rate
    ensures Holds(p, U64_MAX - ClampedNanos(p), RefillsAtOnce(p))
  {
  }

  ghost predicate WindowAlwaysHolds(p: Scaled) {
    forall b: Bucket, start: u64, h: seq<Call>, i: nat, j: nat :: WindowHolds(p, b, start, h, i, j)
  }

  lemma WindowHoldsIffSafe(p: Scaled, cost: u64)
    requires p.Valid() && p.rate % SCALE == 0 && p.capacity == cost * SCALE
    ensures WindowAlwaysHolds(p) <==> WindowSafe(p)
  {
    if WindowSafe(p) {
      forall b: Bucket, start: u64, h: seq<Call>, i: nat, j: nat ensures WindowHolds(p, b, start, h, i, j) {
        SafeWindowHolds(p, b, start, h, i, j);
      }
    } else {
      UnsafeHoldsTokens(p);
      ClampBreaksWindow(p, cost);
    }
  }

  /** The sliding-window bound holds on every run of every bucket of a configuration
      exactly when the configuration is safe. */
  lemma WindowHoldsIff(cfg: Config)
    requires cfg.Valid()
    ensures WindowAlwaysHolds(cfg.Scale()) <==> WindowSafe(cfg.Scale())
  {
    ScaleIsValid(cfg);
    WindowHoldsIffSafe(cfg.Scale(), cfg.capacity);
  }

  /** For a bucket that takes more than about two nanoseconds to fill, that is up to
      1,000,000 tokens per second and no further. */
  lemma WindowHoldsUpToAMillionIff(cfg: Config)
    requires cfg.Valid() && cfg.capacity * SCALE * NANOS_PER_SEC > NANOS_PER_SEC + 2 * cfg.rate * SCALE
    ensures WindowAlwaysHolds(cfg.Scale()) <==> cfg.rate <= 1_000_000
  {
    var p := cfg.Scale();
    WindowHoldsIff(cfg);
    ScaleIsValid(cfg);
    if p.rate > NANOS_PER_SEC {
      LargeIsUnsafe(p);
    }
  }

  lemma LargeIsUnsafe(p: Scaled)
    requires Fast(p) && Excess(p) > NANOS_PER_SEC + p.rate - 2
    ensures !WindowSafe(p)
  {
    MulMono(1, RefillsAtOnce(p), Excess(p));
  }

  /** Every configuration that a limiter accepts is of that kind. */
  lemma AcceptedWindowHoldsIff(cfg: Config)
    requires cfg.Valid() && 0 < cfg.rate <= cfg.capacity
    ensures WindowAlwaysHolds(cfg.Scale()) <==> cfg.rate <= 1_000_000
  {
    WindowHoldsUpToAMillionIff(cfg);
  }
}
