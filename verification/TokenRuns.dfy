/** Whole sequential runs of one token bucket, against an exact bucket that
    neither rounds nor claims (src/algorithm/token_bucket.rs:70-136). */
module TokenRuns {
  import opened Machine
  import opened Arithmetic
  import opened Internal
  import opened TokenBucket

  datatype Call = Call(now: u64, cost: u64)

  function StateAfter(p: Scaled, b: Bucket, h: seq<Call>): Bucket
    decreases h
  {
    if h == [] then b
    else StateAfter(p, Consume(b, p, h[0].now, h[0].cost).bucket, h[1..])
  }

  function Decisions(p: Scaled, b: Bucket, h: seq<Call>): (ds: seq<bool>)
    ensures |ds| == |h|
    decreases h
  {
    if h == [] then []
    else
      var c := Consume(b, p, h[0].now, h[0].cost);
      [c.permitted] + Decisions(p, c.bucket, h[1..])
  }

  /** Scaled cost of the permitted calls. */
  function Spent(p: Scaled, b: Bucket, h: seq<Call>): nat
    decreases h
  {
    if h == [] then 0
    else
      var c := Consume(b, p, h[0].now, h[0].cost);
      (if c.permitted then h[0].cost * SCALE else 0) + Spent(p, c.bucket, h[1..])
  }

  predicate Claiming(p: Scaled, b: Bucket, now: u64) {
    RefillTokens(SatSub(now, b.last), p.rate) > 0
  }

  function Claims(p: Scaled, b: Bucket, h: seq<Call>): nat
    decreases h
  {
    if h == [] then 0
    else (if Claiming(p, b, h[0].now) then 1 else 0)
         + Claims(p, Consume(b, p, h[0].now, h[0].cost).bucket, h[1..])
  }

  /** What all the claims of a run credit beyond the time they take. */
  function TotalOverCredit(p: Scaled, b: Bucket, h: seq<Call>): int
    decreases h
  {
    if h == [] then 0
    else OverCredit(SatSub(h[0].now, b.last), p.rate)
         + TotalOverCredit(p, Consume(b, p, h[0].now, h[0].cost).bucket, h[1..])
  }

  predicate Monotone(start: u64, h: seq<Call>)
    decreases h
  {
    h == [] || (start <= h[0].now && Monotone(h[0].now, h[1..]))
  }

  predicate RunUnclamped(p: Scaled, b: Bucket, h: seq<Call>)
    decreases h
  {
    h == [] || (
      && Unclamped(SatSub(h[0].now, b.last), p.rate)
      && RunUnclamped(p, Consume(b, p, h[0].now, h[0].cost).bucket, h[1..]))
  }

  function End(start: u64, h: seq<Call>): u64 {
    if h == [] then start else h[|h| - 1].now
  }

  predicate WellFormed(p: Scaled, b: Bucket, now: u64) {
    p.Valid() && b.tokens <= p.capacity && b.last <= now
  }

  /** Tokens plus accrual not yet claimed, in scaled tokens times `NANOS_PER_SEC`. */
  function Potential(p: Scaled, b: Bucket, now: u64): int {
    b.tokens * NANOS_PER_SEC + (now - b.last) * p.rate
  }

  lemma PotentialAdvances(p: Scaled, b: Bucket, t0: int, t1: u64, t2: u64)
    ensures Potential(p, b, t2) == Potential(p, b, t1) + (t2 - t1) * p.rate
    ensures (t2 - t1) * p.rate + (t1 - t0) * p.rate == (t2 - t0) * p.rate
  {
    assert (t2 - b.last) * p.rate == (t1 - b.last) * p.rate + (t2 - t1) * p.rate;
  }

  lemma PotentialOfFullBucket(p: Scaled, start: u64)
    ensures Potential(p, Bucket(p.capacity, start, start), start) == p.capacity * NANOS_PER_SEC
  {
  }

  lemma RefillArithmetic(p: Scaled, b: Bucket, e: nat, a: nat, c: nat, over: int)
    requires p.Valid() && b.tokens <= p.capacity && c <= e
    requires over == a * NANOS_PER_SEC - c * p.rate && over >= 0
    ensures var tokens := Min(b.tokens + a, p.capacity);
            && tokens * NANOS_PER_SEC + (e - c) * p.rate <= b.tokens * NANOS_PER_SEC + e * p.rate + over
            && (tokens == p.capacity
                || tokens * NANOS_PER_SEC + (e - c) * p.rate >= b.tokens * NANOS_PER_SEC + e * p.rate)
  {
    assert (e - c) * p.rate == e * p.rate - c * p.rate;
  }

  lemma RefillStep(p: Scaled, b: Bucket, now: u64)
    requires WellFormed(p, b, now)
    ensures var b' := Refill(b, p, now);
            && WellFormed(p, b', now) && b.last <= b'.last
            && b'.tokens == Min(b.tokens + RefillTokens(now - b.last, p.rate), p.capacity)
            && Potential(p, b', now) <= Potential(p, b, now) + OverCredit(now - b.last, p.rate)
            && (b'.tokens == p.capacity || Potential(p, b, now) <= Potential(p, b', now))
            && (Unclamped(now - b.last, p.rate) ==>
                  (now - b'.last) * p.rate <= NANOS_PER_SEC + p.rate - 2 || p.rate == 0)
  {
    var e := now - b.last;
    if p.rate > 0 {
      ClaimAccounting(e, p.rate);
      RefillArithmetic(p, b, e, RefillTokens(e, p.rate), ClaimedNanos(e, p.rate), OverCredit(e, p.rate));
      assert Refill(b, p, now).last == b.last + ClaimedNanos(e, p.rate);
    }
  }

  lemma ConsumeStep(p: Scaled, b: Bucket, call: Call)
    requires WellFormed(p, b, call.now)
    ensures var c := Consume(b, p, call.now, call.cost);
            && WellFormed(p, c.bucket, call.now)
            && Potential(p, c.bucket, call.now) + CallSpent(p, b, call) * NANOS_PER_SEC
               <= Potential(p, b, call.now) + OverCredit(call.now - b.last, p.rate)
  {
    var b1 := b.(access := call.now);
    RefillStep(p, b1, call.now);
  }

  lemma StaysWellFormed(p: Scaled, b: Bucket, call: Call)
    requires WellFormed(p, b, call.now)
    ensures WellFormed(p, Consume(b, p, call.now, call.cost).bucket, call.now)
  {
    ConsumeStep(p, b, call);
  }

  // The budget since a bucket's creation.

  lemma {:induction false} RunStaysWellFormed(p: Scaled, b: Bucket, start: u64, h: seq<Call>)
    requires WellFormed(p, b, start) && Monotone(start, h)
    ensures start <= End(start, h) && WellFormed(p, StateAfter(p, b, h), End(start, h))
    decreases h
  {
    if h != [] {
      ConsumeStep(p, b, h[0]);
      RunStaysWellFormed(p, Consume(b, p, h[0].now, h[0].cost).bucket, h[0].now, h[1..]);
      assert End(h[0].now, h[1..]) == End(start, h);
    }
  }

  function CallSpent(p: Scaled, b: Bucket, call: Call): nat {
    if Consume(b, p, call.now, call.cost).permitted then call.cost * SCALE else 0
  }

  lemma {:induction false} SpentUnfolds(p: Scaled, b: Bucket, h: seq<Call>)
    requires h != []
    ensures Spent(p, b, h) == CallSpent(p, b, h[0]) + Spent(p, Consume(b, p, h[0].now, h[0].cost).bucket, h[1..])
  {
  }

  lemma {:induction false} TotalsUnfold(p: Scaled, b: Bucket, call: Call, rest: seq<Call>)
    ensures var next := Consume(b, p, call.now, call.cost).bucket;
            && Spent(p, b, [call] + rest) == CallSpent(p, b, call) + Spent(p, next, rest)
            && Claims(p, b, [call] + rest) == (if Claiming(p, b, call.now) then 1 else 0) + Claims(p, next, rest)
    ensures rest == [] || (rest[0].now == call.now && Monotone(call.now, rest)) ==> Monotone(call.now, [call] + rest)
  {
    assert ([call] + rest)[1..] == rest;
  }

  lemma {:induction false} SpentWithinPotential(p: Scaled, b: Bucket, start: u64, h: seq<Call>)
    requires WellFormed(p, b, start) && Monotone(start, h)
    ensures Spent(p, b, h) * NANOS_PER_SEC
         <= Potential(p, b, start) + (End(start, h) - start) * p.rate + TotalOverCredit(p, b, h)
    decreases h
  {
    if h == [] {
      MulMono(0, start - b.last, p.rate);
    } else {
      var call := h[0];
      var b' := Consume(b, p, call.now, call.cost).bucket;
      ConsumeStep(p, b, call);
      SpentUnfolds(p, b, h);
      SpentWithinPotential(p, b', call.now, h[1..]);
      assert End(call.now, h[1..]) == End(start, h);
      PotentialAdvances(p, b, start, start, call.now);
      PotentialAdvances(p, b, start, call.now, End(start, h));
    }
  }

  /** What rounding can add to the budget over `k` claims: nothing when a scaled
      token takes a whole number of nanoseconds. */
  function ClaimSlack(p: Scaled, k: nat): (slack: nat)
    ensures p.rate > 0 && NANOS_PER_SEC % p.rate == 0 ==> slack == 0
  {
    if p.rate == 0 || NANOS_PER_SEC % p.rate == 0 then 0
    else
      MulMono(0, k, p.rate - 1);
      k * (p.rate - 1)
  }

  lemma ClaimSlackAdds(p: Scaled, j: nat, k: nat)
    ensures ClaimSlack(p, j + k) == ClaimSlack(p, j) + ClaimSlack(p, k)
  {
  }

  lemma OverCreditOfOneClaim(p: Scaled, e: u64)
    ensures 0 <= OverCredit(e, p.rate) <= ClaimSlack(p, if RefillTokens(e, p.rate) > 0 then 1 else 0)
  {
    if p.rate > 0 {
      ClaimAccounting(e, p.rate);
      if NANOS_PER_SEC % p.rate == 0 {
        ClaimExactWhenRateDivides(e, p.rate);
      }
    }
  }

  lemma {:induction false} OverCreditBound(p: Scaled, b: Bucket, start: u64, h: seq<Call>)
    requires WellFormed(p, b, start) && Monotone(start, h)
    ensures 0 <= TotalOverCredit(p, b, h) <= ClaimSlack(p, Claims(p, b, h))
    decreases h
  {
    if h != [] {
      var b' := Consume(b, p, h[0].now, h[0].cost).bucket;
      ConsumeStep(p, b, h[0]);
      OverCreditOfOneClaim(p, h[0].now - b.last);
      OverCreditBound(p, b', h[0].now, h[1..]);
      ClaimSlackAdds(p, if Claiming(p, b, h[0].now) then 1 else 0, Claims(p, b', h[1..]));
    }
  }

  /** Capacity plus rate times elapsed time, plus the rounding slack of each claim. */
  lemma {:induction false} BudgetSinceCreation(p: Scaled, start: u64, h: seq<Call>)
    requires p.Valid() && Monotone(start, h)
    ensures var b := Bucket(p.capacity, start, start);
            var r := p.rate;
            Spent(p, b, h) * NANOS_PER_SEC
            <= p.capacity * NANOS_PER_SEC + (End(start, h) - start) * r
               + ClaimSlack(p, Claims(p, b, h))
  {
    var b := Bucket(p.capacity, start, start);
    PotentialOfFullBucket(p, start);
    SpentWithinPotential(p, b, start, h);
    OverCreditBound(p, b, start, h);
  }

  // The sliding window.

  /** What may be spent over `span`: one full bucket, the accrual of the span, one residue,
      and the rounding slack of `claims`. */
  predicate FitsWindow(p: Scaled, spent: nat, span: int, claims: nat) {
    spent * NANOS_PER_SEC
    <= p.capacity * NANOS_PER_SEC + span * p.rate + NANOS_PER_SEC + p.rate - 2 + ClaimSlack(p, claims)
  }

  /** What a window of calls may spend; the claims that count are those after its first refill. */
  predicate WithinWindow(p: Scaled, b: Bucket, w: seq<Call>)
    requires w != []
  {
    var next := Consume(b, p, w[0].now, w[0].cost).bucket;
    FitsWindow(p, Spent(p, b, w), w[|w| - 1].now - w[0].now, Claims(p, next, w[1..]))
  }

  /** Over any window of a run, however long the key was idle before it, if the refill of
      the window's first call does not meet the clamp. */
  lemma {:induction false} SlidingWindow(p: Scaled, b: Bucket, start: u64, h: seq<Call>, i: nat, j: nat)
    requires WellFormed(p, b, start) && Monotone(start, h)
    requires i < j <= |h|
    requires Unclamped(SatSub(h[i].now, StateAfter(p, b, h[..i]).last), p.rate)
    ensures h[i].now <= h[j - 1].now && WithinWindow(p, StateAfter(p, b, h[..i]), h[i..j])
  {
    WindowIsARun(p, b, start, h, i, j);
    var opening, w := StateAfter(p, b, h[..i]), h[i..j];
    assert w[0] == h[i] && w[|w| - 1] == h[j - 1];
    assert SatSub(w[0].now, opening.last) == w[0].now - opening.last;
    WindowFromFirstCall(p, opening, End(start, h[..i]), w);
  }

  lemma {:induction false} WindowIsARun(p: Scaled, b: Bucket, start: u64, h: seq<Call>, i: nat, j: nat)
    requires WellFormed(p, b, start) && Monotone(start, h)
    requires i <= j <= |h|
    ensures var opening, opens := StateAfter(p, b, h[..i]), End(start, h[..i]);
            WellFormed(p, opening, opens) && Monotone(opens, h[i..j])
  {
    MonotoneSplit(start, h, i);
    RunStaysWellFormed(p, b, start, h[..i]);
    MonotoneSplit(End(start, h[..i]), h[i..], j - i);
    assert h[i..][..j - i] == h[i..j];
  }

  lemma FirstCallLeaves(p: Scaled, b: Bucket, call: Call)
    requires WellFormed(p, b, call.now)
    requires Unclamped(call.now - b.last, p.rate)
    ensures var c := Consume(b, p, call.now, call.cost);
            && WellFormed(p, c.bucket, call.now)
            && Potential(p, c.bucket, call.now) + CallSpent(p, b, call) * NANOS_PER_SEC
               <= p.capacity * NANOS_PER_SEC + NANOS_PER_SEC + p.rate - 2
  {
    RefillStep(p, b.(access := call.now), call.now);
  }

  lemma {:induction false} WindowFromFirstCall(p: Scaled, b: Bucket, start: u64, w: seq<Call>)
    requires WellFormed(p, b, start) && Monotone(start, w)
    requires w != [] && Unclamped(w[0].now - b.last, p.rate)
    ensures w[0].now <= w[|w| - 1].now && WithinWindow(p, b, w)
  {
    var now := w[0].now;
    var c := Consume(b, p, now, w[0].cost);
    FirstCallLeaves(p, b, w[0]);
    SpentUnfolds(p, b, w);
    RunStaysWellFormed(p, c.bucket, now, w[1..]);
    SpentWithinPotential(p, c.bucket, now, w[1..]);
    OverCreditBound(p, c.bucket, now, w[1..]);
    assert End(now, w[1..]) == w[|w| - 1].now;
  }

  lemma {:induction false} MonotoneSplit(start: u64, h: seq<Call>, i: nat)
    requires i <= |h| && Monotone(start, h)
    ensures Monotone(start, h[..i]) && Monotone(End(start, h[..i]), h[i..])
    decreases h
  {
    if i == 0 {
      assert h[0..] == h;
    } else {
      var front, rest := h[..i], h[1..];
      MonotoneSplit(h[0].now, rest, i - 1);
      assert front[1..] == rest[..i - 1] && rest[i - 1..] == h[i..];
      assert End(h[0].now, front[1..]) == End(start, front);
    }
  }

  predicate ClampFree(p: Scaled, b: Bucket, start: u64, h: seq<Call>) {
    WellFormed(p, b, start) && Monotone(start, h) ==> RunUnclamped(p, b, h)
  }

  /** No run of any bucket meets the clamp exactly up to 1,000,000 tokens per second. */
  lemma NeverClampsIff(p: Scaled)
    requires p.Valid()
    ensures (forall b: Bucket, start: u64, h: seq<Call> :: ClampFree(p, b, start, h)) <==> p.rate <= NANOS_PER_SEC
  {
    if p.rate <= NANOS_PER_SEC {
      forall b: Bucket, start: u64, h: seq<Call> ensures ClampFree(p, b, start, h) {
        if WellFormed(p, b, start) && Monotone(start, h) {
          SlowRateNeverClamps(p, b, start, h);
        }
      }
    } else {
      var b, h := Bucket(0, 0, 0), [Call(U64_MAX, 1)];
      assert U64_MAX * p.rate >= U64_MAX * (NANOS_PER_SEC + 1);
      assert h[1..] == [] && Monotone(0, h);
      assert !Unclamped(SatSub(h[0].now, b.last), p.rate) && !RunUnclamped(p, b, h);
      assert !ClampFree(p, b, 0, h);
    }
  }

  lemma {:induction false} SlowRateNeverClamps(p: Scaled, b: Bucket, start: u64, h: seq<Call>)
    requires WellFormed(p, b, start) && Monotone(start, h) && p.rate <= NANOS_PER_SEC
    ensures RunUnclamped(p, b, h)
    decreases h
  {
    if h != [] {
      var now := h[0].now;
      MulMono(p.rate, NANOS_PER_SEC, now - b.last);
      ConsumeStep(p, b, h[0]);
      SlowRateNeverClamps(p, Consume(b, p, now, h[0].cost).bucket, now, h[1..]);
    }
  }

  /** A gap between calls that a caller can check keeps the run unclamped. */
  predicate GapsFit(p: Scaled, start: u64, h: seq<Call>)
    decreases h
  {
    h == [] || (
      && (h[0].now - start) * p.rate + NANOS_PER_SEC + p.rate <= (U64_MAX + 1) * NANOS_PER_SEC
      && GapsFit(p, h[0].now, h[1..]))
  }

  lemma {:induction false} GapsKeepRunUnclamped(p: Scaled, b: Bucket, start: u64, h: seq<Call>)
    requires WellFormed(p, b, start) && Monotone(start, h) && GapsFit(p, start, h)
    requires (start - b.last) * p.rate < NANOS_PER_SEC + p.rate
    ensures RunUnclamped(p, b, h)
    decreases h
  {
    var r := p.rate;
    if h != [] {
      var now := h[0].now;
      assert (now - b.last) * r == (now - start) * r + (start - b.last) * r;
      RefillStep(p, b.(access := now), now);
      GapsKeepRunUnclamped(p, Consume(b, p, now, h[0].cost).bucket, now, h[1..]);
    }
  }

  // The exact bucket.

  /** A bucket with a rational level (in scaled tokens times `NANOS_PER_SEC`),
      capped at capacity, as of the instant `at`. */
  datatype Exact = Exact(level: int, at: u64)

  function Accrue(p: Scaled, x: Exact, now: u64): int {
    Min(p.capacity * NANOS_PER_SEC, x.level + (now - x.at) * p.rate)
  }

  /** The exact bucket after a call, charged when the integer bucket permits it. */
  function Charge(p: Scaled, b: Bucket, x: Exact, call: Call): Exact {
    Exact(Accrue(p, x, call.now)
          - (if Consume(b, p, call.now, call.cost).permitted then call.cost * SCALE * NANOS_PER_SEC else 0),
          call.now)
  }

  /** The exact level that each call of the run finds. */
  function ExactLevels(p: Scaled, b: Bucket, x: Exact, h: seq<Call>): (ls: seq<int>)
    ensures |ls| == |h|
    decreases h
  {
    if h == [] then []
    else
      [Accrue(p, x, h[0].now)]
      + ExactLevels(p, Consume(b, p, h[0].now, h[0].cost).bucket, Charge(p, b, x, h[0]), h[1..])
  }

  predicate Covers(p: Scaled, b: Bucket, x: Exact) {
    && WellFormed(p, b, x.at)
    && x.level <= p.capacity * NANOS_PER_SEC
    && x.level <= Potential(p, b, x.at)
  }

  /** The floor of the accrual is enough for whatever whole cost the exact level covers. */
  lemma FloorAffords(p: Scaled, tokens: u64, e: u64, need: nat)
    requires need <= p.capacity && need * NANOS_PER_SEC <= tokens * NANOS_PER_SEC + e * p.rate
    ensures need <= Min(tokens + RefillTokens(e, p.rate), p.capacity)
  {
    RefillFloor(e, p.rate);
  }

  /** After the refill of a call the integer bucket still covers the exact one. */
  lemma CoversRefill(p: Scaled, b: Bucket, x: Exact, now: u64)
    requires Covers(p, b, x) && x.at <= now
    ensures WellFormed(p, Refill(b, p, now), now)
    ensures Accrue(p, x, now) <= Potential(p, Refill(b, p, now), now)
    ensures Refill(b, p, now).tokens == Min(b.tokens + RefillTokens(now - b.last, p.rate), p.capacity)
  {
    RefillStep(p, b, now);
    PotentialAdvances(p, b, x.at, x.at, now);
    MulMono(0, now - Refill(b, p, now).last, p.rate);
  }

  lemma ExactPays(p: Scaled, b: Bucket, x: Exact, now: u64, need: nat)
    requires Covers(p, b, x) && x.at <= now && Accrue(p, x, now) >= need * NANOS_PER_SEC
    ensures need <= Min(b.tokens + RefillTokens(now - b.last, p.rate), p.capacity)
  {
    PotentialAdvances(p, b, x.at, x.at, now);
    FloorAffords(p, b.tokens, now - b.last, need);
  }

  lemma CoversStep(p: Scaled, b: Bucket, x: Exact, call: Call)
    requires Covers(p, b, x) && x.at <= call.now
    ensures Covers(p, Consume(b, p, call.now, call.cost).bucket, Charge(p, b, x, call))
    ensures Accrue(p, x, call.now) >= call.cost * SCALE * NANOS_PER_SEC
        ==> Consume(b, p, call.now, call.cost).permitted
  {
    var b1 := b.(access := call.now);
    CoversRefill(p, b1, x, call.now);
    if Accrue(p, x, call.now) >= call.cost * SCALE * NANOS_PER_SEC {
      ExactPays(p, b1, x, call.now, call.cost * SCALE);
    }
  }

  /** Floors and claim rounding never lose accrual: whatever the exact bucket can
      pay for, the integer bucket permits. */
  lemma {:induction false} NeverStricter(p: Scaled, b: Bucket, x: Exact, h: seq<Call>)
    requires Covers(p, b, x) && Monotone(x.at, h)
    ensures forall i :: 0 <= i < |h| && ExactLevels(p, b, x, h)[i] >= h[i].cost * SCALE * NANOS_PER_SEC
                    ==> Decisions(p, b, h)[i]
    decreases h
  {
    if h != [] {
      var b', x' := Consume(b, p, h[0].now, h[0].cost).bucket, Charge(p, b, x, h[0]);
      CoversStep(p, b, x, h[0]);
      NeverStricter(p, b', x', h[1..]);
      forall i | 0 <= i < |h| && ExactLevels(p, b, x, h)[i] >= h[i].cost * SCALE * NANOS_PER_SEC
        ensures Decisions(p, b, h)[i]
      {
        if i > 0 {
          assert h[i] == h[1..][i - 1];
          assert ExactLevels(p, b, x, h)[i] == ExactLevels(p, b', x', h[1..])[i - 1];
          assert Decisions(p, b, h)[i] == Decisions(p, b', h[1..])[i - 1];
        }
      }
    }
  }

  /** How far the integer bucket may run ahead of the exact one after `k` claims. */
  function Lead(p: Scaled, k: nat): nat
    requires p.rate > 0
  {
    assert p.rate >= 1;
    NANOS_PER_SEC + p.rate + k * (p.rate - 1)
  }

  predicate CoveredBy(p: Scaled, b: Bucket, x: Exact, k: nat)
    requires p.rate > 0
  {
    WellFormed(p, b, x.at) && Potential(p, b, x.at) <= x.level + Lead(p, k)
  }

  lemma LeadGrows(p: Scaled, k: nat)
    requires p.rate > 0
    ensures Lead(p, k + 1) == Lead(p, k) + p.rate - 1
    ensures Lead(p, k) >= NANOS_PER_SEC + p.rate
  {
    MulMono(0, k, p.rate - 1);
    assert (k + 1) * (p.rate - 1) == k * (p.rate - 1) + (p.rate - 1);
  }

  function ClaimsAfter(p: Scaled, b: Bucket, now: u64, k: nat): nat {
    if Claiming(p, b, now) then k + 1 else k
  }

  lemma LeadAfterRefill(p: Scaled, b: Bucket, x: Exact, now: u64, k: nat)
    requires p.rate > 0 && CoveredBy(p, b, x, k) && x.at <= now
    requires Unclamped(now - b.last, p.rate)
    ensures Potential(p, Refill(b, p, now), now) <= Accrue(p, x, now) + Lead(p, ClaimsAfter(p, b, now, k))
  {
    LeadGrows(p, k);
    RefillStep(p, b, now);
    ClaimAccounting(now - b.last, p.rate);
    PotentialAdvances(p, b, x.at, x.at, now);
  }

  lemma CoveredByStep(p: Scaled, b: Bucket, x: Exact, call: Call, k: nat)
    requires p.rate > 0 && CoveredBy(p, b, x, k) && x.at <= call.now
    requires Unclamped(call.now - b.last, p.rate)
    ensures var k' := ClaimsAfter(p, b, call.now, k);
            && CoveredBy(p, Consume(b, p, call.now, call.cost).bucket, Charge(p, b, x, call), k')
            && (Consume(b, p, call.now, call.cost).permitted
                ==> Accrue(p, x, call.now) + Lead(p, k') >= call.cost * SCALE * NANOS_PER_SEC)
  {
    var b1 := b.(access := call.now);
    assert Refill(b1, p, call.now).last <= call.now && Refill(b1, p, call.now).tokens <= p.capacity by {
      RefillStep(p, b1, call.now);
    }
    LeadAfterRefill(p, b1, x, call.now, k);
    MulMono(0, call.now - Refill(b1, p, call.now).last, p.rate);
  }

  /** The other half of the sandwich: beyond the rounding slack of the claims so
      far, nothing is permitted that the exact bucket could not pay for. */
  lemma {:induction false} NeverLooser(p: Scaled, b: Bucket, x: Exact, h: seq<Call>, k: nat)
    requires p.rate > 0 && CoveredBy(p, b, x, k) && Monotone(x.at, h) && RunUnclamped(p, b, h)
    ensures forall i :: 0 <= i < |h| && Decisions(p, b, h)[i]
                    ==> ExactLevels(p, b, x, h)[i] + Lead(p, k + Claims(p, b, h))
                        >= h[i].cost * SCALE * NANOS_PER_SEC
    decreases h
  {
    if h != [] {
      var b', x' := Consume(b, p, h[0].now, h[0].cost).bucket, Charge(p, b, x, h[0]);
      var k' := ClaimsAfter(p, b, h[0].now, k);
      CoveredByStep(p, b, x, h[0], k);
      NeverLooser(p, b', x', h[1..], k');
      MulMono(k', k + Claims(p, b, h), p.rate - 1);
      forall i | 0 <= i < |h| && Decisions(p, b, h)[i]
        ensures ExactLevels(p, b, x, h)[i] + Lead(p, k + Claims(p, b, h)) >= h[i].cost * SCALE * NANOS_PER_SEC
      {
        if i > 0 {
          assert h[i] == h[1..][i - 1];
          assert ExactLevels(p, b, x, h)[i] == ExactLevels(p, b', x', h[1..])[i - 1];
          assert Decisions(p, b, h)[i] == Decisions(p, b', h[1..])[i - 1];
        }
      }
    }
  }

  /** Both halves, from the creation of a key. */
  lemma {:induction false} TracksExactBucket(p: Scaled, start: u64, h: seq<Call>)
    requires p.Valid() && p.rate > 0 && Monotone(start, h)
    ensures var b := Bucket(p.capacity, start, start);
            var levels := ExactLevels(p, b, Exact(p.capacity * NANOS_PER_SEC, start), h);
            forall i :: 0 <= i < |h| ==>
              && (levels[i] >= h[i].cost * SCALE * NANOS_PER_SEC ==> Decisions(p, b, h)[i])
              && (RunUnclamped(p, b, h) && Decisions(p, b, h)[i]
                  ==> levels[i] + Lead(p, Claims(p, b, h)) >= h[i].cost * SCALE * NANOS_PER_SEC)
  {
    var b := Bucket(p.capacity, start, start);
    var x := Exact(p.capacity * NANOS_PER_SEC, start);
    NeverStricter(p, b, x, h);
    if RunUnclamped(p, b, h) {
      NeverLooser(p, b, x, h, 0);
    }
  }
}
