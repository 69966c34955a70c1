/** Serialized runs of one probabilistic bucket, for every random stream and every
    start phase (src/algorithm/probabilistic_token_bucket.rs:126-194, 402-515). */
module ProbabilisticRuns {
  import opened Machine
  import opened Arithmetic
  import opened Internal
  import opened Probabilistic
  import TokenRuns

  type Call = TokenRuns.Call

  /** The state and the stream position that a history leaves behind, and its answers. */
  datatype Run = Run(bucket: Bucket, rng: Rng, answers: seq<Answer>)

  function RunOf(b: Bucket, p: Params, rng: Rng, h: seq<Call>): (run: Run)
    requires p.sampleRate >= 1
    ensures |run.answers| == |h|
    decreases h
  {
    if h == [] then Run(b, rng, [])
    else
      var a := Consume(b, p, h[0].now, h[0].cost, rng);
      var rest := RunOf(a.bucket, p, a.rng, h[1..]);
      Run(rest.bucket, rest.rng, [a] + rest.answers)
  }

  function EagerRunOf(b: Bucket, p: Params, rng: Rng, h: seq<Call>): (run: Run)
    requires p.sampleRate >= 1
    ensures |run.answers| == |h|
    decreases h
  {
    if h == [] then Run(b, rng, [])
    else
      var a := ConsumeEagerly(b, p, h[0].now, h[0].cost, rng);
      var rest := EagerRunOf(a.bucket, p, a.rng, h[1..]);
      Run(rest.bucket, rest.rng, [a] + rest.answers)
  }

  /** What a whole group of requests costs, in scaled tokens. */
  function GroupCost(p: Params, cost: u64): nat {
    MulMono(0, p.sampleRate, cost * SCALE);
    p.sampleRate * (cost * SCALE)
  }

  lemma GroupCostIsPositive(p: Params, cost: u64)
    requires p.sampleRate >= 1
    ensures GroupCost(p, cost) >= cost * SCALE
  {
    MulMono(1, p.sampleRate, cost * SCALE);
  }

  /** A lump is that cost, up to the largest `i64`. */
  lemma LumpIsGroupCost(p: Params, cost: u64)
    requires p.sampleRate >= 1
    ensures Lump(p, ScaledI(cost)) == Min(GroupCost(p, cost), I64_MAX)
  {
    if cost * SCALE > I64_MAX {
      MulMono(1, p.sampleRate, I64_MAX);
      MulMono(1, p.sampleRate, cost * SCALE);
    }
  }

  /** So a bucket holds as many lumps as groups, saturated or not. */
  lemma LumpsAreGroups(p: Params, cost: u64)
    requires p.Valid() && cost > 0
    ensures Lump(p, ScaledI(cost)) > 0 && GroupCost(p, cost) > 0
    ensures CeilDiv(p.capacity, Lump(p, ScaledI(cost))) == CeilDiv(p.capacity, GroupCost(p, cost))
    ensures p.capacity / Lump(p, ScaledI(cost)) == p.capacity / GroupCost(p, cost)
  {
    LumpIsGroupCost(p, cost);
    GroupCostIsPositive(p, cost);
    var group := GroupCost(p, cost);
    if group > I64_MAX {
      CeilOfOne(p.capacity, I64_MAX);
      CeilOfOne(p.capacity, group);
      FloorExactly(0, p.capacity, I64_MAX);
      FloorExactly(0, p.capacity, group);
    }
  }

  lemma CeilOfOne(x: nat, d: nat)
    requires x < d
    ensures CeilDiv(x, d) == if x == 0 then 0 else 1
  {
    CeilExactly(x, if x == 0 then 0 else 1, d);
  }

  // Admission and debit.

  /** Whether a request that draws this word is admitted. */
  predicate AdmitsWord(available: i64, ramp: i64, word: u64) {
    Admission(available, ramp, Rng(_ => word, 0)).0
  }

  /** The residues of a drawn word, modulo the ramp, that admit a request. */
  function AdmittingResidues(available: i64, ramp: i64): set<int> {
    set w | 0 <= w < ramp && AdmitsWord(available, ramp, w)
  }

  function Below(n: nat): (r: set<int>)
    ensures |r| == n && forall w :: w in r <==> 0 <= w < n
  {
    if n == 0 then {} else Below(n - 1) + {n - 1}
  }

  /** Of the `ramp` residues, as many admit as the bucket holds scaled tokens: admission
      grows in proportion to the level, from none at empty to all at the ramp. */
  lemma AdmissionIsProportional(available: i64, ramp: i64)
    requires ramp >= 1
    ensures |AdmittingResidues(available, ramp)| == Max(0, Min(available, ramp))
    ensures forall word: u64 :: AdmitsWord(available, ramp, word) <==> word % ramp in AdmittingResidues(available, ramp)
  {
    var size := Max(0, Min(available, ramp));
    forall w: int | 0 <= w < ramp ensures AdmitsWord(available, ramp, w) <==> w < size {
      FloorExactly(0, w, ramp);
    }
    assert AdmittingResidues(available, ramp) == Below(size);
    forall word: u64
      ensures AdmitsWord(available, ramp, word) <==> word % ramp in AdmittingResidues(available, ramp)
    {
      assert 0 <= word % ramp < ramp;
    }
  }

  /** What a sampled request pays is the expected cost of its group: the lump times the
      share of words that admit at the level it observed, rounded down. */
  lemma DebitIsExpectedCost(observed: i64, lump: i64, ramp: i64)
    requires 0 <= lump && 1 <= ramp
    ensures var share, debit := |AdmittingResidues(observed, ramp)|, Debit(observed, lump, ramp);
            debit * ramp <= lump * share < (debit + 1) * ramp
  {
    AdmissionIsProportional(observed, ramp);
    if 0 < observed < ramp {
      FloorBounds(lump * observed, ramp);
      assert (Debit(observed, lump, ramp) + 1) * ramp == Debit(observed, lump, ramp) * ramp + ramp;
    } else if observed >= ramp {
      assert (lump + 1) * ramp == lump * ramp + ramp;
    }
  }

  // The level.

  /** No call of the history debits more than `lump`. */
  predicate LumpsWithin(p: Params, h: seq<Call>, lump: i64) {
    forall i :: 0 <= i < |h| ==> Lump(p, ScaledI(h[i].cost)) <= lump
  }

  /** The deepest debt that a bucket of this capacity can be driven into. */
  function Depth(p: Params, lump: i64): int {
    Min(0, p.capacity - lump)
  }

  /** The proportional debit never takes a level below `ramp - lump`. */
  lemma DebitKeepsDepth(observed: i64, lump: i64, ramp: i64)
    requires 0 <= lump && 1 <= ramp && ramp <= Max(lump, 1)
    ensures observed > 0 ==> observed - Debit(observed, lump, ramp) >= Min(0, ramp - lump)
    ensures observed <= 0 ==> Debit(observed, lump, ramp) == 0
  {
    if 0 < observed < ramp {
      var d := Debit(observed, lump, ramp);
      FloorBounds(lump * observed, ramp);
      ProportionalDebt(observed, lump, ramp, d);
    }
  }

  lemma ProportionalDebt(observed: int, lump: int, ramp: int, d: int)
    requires 0 < observed < ramp <= lump && d * ramp <= lump * observed
    ensures d - observed <= lump - ramp
  {
    var most := observed + (lump - ramp);
    assert (most + 1) * ramp == observed * ramp + (lump - ramp) * ramp + ramp;
    assert lump * observed == observed * ramp + observed * (lump - ramp);
    MulMono(observed, ramp, lump - ramp);
    if d > most {
      MulMono(most + 1, d, ramp);
      assert false;
    }
  }

  lemma RefillKeepsRange(b: Bucket, p: Params, now: u64)
    requires p.Valid() && b.tokens <= p.capacity
    ensures b.tokens <= Refill(b, p, now).tokens <= p.capacity
    ensures Refill(b, p, now).tokens == Min(b.tokens + RefillTokensI(SatSub(now, b.last), p.rate), p.capacity)
    ensures b.last <= Refill(b, p, now).last <= Max(now, b.last)
  {
    if p.rate > 0 && now > b.last {
      var e := now - b.last;
      ClaimFitsElapsed(e, p.rate);
      var added := RefillTokensI(e, p.rate);
      if added < RefillTokens(e, p.rate) {
        FloorMono(added * NANOS_PER_SEC, RefillTokens(e, p.rate) * NANOS_PER_SEC, p.rate);
      }
    }
  }

  /** What a sampled request observes is never above what it then debits from. */
  lemma ObservedWithinRefill(b: Bucket, p: Params, now: u64, fraction: i64)
    requires p.Valid() && b.tokens <= p.capacity
    requires 0 <= fraction <= RefillTokensI(SatSub(now, b.last), p.rate)
    ensures Min(SatAddI(b.tokens, fraction), p.capacity) <= Refill(b, p, now).tokens
  {
    RefillKeepsRange(b, p, now);
  }

  lemma SampleKeepsLevel(b: Bucket, p: Params, now: u64, own: i64, rng: Rng, lump: i64)
    requires p.Valid() && 0 <= own <= lump
    requires Depth(p, lump) <= b.tokens <= p.capacity
    ensures Depth(p, lump) <= SampledAnswer(b, p, now, own, rng).bucket.tokens <= p.capacity
  {
    var (fraction, _) := RandomPart(RefillTokensI(SatSub(now, b.last), p.rate), rng);
    var observed := Min(SatAddI(b.tokens, fraction), p.capacity);
    RefillKeepsRange(b, p, now);
    ObservedWithinRefill(b, p, now, fraction);
    DebitKeepsDepth(observed, own, Ramp(p, own));
    SubtractWithin(Refill(b, p, now).tokens, observed, Debit(observed, own, Ramp(p, own)), p.capacity, Depth(p, lump));
  }

  lemma SubtractWithin(tokens: i64, observed: int, debit: i64, capacity: int, depth: int)
    requires depth <= 0 <= debit && depth <= tokens <= capacity <= I64_MAX && observed <= tokens
    requires observed > 0 ==> observed - debit >= depth
    requires observed <= 0 ==> debit == 0
    ensures depth <= SatSubI(tokens, debit) <= capacity
  {
  }

  lemma ExactKeepsLevel(b: Bucket, p: Params, now: u64, costScaled: i64, rng: Rng)
    requires p.Valid() && b.tokens <= p.capacity && costScaled >= 0
    ensures Min(0, b.tokens) <= ExactAnswer(b, p, now, costScaled, rng).bucket.tokens <= p.capacity
  {
    RefillKeepsRange(b, p, now);
  }

  lemma AnswerKeepsLevel(b: Bucket, p: Params, now: u64, cost: u64, rng: Rng, lump: i64)
    requires p.Valid() && Lump(p, ScaledI(cost)) <= lump
    requires Depth(p, lump) <= b.tokens <= p.capacity
    ensures Depth(p, lump) <= Consume(b, p, now, cost, rng).bucket.tokens <= p.capacity
  {
    var own := Lump(p, ScaledI(cost));
    if p.sampleRate <= 1 {
      ExactKeepsLevel(b, p, now, ScaledI(cost), rng);
    } else if Sampled(b, p) {
      OwnLumpIsNatural(p, ScaledI(cost));
      SampleKeepsLevel(Ticked(b), p, now, own, rng, lump);
    } else {
      UnsampledKeepsBucket(Ticked(b), p, now, own, rng);
    }
  }

  lemma OwnLumpIsNatural(p: Params, costScaled: i64)
    requires p.Valid() && costScaled >= 0
    ensures Lump(p, costScaled) >= 0
  {
    MulMono(0, costScaled, p.sampleRate);
  }

  lemma UnsampledKeepsBucket(b: Bucket, p: Params, now: u64, lump: i64, rng: Rng)
    ensures UnsampledAnswer(b, p, now, lump, rng).bucket == b
  {
  }

  /** Any mix of costs, any stream, any phase: the level stays between the depth of
      the largest lump and the capacity, so a bucket that can hold every lump is
      never in debt. */
  lemma {:induction false} LevelStaysInRange(b: Bucket, p: Params, rng: Rng, h: seq<Call>, lump: i64)
    requires p.Valid() && LumpsWithin(p, h, lump) && Depth(p, lump) <= b.tokens <= p.capacity
    ensures forall i :: 0 <= i < |h| ==>
              Depth(p, lump) <= RunOf(b, p, rng, h).answers[i].bucket.tokens <= p.capacity
    ensures Depth(p, lump) <= RunOf(b, p, rng, h).bucket.tokens <= p.capacity
    ensures p.capacity >= lump ==> RunOf(b, p, rng, h).bucket.tokens >= 0
    decreases h
  {
    if h != [] {
      AnswerKeepsLevel(b, p, h[0].now, h[0].cost, rng, lump);
      var a := Consume(b, p, h[0].now, h[0].cost, rng);
      LevelStaysInRange(a.bucket, p, a.rng, h[1..], lump);
    }
  }

  // The lazy clock.

  /** Skipping the clock changes nothing but how much refill `remaining` mentions. */
  ghost predicate LazyMatches(lazy: Answer, eager: Answer) {
    && lazy.bucket == eager.bucket && lazy.rng == eager.rng
    && lazy.permitted == eager.permitted && lazy.remaining <= eager.remaining
  }

  lemma LazyAnswerMatches(b: Bucket, p: Params, now: u64, cost: u64, rng: Rng)
    requires p.Valid() && b.tokens <= p.capacity
    ensures LazyMatches(Consume(b, p, now, cost, rng), ConsumeEagerly(b, p, now, cost, rng))
  {
    if p.sampleRate > 1 {
      var ramp := Ramp(p, Lump(p, ScaledI(cost)));
      if b.tokens >= ramp {
        assert Estimated(b, p, now) >= b.tokens;
        assert RemainingOf(b.tokens) <= RemainingOf(Estimated(b, p, now));
      }
    }
  }

  lemma CapacityIsKept(b: Bucket, p: Params, now: u64, cost: u64, rng: Rng)
    requires p.Valid() && b.tokens <= p.capacity
    ensures Consume(b, p, now, cost, rng).bucket.tokens <= p.capacity
  {
    RefillKeepsRange(b, p, now);
    RefillKeepsRange(Ticked(b), p, now);
  }

  /** The clock-skipping bucket answers every history like the one that always reads
      the clock, from the same draws, and leaves the same state. */
  lemma {:induction false} LazyClockRefinesEager(b: Bucket, p: Params, rng: Rng, h: seq<Call>)
    requires p.Valid() && b.tokens <= p.capacity
    ensures forall i :: 0 <= i < |h| ==>
              LazyMatches(RunOf(b, p, rng, h).answers[i], EagerRunOf(b, p, rng, h).answers[i])
    ensures RunOf(b, p, rng, h).bucket == EagerRunOf(b, p, rng, h).bucket
    ensures RunOf(b, p, rng, h).rng == EagerRunOf(b, p, rng, h).rng
    decreases h
  {
    if h != [] {
      LazyAnswerMatches(b, p, h[0].now, h[0].cost, rng);
      CapacityIsKept(b, p, h[0].now, h[0].cost, rng);
      var a := Consume(b, p, h[0].now, h[0].cost, rng);
      LazyClockRefinesEager(a.bucket, p, a.rng, h[1..]);
    }
  }

  // Bursts: fixed cost, and no time for a scaled token to accrue.

  predicate Burst(b: Bucket, p: Params, cost: u64, h: seq<Call>) {
    forall i :: 0 <= i < |h| ==> h[i].cost == cost && RefillTokensI(SatSub(h[i].now, b.last), p.rate) == 0
  }

  function Admitted(answers: seq<Answer>): nat {
    if answers == [] then 0 else (if answers[0].permitted then 1 else 0) + Admitted(answers[1..])
  }

  /** Requests until the next sampled one, were the tick not to wrap. */
  function UntilSample(b: Bucket, p: Params): nat
    requires p.sampleRate >= 1
  {
    if Sampled(b, p) then 0 else p.sampleRate - b.tick % p.sampleRate
  }

  /** How many full or partial lumps the level still holds. */
  function LumpsLeft(tokens: i64, lump: i64): nat
    requires lump > 0
  {
    if tokens <= 0 then 0 else CeilDiv(tokens, lump)
  }

  /** Upper bound on what a burst can still be granted. */
  function BurstLeft(b: Bucket, p: Params, lump: i64): nat
    requires p.sampleRate >= 1 && lump > 0
  {
    if b.tokens <= 0 then 0
    else
      LumpsLeftPositive(b.tokens, lump);
      MulMono(0, LumpsLeft(b.tokens, lump) - 1, p.sampleRate);
      UntilSample(b, p) + (LumpsLeft(b.tokens, lump) - 1) * p.sampleRate + 1
  }

  lemma LumpsLeftPositive(tokens: i64, lump: i64)
    requires tokens > 0 && lump > 0
    ensures LumpsLeft(tokens, lump) >= 1
    ensures tokens > lump ==> LumpsLeft(tokens - lump, lump) == LumpsLeft(tokens, lump) - 1
    ensures tokens <= lump ==> LumpsLeft(tokens, lump) == 1
  {
    var q := CeilDiv(tokens, lump);
    if q <= 0 {
      MulMono(q, 0, lump);
      assert false;
    }
    if tokens > lump {
      assert (tokens + lump - 1) == 1 * lump + (tokens - lump + lump - 1);
      FloorShift(1, tokens - lump + lump - 1, lump);
    } else {
      FloorExactly(1, tokens + lump - 1, lump);
    }
  }

  /** One tick brings the next sample one closer, and a wrap of the counter closer still. */
  lemma TickTowardsSample(b: Bucket, p: Params)
    requires p.sampleRate >= 1
    ensures Sampled(b, p) <==> UntilSample(b, p) == 0
    ensures !Sampled(b, p) ==> UntilSample(Ticked(b), p) <= UntilSample(b, p) - 1
    ensures !Sampled(b, p) && b.tick < U64_MAX ==> UntilSample(Ticked(b), p) == UntilSample(b, p) - 1
    ensures Sampled(b, p) ==> UntilSample(Ticked(b), p) <= p.sampleRate - 1
    ensures Sampled(b, p) && b.tick < U64_MAX ==> UntilSample(Ticked(b), p) == p.sampleRate - 1
  {
    if b.tick < U64_MAX {
      NextPhase(b.tick, p.sampleRate);
    }
  }

  lemma NextPhase(tick: nat, s: nat)
    requires s >= 1
    ensures (tick + 1) % s == if tick % s + 1 < s then tick % s + 1 else 0
  {
    var q, u := tick / s, tick % s;
    assert tick == q * s + u;
    if u + 1 < s {
      ModExactly(tick + 1, q, u + 1, s);
    } else {
      assert tick + 1 == (q + 1) * s + 0;
      ModExactly(tick + 1, q + 1, 0, s);
    }
  }

  lemma ModExactly(x: int, q: int, r: int, d: int)
    requires d > 0 && x == q * d + r && 0 <= r < d
    ensures x % d == r
  {
    FloorExactly(q, x, d);
  }

  /** One request of a burst uses up at least what it is granted. */
  lemma BurstStep(b: Bucket, p: Params, now: u64, cost: u64, rng: Rng, lump: i64)
    requires p.Valid() && p.sampleRate > 1 && lump == Lump(p, ScaledI(cost)) > 0
    requires b.tokens <= p.capacity && RefillTokensI(SatSub(now, b.last), p.rate) == 0
    ensures var a := Consume(b, p, now, cost, rng);
            && a.bucket.last == b.last && a.bucket.tokens <= b.tokens
            && (if a.permitted then 1 else 0) + BurstLeft(a.bucket, p, lump) <= BurstLeft(b, p, lump)
  {
    TickTowardsSample(b, p);
    var ramp := Ramp(p, lump);
    if b.tokens > 0 {
      LumpsLeftPositive(b.tokens, lump);
      var n := LumpsLeft(b.tokens, lump);
      MulMono(0, n - 1, p.sampleRate);
      if Sampled(b, p) {
        assert Estimated(b, p, now) == b.tokens;
        SampleUsesALump(b.tokens, lump, ramp);
        if n > 1 {
          assert (n - 1) * p.sampleRate == (n - 2) * p.sampleRate + p.sampleRate;
        }
      }
    } else if Sampled(b, p) {
      assert Debit(b.tokens, lump, ramp) == 0;
    }
  }

  lemma SampleUsesALump(tokens: i64, lump: i64, ramp: i64)
    requires 0 < tokens && 0 < lump && 1 <= ramp <= lump
    ensures tokens - Debit(tokens, lump, ramp) <= Max(0, tokens - lump)
  {
    if tokens < ramp {
      MulMono(ramp, lump, tokens);
      FloorAtLeast(tokens, lump * tokens, ramp);
    }
  }

  /** With no refill, whatever the stream and the phase, at most one group of
      requests per full or partial lump is admitted. */
  lemma {:induction false} BurstIsCapped(b: Bucket, p: Params, rng: Rng, cost: u64, h: seq<Call>)
    requires p.Valid() && p.sampleRate > 1 && cost > 0 && b.tokens <= p.capacity && Burst(b, p, cost, h)
    ensures Lump(p, ScaledI(cost)) > 0
    ensures Admitted(RunOf(b, p, rng, h).answers) <= BurstLeft(b, p, Lump(p, ScaledI(cost)))
    ensures BurstLeft(b, p, Lump(p, ScaledI(cost))) <= LumpsLeft(b.tokens, Lump(p, ScaledI(cost))) * p.sampleRate
    decreases h
  {
    PositiveLump(p, cost);
    var lump := Lump(p, ScaledI(cost));
    BurstLeftBound(b, p, lump);
    if h != [] {
      BurstStep(b, p, h[0].now, cost, rng, lump);
      var a := Consume(b, p, h[0].now, cost, rng);
      assert Burst(a.bucket, p, cost, h[1..]);
      BurstIsCapped(a.bucket, p, a.rng, cost, h[1..]);
      assert RunOf(b, p, rng, h).answers[1..] == RunOf(a.bucket, p, a.rng, h[1..]).answers;
    }
  }

  lemma BurstLeftBound(b: Bucket, p: Params, lump: i64)
    requires p.sampleRate >= 1 && lump > 0
    ensures BurstLeft(b, p, lump) <= LumpsLeft(b.tokens, lump) * p.sampleRate
  {
    if b.tokens > 0 {
      LumpsLeftPositive(b.tokens, lump);
      var n := LumpsLeft(b.tokens, lump);
      assert n * p.sampleRate == (n - 1) * p.sampleRate + p.sampleRate;
    }
  }

  lemma PositiveLump(p: Params, cost: u64)
    requires p.sampleRate >= 1 && cost > 0
    ensures Lump(p, ScaledI(cost)) >= ScaledI(cost) >= SCALE
  {
    MulMono(1, p.sampleRate, ScaledI(cost));
  }

  /** Requests that a level of `lumps` whole lumps is bound to admit before the
      sampled request that takes the last of them. */
  function Assured(b: Bucket, p: Params, lumps: nat): nat
    requires p.sampleRate >= 1
  {
    if lumps == 0 then 0
    else
      MulMono(0, lumps - 1, p.sampleRate);
      UntilSample(b, p) + (lumps - 1) * p.sampleRate + 1
  }

  lemma WholeLumpAdmits(b: Bucket, p: Params, now: u64, cost: u64, rng: Rng, lumps: nat)
    requires p.Valid() && p.sampleRate > 1 && cost > 0 && lumps > 0
    requires lumps * Lump(p, ScaledI(cost)) <= b.tokens <= p.capacity
    requires RefillTokensI(SatSub(now, b.last), p.rate) == 0 && b.tick < U64_MAX
    ensures var a := Consume(b, p, now, cost, rng);
            var lumps' := if Sampled(b, p) then lumps - 1 else lumps;
            && a.permitted && a.bucket.last == b.last && a.bucket.tick == b.tick + 1
            && lumps' * Lump(p, ScaledI(cost)) <= a.bucket.tokens <= p.capacity
            && Assured(b, p, lumps) <= 1 + Assured(a.bucket, p, lumps')
  {
    var lump := Lump(p, ScaledI(cost));
    PositiveLump(p, cost);
    TickTowardsSample(b, p);
    MulMono(1, lumps, lump);
    assert (lumps - 1) * lump == lumps * lump - lump;
    if lumps > 1 {
      assert (lumps - 1) * p.sampleRate == (lumps - 2) * p.sampleRate + p.sampleRate;
    }
    MulMono(0, lumps - 1, lump);
  }

  /** A full bucket grants a useful burst: without a wrap of the tick, the first
      `(lumps - 1) * sample_rate + 1` requests are all admitted, on every stream. */
  lemma {:induction false} BurstIsGranted(b: Bucket, p: Params, rng: Rng, cost: u64, h: seq<Call>, lumps: nat)
    requires p.Valid() && p.sampleRate > 1 && cost > 0 && Burst(b, p, cost, h)
    requires lumps * Lump(p, ScaledI(cost)) <= b.tokens <= p.capacity
    requires b.tick + |h| <= U64_MAX && |h| <= Assured(b, p, lumps)
    ensures forall i :: 0 <= i < |h| ==> RunOf(b, p, rng, h).answers[i].permitted
    decreases h
  {
    if h != [] {
      WholeLumpAdmits(b, p, h[0].now, cost, rng, lumps);
      var a := Consume(b, p, h[0].now, cost, rng);
      assert Burst(a.bucket, p, cost, h[1..]);
      BurstIsGranted(a.bucket, p, a.rng, cost, h[1..], if Sampled(b, p) then lumps - 1 else lumps);
    }
  }

  /** How many requests a key that starts at this phase serves before its first sampled one. */
  function BeforeSample(sampleRate: nat, phase: nat): nat
    requires sampleRate > 0
  {
    if phase % sampleRate == 0 then 0 else sampleRate - phase % sampleRate
  }

  lemma {:induction false} BurstWithinLumps(p: Params, start: u64, phase: u64, rng: Rng, cost: u64, h: seq<Call>)
    requires p.Valid() && p.sampleRate > 1 && cost > 0 && Burst(NewBucket(p, start, phase), p, cost, h)
    ensures var lump := Lump(p, ScaledI(cost));
            var answers := RunOf(NewBucket(p, start, phase), p, rng, h).answers;
            && lump > 0
            && Admitted(answers) <= CeilDiv(p.capacity, lump) * p.sampleRate
            && (p.capacity >= lump && phase + |h| <= U64_MAX
                && |h| <= BeforeSample(p.sampleRate, phase) + (p.capacity / lump - 1) * p.sampleRate + 1
                ==> forall i :: 0 <= i < |h| ==> answers[i].permitted)
  {
    var b, lump := NewBucket(p, start, phase), Lump(p, ScaledI(cost));
    BurstIsCapped(b, p, rng, cost, h);
    if p.capacity <= 0 {
      FloorExactly(0, lump - 1, lump);
    }
    if p.capacity >= lump && phase + |h| <= U64_MAX
       && |h| <= BeforeSample(p.sampleRate, phase) + (p.capacity / lump - 1) * p.sampleRate + 1 {
      FloorBounds(p.capacity, lump);
      FloorAtLeast(1, p.capacity, lump);
      BurstIsGranted(b, p, rng, cost, h, p.capacity / lump);
    }
  }

  /** So many groups of `sampleRate` requests cost less than so much. */
  lemma GroupsCost(p: Params, cost: u64, admitted: nat, groups: nat, others: nat)
    requires p.Valid() && cost > 0 && admitted <= (groups + others) * p.sampleRate
    requires groups == CeilDiv(p.capacity, GroupCost(p, cost))
    ensures admitted * (cost * SCALE) < p.capacity + (others + 1) * GroupCost(p, cost)
  {
    var each, group := cost * SCALE, GroupCost(p, cost);
    GroupCostIsPositive(p, cost);
    MulMono(admitted, (groups + others) * p.sampleRate, each);
    assert (groups + others) * p.sampleRate * each == (groups + others) * group;
    assert (groups + others) * group == (groups - 1) * group + (others + 1) * group;
  }

  /** Both bounds for a key that has just been created, in terms of what the requests cost:
      no refill, no stream and no phase get more than a group beyond the capacity out of
      it; and what comes before the first sampled request, all whole groups but one, and one
      more request are admitted for certain: `capacity / group` whole groups at the phase
      that samples the last request of each. */
  lemma {:induction false} BurstFromFull(p: Params, start: u64, phase: u64, rng: Rng, cost: u64, h: seq<Call>)
    requires p.Valid() && p.sampleRate > 1 && cost > 0 && Burst(NewBucket(p, start, phase), p, cost, h)
    ensures var group := p.sampleRate * (cost * SCALE);
            var answers := RunOf(NewBucket(p, start, phase), p, rng, h).answers;
            && group > 0
            && Admitted(answers) <= CeilDiv(p.capacity, group) * p.sampleRate
            && Admitted(answers) * (cost * SCALE) < p.capacity + group
            && (p.capacity >= group && phase + |h| <= U64_MAX
                && |h| <= BeforeSample(p.sampleRate, phase) + (p.capacity / group - 1) * p.sampleRate + 1
                ==> forall i :: 0 <= i < |h| ==> answers[i].permitted)
  {
    BurstWithinLumps(p, start, phase, rng, cost, h);
    LumpIsGroupCost(p, cost);
    LumpsAreGroups(p, cost);
    GroupsCost(p, cost, Admitted(RunOf(NewBucket(p, start, phase), p, rng, h).answers),
               CeilDiv(p.capacity, GroupCost(p, cost)), 0);
  }

  /** The level of a new key through any history of costs up to `cost`: never below what
      one group costs beyond the capacity, and never in debt if the bucket holds a group. */
  lemma {:induction false} LevelWithinGroup(p: Params, start: u64, phase: u64, rng: Rng, cost: u64, h: seq<Call>)
    requires p.Valid() && forall i :: 0 <= i < |h| ==> h[i].cost <= cost
    ensures var run := RunOf(NewBucket(p, start, phase), p, rng, h);
            var depth := Min(0, p.capacity - p.sampleRate * (cost * SCALE));
            && depth <= run.bucket.tokens <= p.capacity && p.capacity - I64_MAX <= run.bucket.tokens
            && forall i :: 0 <= i < |h| ==> depth <= run.answers[i].bucket.tokens <= p.capacity
  {
    var lump := Lump(p, ScaledI(cost));
    forall i | 0 <= i < |h| ensures Lump(p, ScaledI(h[i].cost)) <= lump {
      LumpGrows(p, h[i].cost, cost);
    }
    LumpIsGroupCost(p, cost);
    LevelStaysInRange(NewBucket(p, start, phase), p, rng, h, lump);
  }

  lemma LumpGrows(p: Params, cost: u64, more: u64)
    requires p.sampleRate >= 1 && cost <= more
    ensures Lump(p, ScaledI(cost)) <= Lump(p, ScaledI(more))
  {
    LumpIsGroupCost(p, cost);
    LumpIsGroupCost(p, more);
    MulMono(cost * SCALE, more * SCALE, p.sampleRate);
  }
}
