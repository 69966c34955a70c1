/** How many requests a burst can get out of a sampled bucket when any number of
    threads race and no time passes: one group of requests for each full or partial
    lump, and one more for each other thread
    (src/algorithm/probabilistic_token_bucket.rs:283-290, 426-514;
    tests/algo_shapes.rs:134-164). */
module ProbabilisticBurst {
  import opened Machine
  import opened Arithmetic
  import opened Internal
  import opened Probabilistic
  import opened ProbabilisticSteps
  import Runs = ProbabilisticRuns

  /** The clock stands still and every request costs the same. */
  predicate BurstAction(a: Action, cost: u64) {
    !a.Tick? && (a.Begin? ==> a.cost == cost)
  }

  function Admitted(log: seq<Outcome>): nat {
    if log == [] then 0
    else Admitted(log[..|log| - 1]) + if log[|log| - 1].permitted then 1 else 0
  }

  lemma {:induction false} AdmittedAppend(log: seq<Outcome>, o: Outcome)
    ensures Admitted(log + [o]) == Admitted(log) + if o.permitted then 1 else 0
  {
    assert (log + [o])[..|log|] == log;
  }

  function Groups(p: Params, lump: i64, threads: nat): int
    requires p.Valid() && lump > 0
  {
    CeilDiv(p.capacity, lump) + threads - 1
  }

  /** Which threads hold a sampled request that has not debited yet. */
  function SampleOf(pc: Pc): int {
    if pc.Sampling? || pc.SampleStart? || pc.SampleHalf? || pc.Refilling? || pc.Loaded? || pc.Crediting? || pc.Debiting?
    then 1 else 0
  }

  predicate IsEarly(pc: Pc, bound: int) {
    !pc.Idle? && pc.req.position <= bound
  }

  /** Counts the threads whose request is among the first `bound`. */
  function Early(bound: int): Pc -> int {
    pc => if IsEarly(pc, bound) then 1 else 0
  }

  predicate RequestOk(p: Params, cost: u64, s: State, req: Request) {
    && req.lump == Lump(p, ScaledI(cost)) && req.ramp == Ramp(p, req.lump)
    && req.position <= s.started && req.position <= req.samplesBefore * p.sampleRate + p.sampleRate
    && req.samplesBefore <= s.sampled
  }

  /** A sampled request holds a level no lower than the present one, and whoever
      holds a positive level is among the first `bound` requests. */
  predicate HeldOk(p: Params, s: State, req: Request, level: i64, bound: int) {
    s.tokens <= level <= p.capacity && (level > 0 ==> req.position <= bound)
  }

  predicate ThreadOk(p: Params, cost: u64, bound: int, s: State, pc: Pc) {
    && (!pc.Idle? ==> RequestOk(p, cost, s, pc.req))
    && (SampleOf(pc) == 1 ==> pc.req.samplesBefore + 1 <= s.sampled)
    && match pc
       case EstimateHalf(req, now, seen, _) => now <= s.clock && HeldOk(p, s, req, seen, bound)
       case SampleHalf(req, now, seen, _) => now <= s.clock && HeldOk(p, s, req, seen, bound)
       case Refilling(req, now, observed, _) => now <= s.clock && HeldOk(p, s, req, observed, bound)
       case Debiting(req, observed, _) => HeldOk(p, s, req, observed, bound)
       case EstimateStart(_, now) => now <= s.clock
       case SampleStart(_, now) => now <= s.clock
       case Loaded(_, _, _, _, _) => false
       case Crediting(_, _, _, _) => false
       case _ => true
  }

  predicate ThreadsOk(p: Params, cost: u64, bound: int, s: State) {
    forall t :: 0 <= t < |s.threads| ==> ThreadOk(p, cost, bound, s, s.threads[t])
  }

  /** Requests since the last sampled one, at most. */
  function SinceSample(p: Params, tick: u64): int
    requires p.sampleRate >= 1
  {
    if tick % p.sampleRate == 0 then p.sampleRate - 1 else tick % p.sampleRate - 1
  }

  predicate Inv(p: Params, cost: u64, bound: int, s: State) {
    && p.Valid() && s.threads != [] && cost > 0 && Lump(p, ScaledI(cost)) > 0
    && bound == Groups(p, Lump(p, ScaledI(cost)), |s.threads|) * p.sampleRate
    && s.last == s.clock && s.tokens <= p.capacity
    && (s.tokens > 0 ==> s.tokens == p.capacity - s.debited * Lump(p, ScaledI(cost)))
    && s.sampled == s.debited + Sum(s.threads, SampleOf)
    && s.started <= s.sampled * p.sampleRate + SinceSample(p, s.tick)
    && ThreadsOk(p, cost, bound, s)
    && Admitted(s.log) + Sum(s.threads, Early(bound)) <= Min(s.started, bound)
  }

  lemma NoAccrual(p: Params, now: u64, last: u64)
    requires now <= last
    ensures RefillTokensI(SatSub(now, last), p.rate) == 0
  {
  }

  // Counting.

  lemma SamplesInFlight(s: State, t: nat)
    requires t < |s.threads|
    ensures 0 <= Sum(s.threads, SampleOf) <= |s.threads|
    ensures SampleOf(s.threads[t]) == 0 ==> Sum(s.threads, SampleOf) <= |s.threads| - 1
  {
    SumBounds(s.threads, SampleOf, 1);
    if SampleOf(s.threads[t]) == 0 {
      SumOfOthers(s.threads, SampleOf, 1, t);
    }
  }

  /** While the level is positive, fewer lumps than the capacity holds were debited,
      and every other sampled request is still in some thread's hands; so a request
      that finds a positive level is an early one. */
  lemma PositiveLevelIsEarly(p: Params, cost: u64, bound: int, s: State, t: nat)
    requires Inv(p, cost, bound, s) && t < |s.threads| && !s.threads[t].Idle? && s.tokens > 0
    ensures s.threads[t].req.position <= bound
  {
    var lump := Lump(p, ScaledI(cost));
    var req := s.threads[t].req;
    assert ThreadOk(p, cost, bound, s, s.threads[t]);
    SamplesInFlight(s, t);
    FewerLumps(s.debited, p.capacity, lump);
    InEarlyGroup(req.samplesBefore, Groups(p, lump, |s.threads|), p.sampleRate);
  }

  lemma InEarlyGroup(samplesBefore: nat, groups: int, sampleRate: nat)
    requires samplesBefore + 1 <= groups
    ensures samplesBefore * sampleRate + sampleRate <= groups * sampleRate
  {
    MulMono(samplesBefore + 1, groups, sampleRate);
  }

  lemma FewerLumps(lumps: nat, capacity: nat, lump: nat)
    requires lump > 0 && lumps * lump < capacity
    ensures lumps <= CeilDiv(capacity, lump) - 1
  {
    if lumps >= CeilDiv(capacity, lump) {
      MulMono(CeilDiv(capacity, lump), lumps, lump);
      assert false;
    }
  }

  // Steps.

  lemma OthersStayOk(p: Params, cost: u64, bound: int, s: State, s': State, t: nat)
    requires ThreadsOk(p, cost, bound, s) && t < |s.threads| && |s'.threads| == |s.threads|
    requires s'.threads == s.threads[t := s'.threads[t]] && ThreadOk(p, cost, bound, s', s'.threads[t])
    requires s'.tokens <= s.tokens && s.started <= s'.started && s.sampled <= s'.sampled && s'.clock == s.clock
    ensures ThreadsOk(p, cost, bound, s')
  {
    forall u | 0 <= u < |s'.threads| ensures ThreadOk(p, cost, bound, s', s'.threads[u]) {
      if u != t {
        assert ThreadOk(p, cost, bound, s, s.threads[u]);
      }
    }
  }

  /** A step within a request: nothing shared changes. */
  lemma MoveKeepsInv(p: Params, cost: u64, bound: int, s: State, t: nat, pc: Pc)
    requires Inv(p, cost, bound, s) && t < |s.threads| && !s.threads[t].Idle? && !pc.Idle?
    requires pc.req == s.threads[t].req && SampleOf(pc) == SampleOf(s.threads[t])
    requires ThreadOk(p, cost, bound, s, pc)
    ensures Inv(p, cost, bound, Move(s, t, pc))
  {
    var s' := Move(s, t, pc);
    OthersStayOk(p, cost, bound, s, s', t);
    SumUpdate(s.threads, t, pc, SampleOf);
    SumUpdate(s.threads, t, pc, Early(bound));
  }

  /** An unsampled request that ends: if it was admitted, it was an early one. */
  lemma FinishKeepsInv(p: Params, cost: u64, bound: int, s: State, t: nat, o: Outcome)
    requires Inv(p, cost, bound, s) && t < |s.threads| && !s.threads[t].Idle? && SampleOf(s.threads[t]) == 0
    requires o.permitted ==> s.threads[t].req.position <= bound
    ensures Inv(p, cost, bound, Finish(s, t, o))
  {
    OthersStayOk(p, cost, bound, s, Finish(s, t, o), t);
    SumUpdate(s.threads, t, Idle, SampleOf);
    SumUpdate(s.threads, t, Idle, Early(bound));
    AdmittedAppend(s.log, o);
  }

  lemma NextSinceSample(p: Params, tick: u64)
    requires p.sampleRate >= 1
    ensures var tick' := (tick + 1) % (U64_MAX + 1);
            && 0 <= SinceSample(p, tick') <= p.sampleRate - 1
            && (tick % p.sampleRate != 0 ==> SinceSample(p, tick) + 1 <= SinceSample(p, tick'))
  {
    var s := p.sampleRate;
    assert 0 <= tick % s < s;
    if tick < U64_MAX {
      Runs.NextPhase(tick, s);
    } else {
      Runs.ModExactly(0, 0, 0, s);
    }
  }

  /** The count of requests keeps up with the count of samples, wrap included. */
  lemma StartKeepsPace(p: Params, tick: u64, started: nat, sampled: nat)
    requires p.sampleRate >= 1 && started <= sampled * p.sampleRate + SinceSample(p, tick)
    ensures var tick' := (tick + 1) % (U64_MAX + 1);
            var sampled' := sampled + if tick % p.sampleRate == 0 then 1 else 0;
            started + 1 <= sampled' * p.sampleRate + SinceSample(p, tick')
    ensures started + 1 <= sampled * p.sampleRate + p.sampleRate
  {
    NextSinceSample(p, tick);
    assert 0 <= tick % p.sampleRate < p.sampleRate;
    assert (sampled + 1) * p.sampleRate == sampled * p.sampleRate + p.sampleRate;
  }

  lemma BeginStep(p: Params, cost: u64, bound: int, s: State, t: nat)
    requires Inv(p, cost, bound, s) && t < |s.threads| && s.threads[t].Idle?
    ensures Inv(p, cost, bound, BeginNext(p, s, t, cost))
  {
    var s' := BeginNext(p, s, t, cost);
    StartKeepsPace(p, s.tick, s.started, s.sampled);
    OthersStayOk(p, cost, bound, s, s', t);
    SumUpdate(s.threads, t, s'.threads[t], SampleOf);
    SumUpdate(s.threads, t, s'.threads[t], Early(bound));
  }

  lemma FastLoadStep(p: Params, cost: u64, bound: int, s: State, t: nat)
    requires Inv(p, cost, bound, s) && t < |s.threads| && s.threads[t].Unsampled?
    ensures Inv(p, cost, bound, Next(p, s, FastLoad(t)))
  {
    var req := s.threads[t].req;
    assert ThreadOk(p, cost, bound, s, s.threads[t]);
    if s.tokens >= req.ramp {
      PositiveLevelIsEarly(p, cost, bound, s, t);
      FinishKeepsInv(p, cost, bound, s, t, Outcome(req.position, s.tokens, Worth(p, s), true));
    } else {
      MoveKeepsInv(p, cost, bound, s, t, Undecided(req));
    }
  }

  lemma LoadTokensStep(p: Params, cost: u64, bound: int, s: State, t: nat)
    requires Inv(p, cost, bound, s) && Enabled(s, LoadTokens(t))
    ensures Inv(p, cost, bound, Next(p, s, LoadTokens(t)))
  {
    assert ThreadOk(p, cost, bound, s, s.threads[t]);
    if s.tokens > 0 {
      PositiveLevelIsEarly(p, cost, bound, s, t);
    }
    MoveKeepsInv(p, cost, bound, s, t, Next(p, s, LoadTokens(t)).threads[t]);
  }

  lemma LoadLastStep(p: Params, cost: u64, bound: int, s: State, t: nat, word: u64)
    requires Inv(p, cost, bound, s) && Enabled(s, LoadLast(t, word))
    ensures Inv(p, cost, bound, LoadLastNext(p, s, t, word))
  {
    var pc := s.threads[t];
    assert ThreadOk(p, cost, bound, s, pc);
    NoAccrual(p, pc.now, s.last);
    assert Available(p, pc.seen, 0) == pc.seen;
    if pc.EstimateHalf? {
      FinishKeepsInv(p, cost, bound, s, t,
                     Outcome(pc.req.position, pc.seen, pc.worth, Admits(pc.seen, pc.req.ramp, word)));
    } else {
      MoveKeepsInv(p, cost, bound, s, t, Refilling(pc.req, pc.now, pc.seen, pc.worth));
    }
  }

  /** A debit that leaves the level positive is a whole lump. */
  lemma PositiveAfterDebit(p: Params, lump: i64, tokens: i64, observed: i64, debited: nat)
    requires p.Valid() && lump > 0 && tokens <= observed <= p.capacity
    requires tokens > 0 ==> tokens == p.capacity - debited * lump
    ensures var left := SatSubI(tokens, Debit(observed, lump, Ramp(p, lump)));
            left <= tokens && (left > 0 ==> left == p.capacity - (debited + 1) * lump)
  {
    var ramp := Ramp(p, lump);
    var d := Debit(observed, lump, ramp);
    assert (debited + 1) * lump == debited * lump + lump;
    if tokens - d > 0 && observed < ramp {
      if lump <= p.capacity {
        FloorExactly(observed, lump * observed, lump);
        assert false;
      } else if debited > 0 {
        MulMono(1, debited, lump);
        assert false;
      } else {
        assert false;
      }
    }
  }

  lemma DebitStep(p: Params, cost: u64, bound: int, s: State, t: nat, word: u64)
    requires Inv(p, cost, bound, s) && t < |s.threads| && s.threads[t].Debiting?
    ensures Inv(p, cost, bound, DebitNext(s, t, word))
  {
    var pc, s' := s.threads[t], DebitNext(s, t, word);
    assert ThreadOk(p, cost, bound, s, pc);
    PositiveAfterDebit(p, pc.req.lump, s.tokens, pc.observed, s.debited);
    OthersStayOk(p, cost, bound, s, s', t);
    SumUpdate(s.threads, t, Idle, SampleOf);
    SumUpdate(s.threads, t, Idle, Early(bound));
    AdmittedAppend(s.log, s'.log[|s.log|]);
  }

  lemma ReadClockStep(p: Params, cost: u64, bound: int, s: State, t: nat, now: u64)
    requires Inv(p, cost, bound, s) && Enabled(s, ReadClock(t, now))
    ensures Inv(p, cost, bound, Next(p, s, ReadClock(t, now)))
  {
    assert ThreadOk(p, cost, bound, s, s.threads[t]);
    MoveKeepsInv(p, cost, bound, s, t, Next(p, s, ReadClock(t, now)).threads[t]);
  }

  lemma RefillLoadStep(p: Params, cost: u64, bound: int, s: State, t: nat)
    requires Inv(p, cost, bound, s) && t < |s.threads| && s.threads[t].Refilling?
    ensures Inv(p, cost, bound, Next(p, s, RefillLoad(t)))
  {
    var pc := s.threads[t];
    assert ThreadOk(p, cost, bound, s, pc);
    NoAccrual(p, pc.now, s.last);
    MoveKeepsInv(p, cost, bound, s, t, Debiting(pc.req, pc.observed, pc.worth));
  }

  /** While no time passes no thread has anything to claim. */
  lemma NeverClaims(p: Params, cost: u64, bound: int, s: State, t: nat)
    requires Inv(p, cost, bound, s) && t < |s.threads|
    ensures !s.threads[t].Loaded? && !s.threads[t].Crediting?
  {
    assert ThreadOk(p, cost, bound, s, s.threads[t]);
  }

  lemma StepKeepsInv(p: Params, cost: u64, bound: int, s: State, a: Action)
    requires Inv(p, cost, bound, s) && Enabled(s, a) && BurstAction(a, cost)
    ensures Inv(p, cost, bound, Next(p, s, a))
  {
    NeverClaims(p, cost, bound, s, a.thread);
    match a
    case Begin(t, _) => BeginStep(p, cost, bound, s, t);
    case FastLoad(t) => FastLoadStep(p, cost, bound, s, t);
    case ReadClock(t, now) => ReadClockStep(p, cost, bound, s, t, now);
    case LoadTokens(t) => LoadTokensStep(p, cost, bound, s, t);
    case LoadLast(t, word) => LoadLastStep(p, cost, bound, s, t, word);
    case RefillLoad(t) => RefillLoadStep(p, cost, bound, s, t);
    case ClaimCas(_, _) =>
    case Credit(_) =>
    case DebitAndDecide(t, word) => DebitStep(p, cost, bound, s, t, word);
  }

  lemma {:induction false} RunKeepsInv(p: Params, cost: u64, bound: int, s: State, schedule: seq<Action>)
    requires Inv(p, cost, bound, s) && Feasible(p, s, schedule)
    requires forall i :: 0 <= i < |schedule| ==> BurstAction(schedule[i], cost)
    ensures Inv(p, cost, bound, Exec(p, s, schedule))
    decreases schedule
  {
    if schedule != [] {
      assert BurstAction(schedule[0], cost);
      StepKeepsInv(p, cost, bound, s, schedule[0]);
      RunKeepsInv(p, cost, bound, Next(p, s, schedule[0]), schedule[1..]);
    }
  }

  lemma InitialInv(p: Params, cost: u64, threads: nat, start: u64, phase: u64)
    requires p.Valid() && threads >= 1 && cost > 0 && Lump(p, ScaledI(cost)) > 0
    ensures Inv(p, cost, Groups(p, Lump(p, ScaledI(cost)), threads) * p.sampleRate, Initial(p, threads, start, phase))
  {
    var s, groups := Initial(p, threads, start, phase), Groups(p, Lump(p, ScaledI(cost)), threads);
    MulMono(0, groups, p.sampleRate);
    SumOfIdle(s.threads, SampleOf);
    SumOfIdle(s.threads, Early(groups * p.sampleRate));
    assert 0 <= phase % p.sampleRate;
  }

  lemma AdmittedWithinBound(p: Params, cost: u64, bound: int, s: State)
    requires Inv(p, cost, bound, s)
    ensures Admitted(s.log) <= bound
  {
    forall t | 0 <= t < |s.threads| ensures 0 <= Early(bound)(s.threads[t]) <= 1 {
    }
    SumBounds(s.threads, Early(bound), 1);
  }

  lemma {:induction false} AdmittedWithinGroups(
      p: Params, cost: u64, threads: nat, start: u64, phase: u64, schedule: seq<Action>)
    requires p.Valid() && threads >= 1 && cost > 0 && Lump(p, ScaledI(cost)) > 0
    requires Feasible(p, Initial(p, threads, start, phase), schedule)
    requires forall i :: 0 <= i < |schedule| ==> BurstAction(schedule[i], cost)
    ensures Admitted(Exec(p, Initial(p, threads, start, phase), schedule).log)
         <= Groups(p, Lump(p, ScaledI(cost)), threads) * p.sampleRate
  {
    var s, bound := Initial(p, threads, start, phase), Groups(p, Lump(p, ScaledI(cost)), threads) * p.sampleRate;
    InitialInv(p, cost, threads, start, phase);
    RunKeepsInv(p, cost, bound, s, schedule);
    AdmittedWithinBound(p, cost, bound, Exec(p, s, schedule));
  }

  /** No interleaving of any number of threads, no start phase (the tick may wrap) and
      no random words get more than `ceil(capacity / group) + threads - 1` groups of
      `sample_rate` requests out of one capacity, where a group costs what its requests
      do: less than one group for each thread beyond the capacity. */
  lemma {:induction false} ConcurrentBurstIsCapped(
      p: Params, cost: u64, threads: nat, start: u64, phase: u64, schedule: seq<Action>)
    requires p.Valid() && threads >= 1 && cost > 0
    requires Feasible(p, Initial(p, threads, start, phase), schedule)
    requires forall i :: 0 <= i < |schedule| ==> BurstAction(schedule[i], cost)
    ensures var group := p.sampleRate * (cost * SCALE);
            var admitted := Admitted(Exec(p, Initial(p, threads, start, phase), schedule).log);
            && group > 0
            && admitted <= (CeilDiv(p.capacity, group) + threads - 1) * p.sampleRate
            && admitted * (cost * SCALE) < p.capacity + threads * group
  {
    var s := Exec(p, Initial(p, threads, start, phase), schedule);
    Runs.LumpsAreGroups(p, cost);
    AdmittedWithinGroups(p, cost, threads, start, phase, schedule);
    Runs.GroupsCost(p, cost, Admitted(s.log), CeilDiv(p.capacity, Runs.GroupCost(p, cost)), threads - 1);
  }
}
