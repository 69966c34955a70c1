/** The debt bound and the burst bound cannot be improved: for any number of threads
    one interleaving, in which no time passes, reaches both
    (src/algorithm/probabilistic_token_bucket.rs:249-261, 426-514). */
module ProbabilisticTight {
  import opened Machine
  import opened Arithmetic
  import opened Internal
  import opened Probabilistic
  import opened ProbabilisticSteps
  import PB = ProbabilisticBurst
  import PD = ProbabilisticDebt
  import PR = ProbabilisticRuns

  predicate RunsTo(p: Params, cost: u64, s: State, schedule: seq<Action>, s': State)
    requires p.Valid()
  {
    && Feasible(p, s, schedule) && Exec(p, s, schedule) == s'
    && (forall a :: a in schedule ==> PB.BurstAction(a, cost))
  }

  /** By requests of this cost alone, while no time passes. */
  ghost predicate Reaches(p: Params, cost: u64, s: State, s': State)
    requires p.Valid()
  {
    exists schedule :: RunsTo(p, cost, s, schedule, s')
  }

  lemma ReachesNow(p: Params, cost: u64, s: State)
    requires p.Valid()
    ensures Reaches(p, cost, s, s)
  {
    assert RunsTo(p, cost, s, [], s);
  }

  lemma {:induction false} RunsOn(p: Params, cost: u64, s: State, front: seq<Action>, s1: State, a: Action)
    requires p.Valid() && RunsTo(p, cost, s, front, s1) && Enabled(s1, a) && PB.BurstAction(a, cost)
    ensures RunsTo(p, cost, s, front + [a], Next(p, s1, a))
    decreases front
  {
    if front == [] {
      assert front + [a] == [a] && [a][1..] == [];
    } else {
      assert (front + [a])[1..] == front[1..] + [a];
      RunsOn(p, cost, Next(p, s, front[0]), front[1..], s1, a);
    }
  }

  lemma Step(p: Params, cost: u64, s: State, s1: State, a: Action) returns (s2: State)
    requires p.Valid() && Reaches(p, cost, s, s1) && Enabled(s1, a) && PB.BurstAction(a, cost)
    ensures s2 == Next(p, s1, a) && Reaches(p, cost, s, s2)
  {
    var front :| RunsTo(p, cost, s, front, s1);
    RunsOn(p, cost, s, front, s1, a);
    s2 := Next(p, s1, a);
  }

  /** A sampled request that saw a full bucket and has everything but its debit behind it. */
  predicate Ready(p: Params, lump: nat, pc: Pc) {
    && lump <= I64_MAX
    && pc.Debiting? && pc.observed == p.capacity && pc.req.lump == lump && pc.req.ramp == Ramp(p, lump)
  }

  /** The threads from `m` up to `n` are ready, the others have nothing to do. */
  predicate Armed(p: Params, lump: nat, s: State, m: nat, n: nat, level: int) {
    && m <= n <= |s.threads| && s.tokens == level && s.last == s.clock
    && (forall t :: m <= t < n ==> Ready(p, lump, s.threads[t]))
    && (forall t :: 0 <= t < |s.threads| && !(m <= t < n) ==> s.threads[t].Idle?)
  }

  predicate Scene(p: Params, cost: u64, lump: nat) {
    && p.Valid() && p.sampleRate > 1 && p.capacity >= 1
    && cost > 0 && 1 <= lump <= I64_MAX && lump == Lump(p, ScaledI(cost))
  }

  /** An unsampled request at a level that covers the ramp is admitted at once. */
  lemma PassFast(p: Params, cost: u64, lump: nat, origin: State, s: State, n: nat, level: int) returns (s': State)
    requires Scene(p, cost, lump) && Reaches(p, cost, origin, s) && Armed(p, lump, s, 0, n, level)
    requires n < |s.threads| && level >= Ramp(p, lump) && s.tick % p.sampleRate != 0 && s.tick < U64_MAX
    ensures Reaches(p, cost, origin, s') && Armed(p, lump, s', 0, n, level) && |s'.threads| == |s.threads|
    ensures s'.tick == s.tick + 1 && PB.Admitted(s'.log) == PB.Admitted(s.log) + 1
  {
    var s1 := Step(p, cost, origin, s, Begin(n, cost));
    s' := Step(p, cost, origin, s1, FastLoad(n));
    PB.AdmittedAppend(s.log, s'.log[|s.log|]);
  }

  /** Below that the request turns to the clock and an estimate. */
  lemma StartEstimate(p: Params, cost: u64, lump: nat, origin: State, s: State, n: nat, level: int) returns (s': State)
    requires Scene(p, cost, lump) && Reaches(p, cost, origin, s) && Armed(p, lump, s, 0, n, level)
    requires n < |s.threads| && level < Ramp(p, lump) && s.tick % p.sampleRate != 0 && s.tick < U64_MAX
    ensures Reaches(p, cost, origin, s')
    ensures |s'.threads| == |s.threads| && s'.threads == s.threads[n := s'.threads[n]]
    ensures s'.threads[n].EstimateStart? && s'.threads[n].now == s.clock && s'.threads[n].req.ramp == Ramp(p, lump)
    ensures s'.tick == s.tick + 1 && s'.log == s.log && s'.tokens == s.tokens
    ensures s'.last == s.last && s'.clock == s.clock
  {
    var s1 := Step(p, cost, origin, s, Begin(n, cost));
    var s2 := Step(p, cost, origin, s1, FastLoad(n));
    s' := Step(p, cost, origin, s2, ReadClock(n, s.clock));
  }

  /** It is admitted when the word is small enough. */
  lemma PassEstimated(p: Params, cost: u64, lump: nat, origin: State, s: State, n: nat, level: int) returns (s': State)
    requires Scene(p, cost, lump) && Reaches(p, cost, origin, s) && Armed(p, lump, s, 0, n, level)
    requires n < |s.threads| && 0 < level < Ramp(p, lump) && s.tick % p.sampleRate != 0 && s.tick < U64_MAX
    ensures Reaches(p, cost, origin, s') && Armed(p, lump, s', 0, n, level) && |s'.threads| == |s.threads|
    ensures s'.tick == s.tick + 1 && PB.Admitted(s'.log) == PB.Admitted(s.log) + 1
  {
    var s1 := StartEstimate(p, cost, lump, origin, s, n, level);
    var s2 := Step(p, cost, origin, s1, LoadTokens(n));
    s' := Step(p, cost, origin, s2, LoadLast(n, Ramp(p, lump)));
    PB.AdmittedAppend(s.log, s'.log[|s.log|]);
  }

  /** The rest of group `g` is admitted and only moves the tick. */
  lemma {:induction false} PassGroup(p: Params, cost: u64, lump: nat, origin: State, s: State, n: nat,
          level: int, g: nat, k: nat)
      returns (s': State)
    requires Scene(p, cost, lump) && Reaches(p, cost, origin, s) && Armed(p, lump, s, 0, n, level)
    requires n < |s.threads| && 0 < level <= p.capacity
    requires 0 < k <= p.sampleRate && (g + 1) * p.sampleRate < U64_MAX && s.tick == g * p.sampleRate + k
    ensures Reaches(p, cost, origin, s') && Armed(p, lump, s', 0, n, level) && |s'.threads| == |s.threads|
    ensures s'.tick == (g + 1) * p.sampleRate
    ensures PB.Admitted(s'.log) == PB.Admitted(s.log) + p.sampleRate - k
    decreases p.sampleRate - k
  {
    assert (g + 1) * p.sampleRate == g * p.sampleRate + p.sampleRate;
    if k == p.sampleRate {
      s' := s;
    } else {
      PR.ModExactly(s.tick, g, k, p.sampleRate);
      var s1;
      if level >= Ramp(p, lump) {
        s1 := PassFast(p, cost, lump, origin, s, n, level);
      } else {
        s1 := PassEstimated(p, cost, lump, origin, s, n, level);
      }
      s' := PassGroup(p, cost, lump, origin, s1, n, level, g, k + 1);
    }
  }

  /** One thread takes a sampled request up to its debit. */
  lemma Observe(p: Params, cost: u64, lump: nat, origin: State, s: State, n: nat, level: int) returns (s': State)
    requires Scene(p, cost, lump) && Reaches(p, cost, origin, s) && Armed(p, lump, s, 0, n, level)
    requires n < |s.threads| && 0 < level <= p.capacity && s.tick % p.sampleRate == 0 && s.tick < U64_MAX
    ensures Reaches(p, cost, origin, s')
    ensures |s'.threads| == |s.threads| && s'.threads == s.threads[n := s'.threads[n]] && s'.threads[n].Debiting?
    ensures var pc := s'.threads[n];
            pc.observed == level && pc.req.lump == lump && pc.req.ramp == Ramp(p, lump)
    ensures s'.tick == s.tick + 1 && s'.log == s.log && s'.tokens == s.tokens
    ensures s'.last == s.last && s'.clock == s.clock
  {
    var s1 := Step(p, cost, origin, s, Begin(n, cost));
    var s2 := Step(p, cost, origin, s1, ReadClock(n, s.clock));
    var s3 := Step(p, cost, origin, s2, LoadTokens(n));
    var s4 := Step(p, cost, origin, s3, LoadLast(n, Ramp(p, lump)));
    s' := Step(p, cost, origin, s4, RefillLoad(n));
  }

  /** All but the last thread get ready on the full level. */
  lemma {:induction false} ArmAll(p: Params, cost: u64, lump: nat, origin: State, s: State, n: nat) returns (s': State)
    requires Scene(p, cost, lump) && Reaches(p, cost, origin, s)
    requires Armed(p, lump, s, 0, n, p.capacity) && n < |s.threads|
    requires s.tick == n * p.sampleRate + 1 && |s.threads| * p.sampleRate < U64_MAX
    requires PB.Admitted(s.log) == n * (p.sampleRate - 1)
    ensures |s'.threads| == |s.threads|
    ensures Reaches(p, cost, origin, s') && Armed(p, lump, s', 0, |s.threads| - 1, p.capacity)
    ensures s'.tick == (|s.threads| - 1) * p.sampleRate + 1
    ensures PB.Admitted(s'.log) == (|s.threads| - 1) * (p.sampleRate - 1)
    decreases |s.threads| - n
  {
    if n == |s.threads| - 1 {
      s' := s;
    } else {
      MulMono(n + 1, |s.threads|, p.sampleRate);
      var s1 := PassGroup(p, cost, lump, origin, s, n, p.capacity, n, 1);
      PR.ModExactly(s1.tick, n + 1, 0, p.sampleRate);
      var s2 := Observe(p, cost, lump, origin, s1, n, p.capacity);
      assert (n + 1) * (p.sampleRate - 1) == n * (p.sampleRate - 1) + p.sampleRate - 1;
      s' := ArmAll(p, cost, lump, origin, s2, n + 1);
    }
  }

  /** What one more group leaves: whole lumps while they fit, then the rest, or a whole
      lump from a bucket smaller than that. */
  function LevelAfterGroup(lump: nat, capacity: int, level: int): int {
    if level >= Min(lump, capacity) then level - lump else 0
  }

  /** The last thread has one more group admitted and pays for it. */
  lemma DrainGroup(p: Params, cost: u64, lump: nat, origin: State, s: State, n: nat, level: int,
          g: nat) returns (s': State)
    requires Scene(p, cost, lump) && Reaches(p, cost, origin, s) && Armed(p, lump, s, 0, n, level) && n < |s.threads|
    requires 0 < level <= p.capacity && (lump <= p.capacity || level == p.capacity)
    requires s.tick == g * p.sampleRate + 1 && (g + 1) * p.sampleRate < U64_MAX
    ensures Reaches(p, cost, origin, s') && Armed(p, lump, s', 0, n, LevelAfterGroup(lump, p.capacity, level))
    ensures |s'.threads| == |s.threads| && s'.tick == (g + 1) * p.sampleRate + 1
    ensures PB.Admitted(s'.log) == PB.Admitted(s.log) + p.sampleRate
  {
    var s1 := PassGroup(p, cost, lump, origin, s, n, level, g, 1);
    PR.ModExactly(s1.tick, g + 1, 0, p.sampleRate);
    var s2 := Observe(p, cost, lump, origin, s1, n, level);
    s' := Step(p, cost, origin, s2, DebitAndDecide(n, Ramp(p, lump)));
    DebitOfGroup(p, lump, level);
    PB.AdmittedAppend(s2.log, s'.log[|s2.log|]);
  }

  lemma DebitOfGroup(p: Params, lump: nat, level: i64)
    requires p.Valid() && 1 <= lump <= I64_MAX && 0 < level <= p.capacity && (lump <= p.capacity || level == p.capacity)
    ensures level - Debit(level, lump, Ramp(p, lump)) == LevelAfterGroup(lump, p.capacity, level)
  {
    if level < lump <= p.capacity {
      FloorExactly(level, lump * level, lump);
    }
  }

  /** How many groups drain a level. */
  function GroupsIn(lump: nat, level: int): (k: nat)
    requires lump > 0
    ensures k >= 1
    decreases level
  {
    if level <= lump then 1 else GroupsIn(lump, level - lump) + 1
  }

  lemma {:induction false} GroupsAreCeil(lump: nat, level: nat)
    requires lump > 0 && level > 0
    ensures GroupsIn(lump, level) == CeilDiv(level, lump)
    decreases level
  {
    if level <= lump {
      CeilExactly(level, 1, lump);
    } else {
      GroupsAreCeil(lump, level - lump);
      CeilOfOneMore(level - lump, lump);
    }
  }

  /** The last thread is about to drain group `g` of `end`, after which `admitted`
      requests will have been admitted. */
  predicate Draining(p: Params, lump: nat, s: State, n: nat, level: int, g: nat, end: nat, admitted: int) {
    && Armed(p, lump, s, 0, n, level) && n < |s.threads|
    && 1 <= lump && 0 < level <= p.capacity && (lump <= p.capacity || level == p.capacity)
    && end == g + GroupsIn(lump, level) && end * p.sampleRate < U64_MAX && s.tick == g * p.sampleRate + 1
    && admitted == PB.Admitted(s.log) + (end - g) * p.sampleRate
  }

  predicate Drained(p: Params, lump: nat, s: State, n: nat, admitted: int) {
    Armed(p, lump, s, 0, n, Min(0, p.capacity - lump)) && PB.Admitted(s.log) == admitted
  }

  lemma DrainOne(p: Params, cost: u64, lump: nat, origin: State, s: State, n: nat, level: int, g: nat,
          end: nat, admitted: int)
      returns (s': State)
    requires Scene(p, cost, lump) && Reaches(p, cost, origin, s) && Draining(p, lump, s, n, level, g, end, admitted)
    ensures Reaches(p, cost, origin, s') && |s'.threads| == |s.threads|
    ensures if level <= lump then Drained(p, lump, s', n, admitted)
            else Draining(p, lump, s', n, level - lump, g + 1, end, admitted)
  {
    MulMono(g + 1, end, p.sampleRate);
    OneMore(end - g, p.sampleRate);
    s' := DrainGroup(p, cost, lump, origin, s, n, level, g);
  }

  /** Group by group until nothing is left to admit on. */
  lemma {:induction false} DrainAll(
      p: Params, cost: u64, lump: nat, origin: State, s: State, n: nat, level: int, g: nat, end: nat, admitted: int)
      returns (s': State)
    requires Scene(p, cost, lump) && Reaches(p, cost, origin, s) && Draining(p, lump, s, n, level, g, end, admitted)
    ensures Reaches(p, cost, origin, s') && |s'.threads| == |s.threads| && Drained(p, lump, s', n, admitted)
    decreases level
  {
    s' := DrainOne(p, cost, lump, origin, s, n, level, g, end, admitted);
    if level > lump {
      s' := DrainAll(p, cost, lump, origin, s', n, level - lump, g + 1, end, admitted);
    }
  }

  /** A ready thread pays its lump. */
  lemma Pay(p: Params, cost: u64, lump: nat, origin: State, s: State, m: nat, n: nat, level: int) returns (s': State)
    requires Scene(p, cost, lump) && Reaches(p, cost, origin, s) && Armed(p, lump, s, m, n, level)
    requires m < n && level - lump >= I64_MIN
    ensures Reaches(p, cost, origin, s') && Armed(p, lump, s', m + 1, n, level - lump)
    ensures |s'.threads| == |s.threads| && PB.Admitted(s'.log) == PB.Admitted(s.log) + 1
  {
    s' := Step(p, cost, origin, s, DebitAndDecide(m, Ramp(p, lump)));
    PB.AdmittedAppend(s.log, s'.log[|s.log|]);
  }

  lemma {:induction false} PayAll(
      p: Params, cost: u64, lump: nat, origin: State, s: State, m: nat, n: nat, level: int, floor: int)
      returns (s': State)
    requires Scene(p, cost, lump) && Reaches(p, cost, origin, s) && Armed(p, lump, s, m, n, level)
    requires floor == level - (n - m) * lump && floor >= I64_MIN
    ensures Reaches(p, cost, origin, s') && Armed(p, lump, s', n, n, floor)
    ensures |s'.threads| == |s.threads| && PB.Admitted(s'.log) == PB.Admitted(s.log) + n - m
    decreases n - m
  {
    if m == n {
      s' := s;
    } else {
      OneMore(n - m, lump);
      MulMono(0, n - m - 1, lump);
      var s1 := Pay(p, cost, lump, origin, s, m, n, level);
      s' := PayAll(p, cost, lump, origin, s1, m + 1, n, level - lump, floor);
    }
  }

  lemma ArmAndDrain(p: Params, cost: u64, lump: nat, threads: nat, start: u64) returns (s: State)
    requires Scene(p, cost, lump) && threads >= 1
    requires (GroupsIn(lump, p.capacity) + threads - 1) * p.sampleRate < U64_MAX
    ensures Reaches(p, cost, Initial(p, threads, start, 1), s) && |s.threads| == threads
    ensures Drained(p, lump, s, threads - 1, (GroupsIn(lump, p.capacity) + threads - 1) * p.sampleRate - (threads - 1))
  {
    var origin, others, groups := Initial(p, threads, start, 1), threads - 1, GroupsIn(lump, p.capacity);
    MulMono(threads, groups + others, p.sampleRate);
    ReachesNow(p, cost, origin);
    var s1 := ArmAll(p, cost, lump, origin, origin, 0);
    AllGroups(groups, others, p.sampleRate);
    s := DrainAll(p, cost, lump, origin, s1, others, p.capacity, others, groups + others,
                  (groups + others) * p.sampleRate - others);
  }

  lemma LumpBoundsReached(p: Params, cost: u64, lump: nat, threads: nat, start: u64) returns (s: State)
    requires Scene(p, cost, lump) && threads >= 1
    requires (CeilDiv(p.capacity, lump) + threads - 1) * p.sampleRate < U64_MAX
    requires PD.DebtFloor(p, threads, lump) >= I64_MIN
    ensures Reaches(p, cost, Initial(p, threads, start, 1), s)
    ensures Effective(p, s) == PD.DebtFloor(p, threads, lump) * NANOS_PER_SEC
    ensures PB.Admitted(s.log) == (CeilDiv(p.capacity, lump) + threads - 1) * p.sampleRate
  {
    GroupsAreCeil(lump, p.capacity);
    var s1 := ArmAndDrain(p, cost, lump, threads, start);
    s := PayAll(p, cost, lump, Initial(p, threads, start, 1), s1, 0, threads - 1,
                Min(0, p.capacity - lump), PD.DebtFloor(p, threads, lump));
    NothingOutstanding(p, s);
  }

  /** All threads but one can load the full level before any of them debits, and the
      last one drain the bucket meanwhile. That reaches the floor of
      `ConcurrentDebtBound` and the count of `ConcurrentBurstIsCapped` at once, for any
      number of threads, any cost, and any sampling rate above 1 that fit the words. */
  lemma BoundsAreReached(p: Params, cost: u64, threads: nat, start: u64) returns (s: State)
    requires p.Valid() && p.sampleRate > 1 && p.capacity >= 1 && cost > 0 && threads >= 1
    requires 1 <= p.sampleRate * (cost * SCALE) <= I64_MAX
    requires (CeilDiv(p.capacity, p.sampleRate * (cost * SCALE)) + threads - 1) * p.sampleRate < U64_MAX
    requires Deepest(p, threads, p.sampleRate * (cost * SCALE)) >= I64_MIN
    ensures Reaches(p, cost, Initial(p, threads, start, 1), s)
    ensures var group := p.sampleRate * (cost * SCALE);
            && Effective(p, s) == Deepest(p, threads, group) * NANOS_PER_SEC
            && PB.Admitted(s.log) == (CeilDiv(p.capacity, group) + threads - 1) * p.sampleRate
  {
    PR.LumpIsGroupCost(p, cost);
    s := LumpBoundsReached(p, cost, p.sampleRate * (cost * SCALE), threads, start);
  }

  /** What one group costs for each other thread, plus what one costs beyond the capacity. */
  function Deepest(p: Params, threads: nat, group: nat): int {
    -((threads - 1) * group) + Min(0, p.capacity - group)
  }

  lemma NothingOutstanding(p: Params, s: State)
    requires s.last == s.clock && forall t :: 0 <= t < |s.threads| ==> s.threads[t].Idle?
    ensures Effective(p, s) == s.tokens * NANOS_PER_SEC
  {
    SumOfIdle(s.threads, Owed);
  }

  lemma AllGroups(groups: nat, others: nat, rate: nat)
    ensures others * (rate - 1) + (groups + others - others) * rate == (groups + others) * rate - others
  {
  }
}
