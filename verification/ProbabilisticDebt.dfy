/** How deep concurrent sampled requests can drive the level, and why a racing
    reader never counts an interval twice
    (src/algorithm/probabilistic_token_bucket.rs:249-261, 299-356, 467-509). */
module ProbabilisticDebt {
  import opened Machine
  import opened Arithmetic
  import opened Internal
  import opened Probabilistic
  import opened ProbabilisticSteps
  import PR = ProbabilisticRuns

  /** The lowest effective level, in scaled tokens: one lump for each other thread,
      and the part of a lump that the bucket itself cannot hold. */
  function DebtFloor(p: Params, threads: nat, lump: nat): int {
    -((threads - 1) * lump) + Min(0, p.capacity - lump)
  }

  predicate RequestOk(p: Params, lump: nat, req: Request) {
    req.lump <= lump && req.ramp == Ramp(p, req.lump)
  }

  /** A level already loaded, with whatever its clock still shows as unclaimed, is
      worth no more than the bucket was when the level was loaded. */
  predicate HalfOk(p: Params, s: State, now: u64, seen: i64, worth: int) {
    now <= s.clock && seen <= p.capacity && seen * NANOS_PER_SEC + SatSub(now, s.last) * p.rate <= worth
  }

  predicate ObservedOk(p: Params, observed: i64, worth: int) {
    observed <= p.capacity && observed * NANOS_PER_SEC <= worth
  }

  predicate ThreadOk(p: Params, lump: nat, s: State, pc: Pc) {
    && (!pc.Idle? ==> RequestOk(p, lump, pc.req))
    && match pc
       case EstimateStart(_, now) => now <= s.clock
       case SampleStart(_, now) => now <= s.clock
       case EstimateHalf(_, now, seen, worth) => HalfOk(p, s, now, seen, worth)
       case SampleHalf(_, now, seen, worth) => HalfOk(p, s, now, seen, worth)
       case Refilling(_, now, observed, worth) => now <= s.clock && ObservedOk(p, observed, worth)
       case Loaded(_, now, observed, worth, last) =>
         now <= s.clock && last < now && ObservedOk(p, observed, worth)
       case Crediting(_, observed, worth, added) => added >= 0 && ObservedOk(p, observed, worth)
       case Debiting(_, observed, worth) => ObservedOk(p, observed, worth)
       case _ => true
  }

  predicate ThreadsOk(p: Params, lump: nat, s: State) {
    forall t :: 0 <= t < |s.threads| ==> ThreadOk(p, lump, s, s.threads[t])
  }

  predicate LogOk(log: seq<Outcome>) {
    forall i :: 0 <= i < |log| ==> log[i].available * NANOS_PER_SEC <= log[i].worth
  }

  predicate Inv(p: Params, lump: nat, s: State) {
    && p.Valid() && s.threads != []
    && s.tokens <= p.capacity && s.last <= s.clock
    && ThreadsOk(p, lump, s) && LogOk(s.log)
    && Effective(p, s) - Sum(s.threads, Guard) >= DebtFloor(p, |s.threads|, lump) * NANOS_PER_SEC
  }

  // Arithmetic of guards and debits.

  lemma GuardWithinLump(worth: int, lump: i64, ramp: i64)
    requires 0 <= lump && 1 <= ramp
    ensures 0 <= GuardOf(worth, lump, ramp) <= lump * NANOS_PER_SEC
  {
    if 0 < worth < ramp * NANOS_PER_SEC {
      MulMono(0, worth, lump);
      FloorAtLeast(0, lump * worth, ramp);
      MulMono(worth, ramp * NANOS_PER_SEC, lump);
      assert (ramp * NANOS_PER_SEC) * lump == (lump * NANOS_PER_SEC) * ramp;
      FloorMono(lump * worth, (lump * NANOS_PER_SEC) * ramp, ramp);
      FloorExactly(lump * NANOS_PER_SEC, (lump * NANOS_PER_SEC) * ramp, ramp);
    }
  }

  /** Whatever a request may debit leaves the level it saw above `ramp - lump`. */
  lemma GuardKeepsDepth(worth: int, lump: i64, ramp: i64)
    requires 0 <= lump && 1 <= ramp <= Max(lump, 1) && worth > 0
    ensures worth - GuardOf(worth, lump, ramp) >= Min(0, ramp - lump) * NANOS_PER_SEC
  {
    if worth < ramp * NANOS_PER_SEC {
      if lump == 0 {
        FloorExactly(0, 0, ramp);
      } else {
        var g := GuardOf(worth, lump, ramp);
        FloorBounds(lump * worth, ramp);
        GuardExcess(worth, lump, ramp, g);
      }
    }
  }

  lemma GuardExcess(worth: int, lump: int, ramp: int, g: int)
    requires 1 <= ramp <= lump && 0 < worth < ramp * NANOS_PER_SEC && g * ramp <= lump * worth
    ensures g - worth <= (lump - ramp) * NANOS_PER_SEC
  {
    var most := worth + (lump - ramp) * NANOS_PER_SEC;
    assert (most + 1) * ramp == worth * ramp + (lump - ramp) * (ramp * NANOS_PER_SEC) + ramp;
    assert lump * worth == worth * ramp + worth * (lump - ramp);
    MulMono(worth, ramp * NANOS_PER_SEC, lump - ramp);
    if g > most {
      MulMono(most + 1, g, ramp);
      assert false;
    }
  }

  lemma DebitWithinGuard(observed: i64, worth: int, lump: i64, ramp: i64)
    requires 0 <= lump && 1 <= ramp && observed * NANOS_PER_SEC <= worth
    ensures Debit(observed, lump, ramp) * NANOS_PER_SEC <= GuardOf(worth, lump, ramp)
  {
    GuardWithinLump(worth, lump, ramp);
    if 0 < observed < ramp && worth < ramp * NANOS_PER_SEC {
      var d := Debit(observed, lump, ramp);
      FloorBounds(lump * observed, ramp);
      MulMono(d * ramp, lump * observed, NANOS_PER_SEC);
      MulMono(observed * NANOS_PER_SEC, worth, lump);
      assert (d * NANOS_PER_SEC) * ramp <= lump * worth;
      FloorAtLeast(d * NANOS_PER_SEC, lump * worth, ramp);
    }
  }

  lemma GuardBounds(p: Params, lump: nat, s: State)
    requires ThreadsOk(p, lump, s)
    ensures forall t :: 0 <= t < |s.threads| ==> 0 <= Guard(s.threads[t]) <= lump * NANOS_PER_SEC
  {
    forall t | 0 <= t < |s.threads| ensures 0 <= Guard(s.threads[t]) <= lump * NANOS_PER_SEC {
      var pc := s.threads[t];
      assert ThreadOk(p, lump, s, pc);
      if Guard(pc) != 0 {
        GuardWithinLump(pc.worth, pc.req.lump, pc.req.ramp);
      }
    }
  }

  lemma OwedBounds(p: Params, lump: nat, s: State)
    requires ThreadsOk(p, lump, s)
    ensures Sum(s.threads, Owed) >= 0
  {
    forall t | 0 <= t < |s.threads| ensures 0 <= Owed(s.threads[t]) <= I64_MAX {
      assert ThreadOk(p, lump, s, s.threads[t]);
    }
    SumBounds(s.threads, Owed, I64_MAX);
  }

  lemma ClaimKeepsWorth(e: u64, r: u64)
    requires r > 0
    ensures var added := RefillTokensI(e, r);
            0 <= NanosForTokensI(added, r) <= e && NanosForTokensI(added, r) * r <= added * NANOS_PER_SEC
  {
    ClaimFitsElapsed(e, r);
    var added := RefillTokensI(e, r);
    if added > 0 {
      FloorMono(added * NANOS_PER_SEC, RefillTokens(e, r) * NANOS_PER_SEC, r);
      FloorBounds(added * NANOS_PER_SEC, r);
      FloorAtLeast(0, added * NANOS_PER_SEC, r);
    }
  }

  // Steps.

  lemma OthersStayOk(p: Params, lump: nat, s: State, s': State, t: nat)
    requires ThreadsOk(p, lump, s) && t < |s.threads| && |s'.threads| == |s.threads|
    requires s'.threads == s.threads[t := s'.threads[t]] && ThreadOk(p, lump, s', s'.threads[t])
    requires s.last <= s'.last && s.clock <= s'.clock && 0 <= p.rate
    ensures ThreadsOk(p, lump, s')
  {
    forall u | 0 <= u < |s'.threads| ensures ThreadOk(p, lump, s', s'.threads[u]) {
      if u != t {
        LaterStaysOk(p, lump, s, s', s.threads[u]);
      }
    }
  }

  lemma LaterStaysOk(p: Params, lump: nat, s: State, s': State, pc: Pc)
    requires ThreadOk(p, lump, s, pc) && s.last <= s'.last && s.clock <= s'.clock
    ensures ThreadOk(p, lump, s', pc)
  {
    if pc.EstimateHalf? || pc.SampleHalf? {
      MulMono(SatSub(pc.now, s'.last), SatSub(pc.now, s.last), p.rate);
    }
  }

  /** A step that loses nothing but what its thread's guard already covered. */
  lemma MoveKeepsInv(p: Params, lump: nat, s: State, s': State, t: nat)
    requires Inv(p, lump, s) && t < |s.threads| && |s'.threads| == |s.threads|
    requires s'.threads == s.threads[t := s'.threads[t]] && ThreadOk(p, lump, s', s'.threads[t])
    requires s.last <= s'.last <= s'.clock && s.clock <= s'.clock && s'.tokens <= p.capacity && LogOk(s'.log)
    requires Worth(p, s') + Owed(s'.threads[t]) * NANOS_PER_SEC - Guard(s'.threads[t])
          >= Worth(p, s) + Owed(s.threads[t]) * NANOS_PER_SEC - Guard(s.threads[t])
    ensures Inv(p, lump, s')
  {
    OthersStayOk(p, lump, s, s', t);
    SumUpdate(s.threads, t, s'.threads[t], Owed);
    SumUpdate(s.threads, t, s'.threads[t], Guard);
  }

  lemma TickStep(p: Params, lump: nat, s: State, nanos: nat)
    requires Inv(p, lump, s) && s.clock + nanos <= U64_MAX
    ensures Inv(p, lump, s.(clock := s.clock + nanos))
  {
    var s' := s.(clock := s.clock + nanos);
    forall u | 0 <= u < |s.threads| ensures ThreadOk(p, lump, s', s.threads[u]) {
      LaterStaysOk(p, lump, s, s', s.threads[u]);
    }
    MulMono(s.clock - s.last, s'.clock - s.last, p.rate);
  }

  lemma BeginStep(p: Params, lump: nat, s: State, t: nat, cost: u64)
    requires Inv(p, lump, s) && t < |s.threads| && s.threads[t].Idle?
    requires Lump(p, ScaledI(cost)) <= lump
    ensures Inv(p, lump, BeginNext(p, s, t, cost))
  {
    MoveKeepsInv(p, lump, s, BeginNext(p, s, t, cost), t);
  }

  lemma FastLoadStep(p: Params, lump: nat, s: State, t: nat)
    requires Inv(p, lump, s) && t < |s.threads| && s.threads[t].Unsampled?
    ensures Inv(p, lump, Next(p, s, FastLoad(t)))
  {
    assert ThreadOk(p, lump, s, s.threads[t]);
    MulMono(0, s.clock - s.last, p.rate);
    MoveKeepsInv(p, lump, s, Next(p, s, FastLoad(t)), t);
  }

  lemma ReadClockStep(p: Params, lump: nat, s: State, t: nat, now: u64)
    requires Inv(p, lump, s) && Enabled(s, ReadClock(t, now))
    ensures Inv(p, lump, Next(p, s, ReadClock(t, now)))
  {
    assert ThreadOk(p, lump, s, s.threads[t]);
    MoveKeepsInv(p, lump, s, Next(p, s, ReadClock(t, now)), t);
  }

  lemma LoadEstimateStep(p: Params, lump: nat, s: State, t: nat)
    requires Inv(p, lump, s) && t < |s.threads| && s.threads[t].EstimateStart?
    ensures Inv(p, lump, Next(p, s, LoadTokens(t)))
  {
    assert ThreadOk(p, lump, s, s.threads[t]);
    LoadedWorth(p, s, s.threads[t].now);
    MoveKeepsInv(p, lump, s, Next(p, s, LoadTokens(t)), t);
  }

  /** Loading the level commits a sampled request to a debit of at most what it saw. */
  lemma LoadSampleStep(p: Params, lump: nat, s: State, t: nat)
    requires Inv(p, lump, s) && t < |s.threads| && s.threads[t].SampleStart?
    ensures Inv(p, lump, Next(p, s, LoadTokens(t)))
  {
    var s' := Next(p, s, LoadTokens(t));
    assert ThreadOk(p, lump, s, s.threads[t]);
    LoadedWorth(p, s, s.threads[t].now);
    LoadCommits(p, lump, s, t);
    OthersStayOk(p, lump, s, s', t);
    SumUpdate(s.threads, t, s'.threads[t], Owed);
    SumUpdate(s.threads, t, s'.threads[t], Guard);
  }

  lemma LoadedWorth(p: Params, s: State, now: u64)
    requires p.Valid() && now <= s.clock && s.last <= s.clock && s.tokens <= p.capacity
    ensures HalfOk(p, s, now, s.tokens, Worth(p, s))
  {
    MulMono(SatSub(now, s.last), s.clock - s.last, p.rate);
  }

  lemma LoadCommits(p: Params, lump: nat, s: State, t: nat)
    requires Inv(p, lump, s) && t < |s.threads| && s.threads[t].SampleStart?
    ensures var req := s.threads[t].req;
            Effective(p, s) - Sum(s.threads, Guard) - GuardOf(Worth(p, s), req.lump, req.ramp)
            >= DebtFloor(p, |s.threads|, lump) * NANOS_PER_SEC
  {
    assert ThreadOk(p, lump, s, s.threads[t]);
    GuardBounds(p, lump, s);
    OwedBounds(p, lump, s);
    SumOfOthers(s.threads, Guard, lump * NANOS_PER_SEC, t);
    LumpsInNanos(|s.threads| - 1, lump);
    CommitKeepsFloor(p, lump, |s.threads|, Worth(p, s), s.threads[t].req);
  }

  lemma LumpsInNanos(k: int, lump: nat)
    ensures k * (lump * NANOS_PER_SEC) == (k * lump) * NANOS_PER_SEC
  {
  }

  lemma CommitKeepsFloor(p: Params, lump: nat, threads: nat, worth: int, req: Request)
    requires p.Valid() && threads >= 1 && RequestOk(p, lump, req)
    ensures (worth > 0
             ==> worth - GuardOf(worth, req.lump, req.ramp) - ((threads - 1) * lump) * NANOS_PER_SEC
                 >= DebtFloor(p, threads, lump) * NANOS_PER_SEC)
    ensures worth <= 0 ==> GuardOf(worth, req.lump, req.ramp) == 0
  {
    if worth > 0 {
      GuardKeepsDepth(worth, req.lump, req.ramp);
      assert Min(0, req.ramp - req.lump) >= Min(0, p.capacity - lump);
    }
  }

  /** The second load: what the two words make is worth no more than the bucket was
      at the first. */
  lemma SecondLoadIsSafe(p: Params, s: State, now: u64, seen: i64, worth: int, part: i64)
    requires p.Valid() && HalfOk(p, s, now, seen, worth)
    requires 0 <= part <= RefillTokensI(SatSub(now, s.last), p.rate)
    ensures ObservedOk(p, Available(p, seen, part), worth)
  {
    RefillFloor(SatSub(now, s.last), p.rate);
  }

  lemma LoadLastStep(p: Params, lump: nat, s: State, t: nat, word: u64)
    requires Inv(p, lump, s) && Enabled(s, LoadLast(t, word))
    ensures Inv(p, lump, LoadLastNext(p, s, t, word))
  {
    var pc := s.threads[t];
    assert ThreadOk(p, lump, s, pc);
    var accrued := RefillTokensI(SatSub(pc.now, s.last), p.rate);
    SecondLoadIsSafe(p, s, pc.now, pc.seen, pc.worth, if pc.EstimateHalf? then accrued else PartOf(accrued, word));
    MoveKeepsInv(p, lump, s, LoadLastNext(p, s, t, word), t);
  }

  lemma RefillLoadStep(p: Params, lump: nat, s: State, t: nat)
    requires Inv(p, lump, s) && t < |s.threads| && s.threads[t].Refilling?
    ensures Inv(p, lump, Next(p, s, RefillLoad(t)))
  {
    assert ThreadOk(p, lump, s, s.threads[t]);
    MoveKeepsInv(p, lump, s, Next(p, s, RefillLoad(t)), t);
  }

  lemma ClaimStep(p: Params, lump: nat, s: State, t: nat, spurious: bool)
    requires Inv(p, lump, s) && t < |s.threads| && s.threads[t].Loaded?
    ensures Inv(p, lump, ClaimNext(p, s, t, spurious))
  {
    var s' := ClaimNext(p, s, t, spurious);
    var pc := s.threads[t];
    assert ThreadOk(p, lump, s, pc);
    if !spurious && s.last == pc.last && p.rate > 0 {
      ClaimConservesWorth(p, s, pc.now);
    }
    MoveKeepsInv(p, lump, s, s', t);
  }

  lemma ClaimConservesWorth(p: Params, s: State, now: u64)
    requires p.Valid() && p.rate > 0 && s.last < now <= s.clock
    ensures var added := RefillTokensI(now - s.last, p.rate);
            var s' := s.(last := SatAdd(s.last, NanosForTokensI(added, p.rate)));
            s.last <= s'.last <= now && Worth(p, s') + added * NANOS_PER_SEC >= Worth(p, s)
  {
    ClaimKeepsWorth(now - s.last, p.rate);
    var c := NanosForTokensI(RefillTokensI(now - s.last, p.rate), p.rate);
    assert (s.clock - (s.last + c)) * p.rate == (s.clock - s.last) * p.rate - c * p.rate;
  }

  lemma CreditStep(p: Params, lump: nat, s: State, t: nat)
    requires Inv(p, lump, s) && t < |s.threads| && s.threads[t].Crediting?
    ensures Inv(p, lump, Next(p, s, Credit(t)))
  {
    var s' := Next(p, s, Credit(t));
    var added := s.threads[t].added;
    assert ThreadOk(p, lump, s, s.threads[t]);
    if s'.tokens == s.tokens + added {
      MoveKeepsInv(p, lump, s, s', t);
    } else {
      assert s'.tokens == p.capacity;
      OthersStayOk(p, lump, s, s', t);
      FullBucketKeepsFloor(p, lump, s');
    }
  }

  /** A full bucket covers the debits of every thread down to the floor. */
  lemma FullBucketKeepsFloor(p: Params, lump: nat, s: State)
    requires p.Valid() && s.threads != [] && ThreadsOk(p, lump, s) && s.tokens == p.capacity && s.last <= s.clock
    ensures Effective(p, s) - Sum(s.threads, Guard) >= DebtFloor(p, |s.threads|, lump) * NANOS_PER_SEC
  {
    GuardBounds(p, lump, s);
    OwedBounds(p, lump, s);
    SumBounds(s.threads, Guard, lump * NANOS_PER_SEC);
    MulMono(0, s.clock - s.last, p.rate);
    LumpsInNanos(|s.threads|, lump);
    FloorBelowFull(p, lump, |s.threads|);
  }

  lemma FloorBelowFull(p: Params, lump: nat, threads: nat)
    ensures DebtFloor(p, threads, lump) <= p.capacity - threads * lump
  {
    assert threads * lump == (threads - 1) * lump + lump;
  }

  lemma DebitStep(p: Params, lump: nat, s: State, t: nat, word: u64)
    requires Inv(p, lump, s) && t < |s.threads| && s.threads[t].Debiting?
    ensures Inv(p, lump, DebitNext(s, t, word))
  {
    var pc := s.threads[t];
    assert ThreadOk(p, lump, s, pc);
    DebitWithinGuard(pc.observed, pc.worth, pc.req.lump, pc.req.ramp);
    MoveKeepsInv(p, lump, s, DebitNext(s, t, word), t);
  }

  predicate LumpsWithin(p: Params, a: Action, lump: nat)
    requires p.Valid()
  {
    a.Begin? ==> Lump(p, ScaledI(a.cost)) <= lump
  }

  lemma StepKeepsInv(p: Params, lump: nat, s: State, a: Action)
    requires Inv(p, lump, s) && Enabled(s, a) && LumpsWithin(p, a, lump)
    ensures Inv(p, lump, Next(p, s, a))
    ensures s.last <= Next(p, s, a).last && |Next(p, s, a).threads| == |s.threads|
  {
    match a
    case Tick(nanos) => TickStep(p, lump, s, nanos);
    case Begin(t, cost) => BeginStep(p, lump, s, t, cost);
    case FastLoad(t) => FastLoadStep(p, lump, s, t);
    case ReadClock(t, now) => ReadClockStep(p, lump, s, t, now);
    case LoadTokens(t) =>
      if s.threads[t].EstimateStart? {
        LoadEstimateStep(p, lump, s, t);
      } else {
        LoadSampleStep(p, lump, s, t);
      }
    case LoadLast(t, word) => LoadLastStep(p, lump, s, t, word);
    case RefillLoad(t) => RefillLoadStep(p, lump, s, t);
    case ClaimCas(t, spurious) => ClaimStep(p, lump, s, t, spurious);
    case Credit(t) => CreditStep(p, lump, s, t);
    case DebitAndDecide(t, word) => DebitStep(p, lump, s, t, word);
  }

  lemma {:induction false} RunKeepsInv(p: Params, lump: nat, s: State, schedule: seq<Action>)
    requires Inv(p, lump, s) && Feasible(p, s, schedule)
    requires forall i :: 0 <= i < |schedule| ==> LumpsWithin(p, schedule[i], lump)
    ensures Inv(p, lump, Exec(p, s, schedule)) && |Exec(p, s, schedule).threads| == |s.threads|
    decreases schedule
  {
    if schedule != [] {
      assert LumpsWithin(p, schedule[0], lump);
      StepKeepsInv(p, lump, s, schedule[0]);
      RunKeepsInv(p, lump, Next(p, s, schedule[0]), schedule[1..]);
    }
  }

  lemma InitialInv(p: Params, lump: nat, threads: nat, start: u64, phase: u64)
    requires p.Valid() && threads >= 1
    ensures Inv(p, lump, Initial(p, threads, start, phase))
  {
    var s := Initial(p, threads, start, phase);
    SumOfIdle(s.threads, Owed);
    SumOfIdle(s.threads, Guard);
    MulMono(0, threads - 1, lump);
  }

  // What every schedule keeps.

  lemma {:induction false} DebtWithinLumps(p: Params, lump: nat, threads: nat, start: u64, phase: u64,
          schedule: seq<Action>)
    requires p.Valid() && threads >= 1
    requires Feasible(p, Initial(p, threads, start, phase), schedule)
    requires forall i :: 0 <= i < |schedule| ==> LumpsWithin(p, schedule[i], lump)
    ensures var s := Exec(p, Initial(p, threads, start, phase), schedule);
            && Effective(p, s) >= DebtFloor(p, threads, lump) * NANOS_PER_SEC
            && s.tokens <= p.capacity
  {
    InitialInv(p, lump, threads, start, phase);
    RunKeepsInv(p, lump, Initial(p, threads, start, phase), schedule);
    var s := Exec(p, Initial(p, threads, start, phase), schedule);
    GuardBounds(p, lump, s);
    SumBounds(s.threads, Guard, lump * NANOS_PER_SEC);
  }

  /** The documented "O(threads * lump)", made exact and in terms of what requests cost: on
      every interleaving, any mix of costs up to `cost` and all random words, the level
      with everything owed and accrued never falls below what one group costs for each
      other thread, plus what one group costs beyond the capacity. With one thread and a
      bucket that holds a group there is no debt at all. */
  lemma {:induction false} ConcurrentDebtBound(p: Params, cost: u64, threads: nat, start: u64, phase: u64,
          schedule: seq<Action>)
    requires p.Valid() && threads >= 1
    requires Feasible(p, Initial(p, threads, start, phase), schedule)
    requires forall i :: 0 <= i < |schedule| && schedule[i].Begin? ==> schedule[i].cost <= cost
    ensures var s, group := Exec(p, Initial(p, threads, start, phase), schedule), p.sampleRate * (cost * SCALE);
            && Effective(p, s) >= (-((threads - 1) * group) + Min(0, p.capacity - group)) * NANOS_PER_SEC
            && (p.capacity >= group ==> Effective(p, s) >= -((threads - 1) * group) * NANOS_PER_SEC)
            && s.tokens <= p.capacity
  {
    var group := PR.GroupCost(p, cost);
    forall i | 0 <= i < |schedule| ensures LumpsWithin(p, schedule[i], group) {
      if schedule[i].Begin? {
        PR.LumpGrows(p, schedule[i].cost, cost);
        PR.LumpIsGroupCost(p, cost);
      }
    }
    DebtWithinLumps(p, group, threads, start, phase, schedule);
  }

  /** Tokens are loaded before the timestamp and claimed before they are credited, so
      on every interleaving the level any request decides on is worth at most what
      the bucket held and had accrued unclaimed at the instant of its first load. */
  lemma {:induction false} EstimatesAreRaceSafe(p: Params, threads: nat, start: u64, phase: u64, schedule: seq<Action>)
    requires p.Valid() && threads >= 1
    requires Feasible(p, Initial(p, threads, start, phase), schedule)
    ensures var s := Exec(p, Initial(p, threads, start, phase), schedule);
            forall i :: 0 <= i < |s.log| ==> s.log[i].available * NANOS_PER_SEC <= s.log[i].worth
  {
    InitialInv(p, I64_MAX, threads, start, phase);
    RunKeepsInv(p, I64_MAX, Initial(p, threads, start, phase), schedule);
  }
}
