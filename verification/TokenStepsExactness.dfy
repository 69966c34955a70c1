/** For which rates "capacity plus rate times elapsed time" bounds every interleaving
    of any number of threads, with no slack at all
    (src/algorithm/token_bucket.rs:70-136, src/algorithm/internal.rs:56-72). */
module TokenStepsExactness {
  import opened Machine
  import opened Arithmetic
  import opened Internal
  import opened TokenBucket
  import opened TokenRuns
  import opened TokenSteps
  import TE = TokenExactness

  /** What a thread's claim can still add to the bucket. */
  function Due(pc: Pc, capacity: u64): nat {
    Min(Owed(pc), capacity)
  }

  function TotalDue(threads: seq<Pc>, capacity: u64): nat {
    if threads == [] then 0 else Due(threads[0], capacity) + TotalDue(threads[1..], capacity)
  }

  lemma {:induction false} DueUpdate(threads: seq<Pc>, t: nat, pc: Pc, capacity: u64)
    requires t < |threads|
    ensures TotalDue(threads[t := pc], capacity)
         == TotalDue(threads, capacity) - Due(threads[t], capacity) + Due(pc, capacity)
  {
    if t == 0 {
      assert threads[0 := pc][1..] == threads[1..];
    } else {
      assert threads[t := pc][1..] == threads[1..][t - 1 := pc];
      DueUpdate(threads[1..], t - 1, pc, capacity);
    }
  }

  lemma {:induction false} NothingDue(threads: seq<Pc>, capacity: u64)
    requires forall t :: 0 <= t < |threads| ==> threads[t].Idle?
    ensures TotalDue(threads, capacity) == 0
  {
    if threads != [] {
      NothingDue(threads[1..], capacity);
    }
  }

  /** What is held, was permitted, and can still be credited is paid for by the capacity
      and the claimed time. */
  predicate Paid(p: Scaled, start: u64, s: State) {
    (s.tokens + Permitted(s.log) + TotalDue(s.threads, p.capacity)) * NANOS_PER_SEC
    <= p.capacity * NANOS_PER_SEC + (s.last - start) * p.rate
  }

  /** With dividing units the time of a claim pays for all that it can add. */
  lemma ClaimPaysForItself(p: Scaled, e: u64)
    requires p.Valid() && p.rate > 0 && TE.UnitsDivide(p)
    ensures Min(RefillTokens(e, p.rate), p.capacity) * NANOS_PER_SEC <= ClaimedNanos(e, p.rate) * p.rate
  {
    var r := p.rate;
    if NANOS_PER_SEC % r == 0 {
      ClaimExactWhenRateDivides(e, r);
    } else if Unclamped(e, r) {
      WholeTokensPerNano(e, r);
    } else {
      RefillFloor(e, r);
      ClaimFitsElapsed(e, r);
      FloorBounds(U64_MAX * NANOS_PER_SEC, r);
    }
  }

  /** A step of thread `t` that moves tokens between the bucket, the thread and the log. */
  lemma MoveKeepsPaid(p: Scaled, start: u64, s: State, s': State, t: nat)
    requires Paid(p, start, s) && t < |s.threads| && |s'.threads| == |s.threads|
    requires s'.threads == s.threads[t := s'.threads[t]] && s'.last == s.last
    requires s'.tokens + Permitted(s'.log) + Due(s'.threads[t], p.capacity)
          <= s.tokens + Permitted(s.log) + Due(s.threads[t], p.capacity)
    ensures Paid(p, start, s')
  {
    DueUpdate(s.threads, t, s'.threads[t], p.capacity);
  }

  lemma ClaimKeepsPaid(p: Scaled, start: u64, s: State, t: nat, spurious: bool)
    requires Inv(p, start, s) && Paid(p, start, s) && TE.UnitsDivide(p)
    requires t < |s.threads| && s.threads[t].Loaded?
    ensures Paid(p, start, ClaimNext(p, s, t, spurious))
  {
    var s', pc := ClaimNext(p, s, t, spurious), s.threads[t];
    assert ThreadOk(p, s, pc);
    DueUpdate(s.threads, t, s'.threads[t], p.capacity);
    if s.last == pc.last && !spurious {
      var e := pc.now - pc.last;
      ClaimPaysForItself(p, e);
      ClaimFitsElapsed(e, p.rate);
      ClaimIsPaid(s.tokens + Permitted(s.log) + TotalDue(s.threads, p.capacity),
                  Min(RefillTokens(e, p.rate), p.capacity),
                  p.capacity * NANOS_PER_SEC, s.last - start, ClaimedNanos(e, p.rate), p.rate, 0, 0);
    }
  }

  lemma DecideKeepsPaid(p: Scaled, start: u64, s: State, t: nat)
    requires Paid(p, start, s) && t < |s.threads| && s.threads[t].Spending?
    ensures Paid(p, start, Next(p, s, LoadForSpend(t)))
  {
    PermittedAppend(s.log, Outcome(t, s.threads[t].cost, false, s.tokens / SCALE));
    MoveKeepsPaid(p, start, s, Next(p, s, LoadForSpend(t)), t);
  }

  lemma SpendKeepsPaid(p: Scaled, start: u64, s: State, t: nat, spurious: bool)
    requires Inv(p, start, s) && Paid(p, start, s) && t < |s.threads| && s.threads[t].SpendLoaded?
    ensures Paid(p, start, Next(p, s, SpendCas(t, spurious)))
  {
    SpendMovesCost(p, start, s, t, spurious);
    MoveKeepsPaid(p, start, s, Next(p, s, SpendCas(t, spurious)), t);
  }

  lemma StepKeepsPaid(p: Scaled, start: u64, s: State, a: Action)
    requires Inv(p, start, s) && Paid(p, start, s) && Enabled(s, a) && TE.UnitsDivide(p)
    ensures Paid(p, start, Next(p, s, a))
  {
    match a
    case Tick(_) =>
    case ClaimCas(t, spurious) => ClaimKeepsPaid(p, start, s, t, spurious);
    case LoadForSpend(t) => DecideKeepsPaid(p, start, s, t);
    case SpendCas(t, spurious) => SpendKeepsPaid(p, start, s, t, spurious);
    case Begin(t, _, _) => MoveKeepsPaid(p, start, s, Next(p, s, a), t);
    case LoadLast(t) => MoveKeepsPaid(p, start, s, Next(p, s, a), t);
    case LoadForCredit(t) => MoveKeepsPaid(p, start, s, Next(p, s, a), t);
    case CreditCas(t, _) => MoveKeepsPaid(p, start, s, Next(p, s, a), t);
  }

  lemma {:induction false} RunKeepsPaid(p: Scaled, start: u64, s: State, schedule: seq<Action>)
    requires Inv(p, start, s) && Paid(p, start, s) && Feasible(p, s, schedule) && TE.UnitsDivide(p)
    ensures Paid(p, start, Exec(p, s, schedule))
    decreases schedule
  {
    if schedule != [] {
      StepKeepsPaid(p, start, s, schedule[0]);
      StepKeepsInv(p, start, s, schedule[0]);
      RunKeepsPaid(p, start, Next(p, s, schedule[0]), schedule[1..]);
    }
  }

  // Nothing to hold.

  lemma EmptyPermitsNoMore(p: Scaled, start: u64, s: State, a: Action)
    requires Inv(p, start, s) && Enabled(s, a) && p.capacity == 0
    ensures Permitted(Next(p, s, a).log) == Permitted(s.log)
  {
    if a.LoadForSpend? {
      PermittedAppend(s.log, Outcome(a.thread, s.threads[a.thread].cost, false, s.tokens / SCALE));
    } else if a.SpendCas? {
      SpendMovesCost(p, start, s, a.thread, a.spurious);
    }
  }

  lemma {:induction false} EmptyPermitsNothing(p: Scaled, start: u64, s: State, schedule: seq<Action>)
    requires Inv(p, start, s) && Feasible(p, s, schedule) && p.capacity == 0 && Permitted(s.log) == 0
    ensures Permitted(Exec(p, s, schedule).log) == 0
    decreases schedule
  {
    if schedule != [] {
      StepKeepsInv(p, start, s, schedule[0]);
      EmptyPermitsNoMore(p, start, s, schedule[0]);
      EmptyPermitsNothing(p, start, Next(p, s, schedule[0]), schedule[1..]);
    }
  }

  // Every history is a schedule of one thread.

  lemma CallIsSchedule(p: Scaled, s: State, b: Bucket, call: Call) returns (schedule: seq<Action>)
    requires s.threads == [Idle] && b.tokens == s.tokens && b.last == s.last
    requires s.clock <= call.now && call.cost > 0
    ensures Feasible(p, s, schedule)
    ensures var c, s' := Consume(b, p, call.now, call.cost), Exec(p, s, schedule);
            && s'.threads == [Idle] && s'.clock == call.now
            && s'.tokens == c.bucket.tokens && s'.last == c.bucket.last
            && Permitted(s'.log) == Permitted(s.log) + CallSpent(p, b, call)
  {
    var ticked := Next(p, s, Tick(call.now - s.clock));
    var solo := SoloCallIsConsume(p, ticked, 0, call.cost);
    ExecOne(p, s, Tick(call.now - s.clock), solo);
    schedule := [Tick(call.now - s.clock)] + solo;
    var c := Consume(Bucket(s.tokens, s.last, call.now), p, call.now, call.cost);
    assert c == Consume(b, p, call.now, call.cost);
    PermittedAppend(s.log, Outcome(0, call.cost, c.permitted, c.remaining));
  }

  lemma {:induction false} HistoryIsSchedule(p: Scaled, s: State, b: Bucket,
          h: seq<Call>) returns (schedule: seq<Action>)
    requires s.threads == [Idle] && b.tokens == s.tokens && b.last == s.last
    requires Monotone(s.clock, h) && TE.Costly(h)
    ensures Feasible(p, s, schedule)
    ensures Exec(p, s, schedule).clock == End(s.clock, h)
    ensures Permitted(Exec(p, s, schedule).log) == Permitted(s.log) + Spent(p, b, h)
    decreases h
  {
    if h == [] {
      schedule := [];
    } else {
      var front := CallIsSchedule(p, s, b, h[0]);
      var s1 := Exec(p, s, front);
      var back := HistoryIsSchedule(p, s1, Consume(b, p, h[0].now, h[0].cost).bucket, h[1..]);
      ExecAppend(p, s, front, back);
      SpentUnfolds(p, b, h);
      assert End(h[0].now, h[1..]) == End(s.clock, h);
      schedule := front + back;
    }
  }

  // Exactly when.

  /** The slack-free budget, on one schedule from the creation of a key. */
  predicate WithinBudget(p: Scaled, threads: nat, start: u64, schedule: seq<Action>) {
    var s := Initial(p, threads, start);
    Feasible(p, s, schedule) ==>
      Permitted(Exec(p, s, schedule).log) * NANOS_PER_SEC
      <= p.capacity * NANOS_PER_SEC + (Exec(p, s, schedule).clock - start) * p.rate
  }

  lemma DividingUnitsKeepBudget(p: Scaled, threads: nat, start: u64, schedule: seq<Action>)
    requires p.Valid() && (TE.UnitsDivide(p) || p.capacity == 0)
    ensures WithinBudget(p, threads, start, schedule)
  {
    var s := Initial(p, threads, start);
    if Feasible(p, s, schedule) {
      InitialInv(p, threads, start);
      RunKeepsInv(p, start, s, schedule);
      var end := Exec(p, s, schedule);
      MulMono(0, end.clock - start, p.rate);
      if p.capacity == 0 {
        EmptyPermitsNothing(p, start, s, schedule);
      } else {
        NothingDue(s.threads, p.capacity);
        RunKeepsPaid(p, start, s, schedule);
        MulMono(end.last - start, end.clock - start, p.rate);
      }
    }
  }

  /** On every interleaving of any number of threads, whatever is permitted is paid for
      by the capacity and the time since creation exactly when one unit divides the
      other, or the bucket holds nothing. */
  lemma ConcurrentBudgetIsExactIff(cfg: Config)
    requires cfg.Valid()
    ensures (forall threads: nat, start: u64, schedule: seq<Action> ::
              WithinBudget(cfg.Scale(), threads, start, schedule))
       <==> TE.UnitsDivide(cfg.Scale()) || cfg.capacity == 0
  {
    var p := cfg.Scale();
    ScaleIsValid(cfg);
    if TE.UnitsDivide(p) || cfg.capacity == 0 {
      forall threads: nat, start: u64, schedule: seq<Action> ensures WithinBudget(p, threads, start, schedule) {
        DividingUnitsKeepBudget(p, threads, start, schedule);
      }
    } else {
      var h := TE.Overdraft(cfg);
      var schedule := HistoryIsSchedule(p, Initial(p, 1, 0), Bucket(p.capacity, 0, 0), h);
      assert !WithinBudget(p, 1, 0, schedule);
    }
  }
}
