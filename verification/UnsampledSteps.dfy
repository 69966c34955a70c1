/** Any number of threads on one key of the sampled bucket when `sample_rate` is 1: the
    claim of `apply_refill` is a load and a compare-and-swap, its credit and the debit of
    `consume_exact` are one `fetch_update` each
    (src/algorithm/probabilistic_token_bucket.rs:299-331, 358-379, 422-424). */
module UnsampledSteps {
  import opened Machine
  import opened Arithmetic
  import opened Internal
  import opened Probabilistic
  import TB = TokenBucket
  import TR = TokenRuns
  import TS = TokenSteps

  type Outcome = TS.Outcome

  datatype Pc =
    | Idle
    | Refilling(now: u64, cost: u64)
    | Loaded(now: u64, cost: u64, last: u64)
    | Crediting(cost: u64, added: i64)
    | Spending(cost: u64)

  /** The shared words, with a signed level, the clock and the threads; then history. */
  datatype State = State(
    tokens: i64,
    last: u64,
    clock: u64,
    threads: seq<Pc>,
    claims: nat,
    log: seq<Outcome>)

  datatype Action =
    | Tick(nanos: nat)
    | Begin(thread: nat, cost: u64, now: u64)
    | LoadLast(thread: nat)
    | ClaimCas(thread: nat, spurious: bool)
    | Credit(thread: nat)
    | Spend(thread: nat)

  predicate Enabled(s: State, a: Action) {
    match a
    case Tick(nanos) => s.clock + nanos <= U64_MAX
    case Begin(t, cost, now) => t < |s.threads| && s.threads[t].Idle? && cost > 0 && now <= s.clock
    case LoadLast(t) => t < |s.threads| && s.threads[t].Refilling?
    case ClaimCas(t, _) => t < |s.threads| && s.threads[t].Loaded?
    case Credit(t) => t < |s.threads| && s.threads[t].Crediting?
    case Spend(t) => t < |s.threads| && s.threads[t].Spending?
  }

  function Next(p: Params, s: State, a: Action): State
    requires Enabled(s, a)
  {
    match a
    case Tick(nanos) => s.(clock := s.clock + nanos)
    case Begin(t, cost, now) => s.(threads := s.threads[t := Refilling(now, cost)])
    case LoadLast(t) =>
      var Refilling(now, cost) := s.threads[t];
      s.(threads := s.threads[t := if RefillTokensI(SatSub(now, s.last), p.rate) == 0 then Spending(cost)
                                   else Loaded(now, cost, s.last)])
    case ClaimCas(t, spurious) => ClaimNext(p, s, t, spurious)
    case Credit(t) =>
      var Crediting(cost, added) := s.threads[t];
      s.(tokens := if s.tokens >= p.capacity then s.tokens else Min(SatAddI(s.tokens, added), p.capacity),
         threads := s.threads[t := Spending(cost)])
    case Spend(t) =>
      var cost := s.threads[t].cost;
      if s.tokens >= ScaledI(cost)
      then Finish(s, t, cost, true, SatSubI(s.tokens, ScaledI(cost)))
      else Finish(s, t, cost, false, s.tokens)
  }

  function ClaimNext(p: Params, s: State, t: nat, spurious: bool): State
    requires t < |s.threads| && s.threads[t].Loaded?
  {
    var Loaded(now, cost, last) := s.threads[t];
    var added := RefillTokensI(SatSub(now, last), p.rate);
    if spurious || s.last != last then s.(threads := s.threads[t := Refilling(now, cost)])
    else s.(last := SatAdd(last, NanosForTokensI(added, p.rate)),
            threads := s.threads[t := Crediting(cost, added)],
            claims := s.claims + 1)
  }

  function Finish(s: State, t: nat, cost: u64, permitted: bool, left: i64): State
    requires t < |s.threads|
  {
    s.(tokens := left, threads := s.threads[t := Idle],
       log := s.log + [TS.Outcome(t, cost, permitted, RemainingOf(left))])
  }

  predicate Feasible(p: Params, s: State, schedule: seq<Action>)
    decreases schedule
  {
    schedule == [] || (Enabled(s, schedule[0]) && Feasible(p, Next(p, s, schedule[0]), schedule[1..]))
  }

  function Exec(p: Params, s: State, schedule: seq<Action>): State
    requires Feasible(p, s, schedule)
    decreases schedule
  {
    if schedule == [] then s else Exec(p, Next(p, s, schedule[0]), schedule[1..])
  }

  function Initial(p: Params, threads: nat, start: u64): State {
    State(p.capacity, start, start, seq(threads, _ => Idle), 0, [])
  }

  // What has been claimed and not credited.

  function Owed(pc: Pc): int {
    if pc.Crediting? then pc.added else 0
  }

  function Pending(threads: seq<Pc>): int {
    if threads == [] then 0 else Owed(threads[0]) + Pending(threads[1..])
  }

  lemma {:induction false} PendingUpdate(threads: seq<Pc>, t: nat, pc: Pc)
    requires t < |threads|
    ensures Pending(threads[t := pc]) == Pending(threads) - Owed(threads[t]) + Owed(pc)
  {
    if t == 0 {
      assert threads[0 := pc][1..] == threads[1..];
    } else {
      assert threads[t := pc][1..] == threads[1..][t - 1 := pc];
      PendingUpdate(threads[1..], t - 1, pc);
    }
  }

  lemma {:induction false} PendingIsNatural(threads: seq<Pc>)
    requires forall t :: 0 <= t < |threads| ==> Owed(threads[t]) >= 0
    ensures Pending(threads) >= 0
    ensures (forall t :: 0 <= t < |threads| ==> Owed(threads[t]) == 0) ==> Pending(threads) == 0
  {
    if threads != [] {
      PendingIsNatural(threads[1..]);
    }
  }

  // The invariant.

  /** The same capacity and rate as the `u64` bucket takes them. */
  function Unsigned(p: Params): (q: TB.Scaled)
    requires p.Valid()
    ensures q.Valid()
  {
    TB.Scaled(p.capacity, p.rate)
  }

  predicate ThreadOk(p: Params, s: State, pc: Pc) {
    match pc
    case Refilling(now, _) => now <= s.clock
    case Loaded(now, _, last) => last < now <= s.clock && RefillTokensI(now - last, p.rate) > 0
    case Crediting(_, added) => added > 0
    case _ => true
  }

  predicate ThreadsOk(p: Params, s: State) {
    forall t :: 0 <= t < |s.threads| ==> ThreadOk(p, s, s.threads[t])
  }

  function Held(s: State): int {
    s.tokens + TS.Permitted(s.log) + Pending(s.threads)
  }

  predicate Inv(p: Params, start: u64, s: State) {
    && p.Valid()
    && 0 <= s.tokens <= p.capacity
    && start <= s.last <= s.clock
    && ThreadsOk(p, s)
    && Held(s) * NANOS_PER_SEC
       <= p.capacity * NANOS_PER_SEC + (s.last - start) * p.rate + TR.ClaimSlack(Unsigned(p), s.claims)
  }

  lemma OtherThreadsStayOk(p: Params, s: State, s': State, t: nat)
    requires ThreadsOk(p, s) && s.clock <= s'.clock
    requires t < |s.threads| == |s'.threads| && s'.threads == s.threads[t := s'.threads[t]]
    requires ThreadOk(p, s', s'.threads[t])
    ensures ThreadsOk(p, s')
  {
    forall u | 0 <= u < |s'.threads| ensures ThreadOk(p, s', s'.threads[u]) {
      if u != t {
        assert ThreadOk(p, s, s.threads[u]);
      }
    }
  }

  /** The clamp of a claim to an `i64` takes no more time than its credit is worth,
      within the same rounding. */
  lemma SignedClaim(p: Params, e: u64)
    requires p.Valid() && RefillTokensI(e, p.rate) > 0
    ensures var added := RefillTokensI(e, p.rate);
            var claimed := NanosForTokensI(added, p.rate);
            && 0 <= claimed <= e
            && 0 <= added * NANOS_PER_SEC - claimed * p.rate <= TR.ClaimSlack(Unsigned(p), 1)
  {
    var r, added := p.rate, RefillTokensI(e, p.rate);
    RefillFloor(e, r);
    assert added * NANOS_PER_SEC < (e + 1) * r;
    FloorBelow(e + 1, added * NANOS_PER_SEC, r);
    FloorBounds(added * NANOS_PER_SEC, r);
    if NANOS_PER_SEC % r == 0 {
      var d := NANOS_PER_SEC / r;
      assert added * NANOS_PER_SEC == (added * d) * r;
      FloorExactly(added * d, added * NANOS_PER_SEC, r);
    }
  }

  lemma ClaimStep(p: Params, start: u64, s: State, t: nat, spurious: bool)
    requires Inv(p, start, s) && t < |s.threads| && s.threads[t].Loaded?
    ensures Inv(p, start, ClaimNext(p, s, t, spurious))
  {
    var s' := ClaimNext(p, s, t, spurious);
    var pc := s.threads[t];
    assert ThreadOk(p, s, pc);
    PendingUpdate(s.threads, t, s'.threads[t]);
    OtherThreadsStayOk(p, s, s', t);
    if s.last == pc.last && !spurious {
      var e := pc.now - pc.last;
      var added := RefillTokensI(e, p.rate);
      SignedClaim(p, e);
      TR.ClaimSlackAdds(Unsigned(p), s.claims, 1);
      TS.ClaimIsPaid(Held(s), added, p.capacity * NANOS_PER_SEC, s.last - start, NanosForTokensI(added, p.rate),
                     p.rate, TR.ClaimSlack(Unsigned(p), s.claims), TR.ClaimSlack(Unsigned(p), 1));
    }
  }

  /** A step that moves tokens between the bucket, the threads and the log. */
  lemma MoveTokens(p: Params, start: u64, s: State, s': State, t: nat)
    requires Inv(p, start, s) && t < |s.threads| == |s'.threads|
    requires s'.threads == s.threads[t := s'.threads[t]] && ThreadOk(p, s', s'.threads[t])
    requires s'.last == s.last && s'.clock == s.clock && s'.claims == s.claims && 0 <= s'.tokens <= p.capacity
    requires s'.tokens + TS.Permitted(s'.log) + Owed(s'.threads[t])
          <= s.tokens + TS.Permitted(s.log) + Owed(s.threads[t])
    ensures Inv(p, start, s')
  {
    PendingUpdate(s.threads, t, s'.threads[t]);
    OtherThreadsStayOk(p, s, s', t);
    assert Held(s') <= Held(s);
  }

  lemma CreditStep(p: Params, start: u64, s: State, t: nat)
    requires Inv(p, start, s) && t < |s.threads| && s.threads[t].Crediting?
    ensures Inv(p, start, Next(p, s, Credit(t)))
  {
    assert ThreadOk(p, s, s.threads[t]);
    MoveTokens(p, start, s, Next(p, s, Credit(t)), t);
  }

  lemma CoveredCostIsExact(cost: u64, tokens: i64)
    requires ScaledI(cost) <= tokens <= I64_MAX / 2
    ensures ScaledI(cost) == cost * SCALE
  {
  }

  lemma SpendMovesCost(p: Params, s: State, t: nat)
    requires p.Valid() && 0 <= s.tokens <= p.capacity && t < |s.threads| && s.threads[t].Spending?
    ensures var s' := Next(p, s, Spend(t));
            && 0 <= s'.tokens <= p.capacity
            && s'.tokens + TS.Permitted(s'.log) == s.tokens + TS.Permitted(s.log)
  {
    var cost := s.threads[t].cost;
    if s.tokens >= ScaledI(cost) {
      CoveredCostIsExact(cost, s.tokens);
      TS.PermittedAppend(s.log, TS.Outcome(t, cost, true, RemainingOf(s.tokens - cost * SCALE)));
    } else {
      TS.PermittedAppend(s.log, TS.Outcome(t, cost, false, RemainingOf(s.tokens)));
    }
  }

  lemma SpendStep(p: Params, start: u64, s: State, t: nat)
    requires Inv(p, start, s) && t < |s.threads| && s.threads[t].Spending?
    ensures Inv(p, start, Next(p, s, Spend(t)))
  {
    SpendMovesCost(p, s, t);
    MoveTokens(p, start, s, Next(p, s, Spend(t)), t);
  }

  lemma StepKeepsInv(p: Params, start: u64, s: State, a: Action)
    requires Inv(p, start, s) && Enabled(s, a)
    ensures Inv(p, start, Next(p, s, a))
  {
    match a
    case Tick(_) =>
      forall u | 0 <= u < |s.threads| ensures ThreadOk(p, Next(p, s, a), s.threads[u]) {
        assert ThreadOk(p, s, s.threads[u]);
      }
    case Begin(t, _, _) => MoveTokens(p, start, s, Next(p, s, a), t);
    case LoadLast(t) =>
      assert ThreadOk(p, s, s.threads[t]);
      MoveTokens(p, start, s, Next(p, s, a), t);
    case ClaimCas(t, spurious) => ClaimStep(p, start, s, t, spurious);
    case Credit(t) => CreditStep(p, start, s, t);
    case Spend(t) => SpendStep(p, start, s, t);
  }

  lemma {:induction false} RunKeepsInv(p: Params, start: u64, s: State, schedule: seq<Action>)
    requires Inv(p, start, s) && Feasible(p, s, schedule)
    ensures Inv(p, start, Exec(p, s, schedule))
    decreases schedule
  {
    if schedule != [] {
      StepKeepsInv(p, start, s, schedule[0]);
      RunKeepsInv(p, start, Next(p, s, schedule[0]), schedule[1..]);
    }
  }

  /** On every interleaving, whatever the rate: never in debt, and within the budget of
      the token bucket. */
  lemma {:induction false} NeverInDebt(p: Params, threads: nat, start: u64, schedule: seq<Action>)
    requires p.Valid() && Feasible(p, Initial(p, threads, start), schedule)
    ensures var s := Exec(p, Initial(p, threads, start), schedule);
            && 0 <= s.tokens <= p.capacity && start <= s.last <= s.clock
            && (s.tokens + TS.Permitted(s.log) + Pending(s.threads)) * NANOS_PER_SEC
               <= p.capacity * NANOS_PER_SEC + (s.last - start) * p.rate + TR.ClaimSlack(Unsigned(p), s.claims)
            && TS.Permitted(s.log) * NANOS_PER_SEC
               <= p.capacity * NANOS_PER_SEC + (s.clock - start) * p.rate + TR.ClaimSlack(Unsigned(p), s.claims)
  {
    var s0 := Initial(p, threads, start);
    PendingIsNatural(s0.threads);
    RunKeepsInv(p, start, s0, schedule);
    var s := Exec(p, s0, schedule);
    assert forall t :: 0 <= t < |s.threads| ==> ThreadOk(p, s, s.threads[t]) && Owed(s.threads[t]) >= 0;
    PendingIsNatural(s.threads);
    MulMono(s.last - start, s.clock - start, p.rate);
  }

  // One call that nobody interrupts.

  lemma {:induction false} ExecOne(p: Params, s: State, a: Action, rest: seq<Action>)
    requires Enabled(s, a) && Feasible(p, Next(p, s, a), rest)
    ensures Feasible(p, s, [a] + rest)
    ensures Exec(p, s, [a] + rest) == Exec(p, Next(p, s, a), rest)
  {
    assert ([a] + rest)[1..] == rest;
  }

  function RefillSchedule(p: Params, s: State, t: nat): seq<Action> {
    if RefillTokensI(SatSub(s.clock, s.last), p.rate) == 0 then [LoadLast(t)] + [Spend(t)]
    else [LoadLast(t)] + ([ClaimCas(t, false)] + ([Credit(t)] + [Spend(t)]))
  }

  /** The words after the refill, and a call about to be decided. */
  function Refilled(p: Params, s: State, t: nat, cost: u64): State
    requires t < |s.threads|
  {
    var b := Refill(Bucket(s.tokens, s.last, 0, 0), p, s.clock);
    s.(tokens := b.tokens, last := b.last, threads := s.threads[t := Spending(cost)],
       claims := s.claims + if RefillTokensI(SatSub(s.clock, s.last), p.rate) == 0 then 0 else 1)
  }

  lemma {:induction false} SoloRefill(p: Params, s: State, t: nat, cost: u64)
    requires t < |s.threads| && s.threads[t] == Refilling(s.clock, cost)
    ensures Feasible(p, s, RefillSchedule(p, s, t))
    ensures Exec(p, s, RefillSchedule(p, s, t)) == Next(p, Refilled(p, s, t, cost), Spend(t))
  {
    var spend, loaded := [Spend(t)], Next(p, s, LoadLast(t));
    assert spend == spend + [];
    ExecOne(p, Refilled(p, s, t, cost), Spend(t), []);
    if RefillTokensI(SatSub(s.clock, s.last), p.rate) == 0 {
      assert loaded == Refilled(p, s, t, cost);
    } else {
      var claimed := Next(p, loaded, ClaimCas(t, false));
      assert Next(p, claimed, Credit(t)) == Refilled(p, s, t, cost);
      ExecOne(p, claimed, Credit(t), spend);
      ExecOne(p, loaded, ClaimCas(t, false), [Credit(t)] + spend);
    }
    ExecOne(p, s, LoadLast(t), RefillSchedule(p, s, t)[1..]);
    assert RefillSchedule(p, s, t) == [LoadLast(t)] + RefillSchedule(p, s, t)[1..];
  }

  /** A call that runs alone does what `ExactAnswer` says: the same words left behind,
      the same decision, the same `remaining`. */
  lemma SoloCallIsExactAnswer(p: Params, s: State, t: nat, cost: u64, rng: Rng) returns (schedule: seq<Action>)
    requires t < |s.threads| && s.threads[t].Idle? && cost > 0
    ensures forall i :: 0 <= i < |schedule| ==> !schedule[i].Tick? && schedule[i].thread == t
    ensures Feasible(p, s, schedule)
    ensures var a := ExactAnswer(Bucket(s.tokens, s.last, 0, 0), p, s.clock, ScaledI(cost), rng);
            Exec(p, s, schedule).(claims := 0)
            == s.(tokens := a.bucket.tokens, last := a.bucket.last, claims := 0,
                  log := s.log + [TS.Outcome(t, cost, a.permitted, a.remaining)])
  {
    var begun := Next(p, s, Begin(t, cost, s.clock));
    SoloRefill(p, begun, t, cost);
    ExecOne(p, s, Begin(t, cost, s.clock), RefillSchedule(p, begun, t));
    schedule := [Begin(t, cost, s.clock)] + RefillSchedule(p, begun, t);
    assert s.threads[t := Idle] == s.threads;
  }
}
