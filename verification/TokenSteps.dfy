/** Any number of threads on the atomics of one key: every load and every
    compare-and-swap of `try_consume` and `apply_refill` is a step of its own,
    and any step of any thread may come next (src/algorithm/token_bucket.rs:70-136). */
module TokenSteps {
  import opened Machine
  import opened Arithmetic
  import opened Internal
  import opened TokenBucket
  import opened TokenRuns

  /** Where a thread is within a call. `origin` and `failures` are history: the
      timestamp found when the call began, and how often its claim lost a race. */
  datatype Pc =
    | Idle
    | Refilling(now: u64, cost: u64, origin: u64, failures: nat)
    | Loaded(now: u64, cost: u64, origin: u64, failures: nat, last: u64)
    | Crediting(cost: u64, added: u64)
    | CreditLoaded(cost: u64, added: u64, seen: u64)
    | Spending(cost: u64)
    | SpendLoaded(cost: u64, seen: u64)

  datatype Outcome = Outcome(thread: nat, cost: u64, permitted: bool, remaining: u64)

  /** A successful claim: the nanoseconds it took and the scaled tokens it owes. */
  datatype Claim = Claim(from: u64, to: u64, added: u64)

  /** The shared words, the clock and the threads; then what has happened so far. A call
      may begin with an instant that was read some time ago. */
  datatype State = State(
    tokens: u64,
    last: u64,
    clock: u64,
    threads: seq<Pc>,
    log: seq<Outcome>,
    claims: seq<Claim>)

  datatype Action =
    | Tick(nanos: nat)
    | Begin(thread: nat, cost: u64, now: u64)
    | LoadLast(thread: nat)
    | ClaimCas(thread: nat, spurious: bool)
    | LoadForCredit(thread: nat)
    | CreditCas(thread: nat, spurious: bool)
    | LoadForSpend(thread: nat)
    | SpendCas(thread: nat, spurious: bool)

  predicate Enabled(s: State, a: Action) {
    match a
    case Tick(nanos) => s.clock + nanos <= U64_MAX
    case Begin(t, cost, now) => t < |s.threads| && s.threads[t].Idle? && cost > 0 && now <= s.clock
    case LoadLast(t) => t < |s.threads| && s.threads[t].Refilling?
    case ClaimCas(t, _) => t < |s.threads| && s.threads[t].Loaded?
    case LoadForCredit(t) => t < |s.threads| && s.threads[t].Crediting?
    case CreditCas(t, _) => t < |s.threads| && s.threads[t].CreditLoaded?
    case LoadForSpend(t) => t < |s.threads| && s.threads[t].Spending?
    case SpendCas(t, _) => t < |s.threads| && s.threads[t].SpendLoaded?
  }

  function Next(p: Scaled, s: State, a: Action): State
    requires Enabled(s, a)
  {
    match a
    case Tick(nanos) => s.(clock := s.clock + nanos)
    case Begin(t, cost, now) => s.(threads := s.threads[t := Refilling(now, cost, s.last, 0)])
    case LoadLast(t) =>
      var Refilling(now, cost, origin, failures) := s.threads[t];
      var added := RefillTokens(SatSub(now, s.last), p.rate);
      s.(threads := s.threads[t := if added == 0 then Spending(cost)
                                   else Loaded(now, cost, origin, failures, s.last)])
    case ClaimCas(t, spurious) => ClaimNext(p, s, t, spurious)
    case LoadForCredit(t) =>
      var Crediting(cost, added) := s.threads[t];
      s.(threads := s.threads[t := if s.tokens >= p.capacity then Spending(cost)
                                   else CreditLoaded(cost, added, s.tokens)])
    case CreditCas(t, spurious) =>
      var CreditLoaded(cost, added, seen) := s.threads[t];
      if spurious || s.tokens != seen then s.(threads := s.threads[t := Crediting(cost, added)])
      else s.(tokens := Min(SatAdd(seen, added), p.capacity), threads := s.threads[t := Spending(cost)])
    case LoadForSpend(t) =>
      var cost := s.threads[t].cost;
      if s.tokens < SatMul(cost, SCALE)
      then s.(threads := s.threads[t := Idle], log := s.log + [Outcome(t, cost, false, s.tokens / SCALE)])
      else s.(threads := s.threads[t := SpendLoaded(cost, s.tokens)])
    case SpendCas(t, spurious) =>
      var SpendLoaded(cost, seen) := s.threads[t];
      if spurious || s.tokens != seen then s.(threads := s.threads[t := Spending(cost)])
      else
        var left := SatSub(seen, SatMul(cost, SCALE));
        s.(tokens := left, threads := s.threads[t := Idle], log := s.log + [Outcome(t, cost, true, left / SCALE)])
  }

  function ClaimNext(p: Scaled, s: State, t: nat, spurious: bool): State
    requires t < |s.threads| && s.threads[t].Loaded?
  {
    var Loaded(now, cost, origin, failures, last) := s.threads[t];
    var added := RefillTokens(SatSub(now, last), p.rate);
    var to := SatAdd(last, NanosForTokens(added, p.rate));
    if s.last != last then s.(threads := s.threads[t := Refilling(now, cost, origin, failures + 1)])
    else if spurious then s.(threads := s.threads[t := Refilling(now, cost, origin, failures)])
    else s.(last := to,
            threads := s.threads[t := Crediting(cost, added)],
            claims := s.claims + [Claim(last, to, added)])
  }

  /** A schedule: which thread takes which step, for how long and with what luck. */
  predicate Feasible(p: Scaled, s: State, schedule: seq<Action>)
    decreases schedule
  {
    schedule == [] || (Enabled(s, schedule[0]) && Feasible(p, Next(p, s, schedule[0]), schedule[1..]))
  }

  function Exec(p: Scaled, s: State, schedule: seq<Action>): State
    requires Feasible(p, s, schedule)
    decreases schedule
  {
    if schedule == [] then s else Exec(p, Next(p, s, schedule[0]), schedule[1..])
  }

  function Initial(p: Scaled, threads: nat, start: u64): State {
    State(p.capacity, start, start, seq(threads, _ => Idle), [], [])
  }

  // What the log and the threads add up to.

  function Permitted(log: seq<Outcome>): nat {
    if log == [] then 0
    else
      var o := log[|log| - 1];
      Permitted(log[..|log| - 1]) + if o.permitted then o.cost * SCALE else 0
  }

  lemma {:induction false} PermittedAppend(log: seq<Outcome>, o: Outcome)
    ensures Permitted(log + [o]) == Permitted(log) + if o.permitted then o.cost * SCALE else 0
  {
    assert (log + [o])[..|log|] == log;
  }

  /** Scaled tokens a thread has claimed and not credited yet. */
  function Owed(pc: Pc): nat {
    match pc
    case Crediting(_, added) => added
    case CreditLoaded(_, added, _) => added
    case _ => 0
  }

  function Pending(threads: seq<Pc>): nat {
    if threads == [] then 0 else Owed(threads[0]) + Pending(threads[1..])
  }

  lemma {:induction false} PendingUpdate(threads: seq<Pc>, t: nat, pc: Pc)
    requires t < |threads|
    ensures Pending(threads[t := pc]) == Pending(threads) - Owed(threads[t]) + Owed(pc)
  {
    if t == 0 {
      assert threads[0 := pc][1..] == threads[1..];
    } else {
      assert threads[t := pc][1..] == threads[1..][t - 1 := pc];
      PendingUpdate(threads[1..], t - 1, pc);
    }
  }

  lemma {:induction false} NothingPending(threads: seq<Pc>)
    requires forall t :: 0 <= t < |threads| ==> threads[t].Idle?
    ensures Pending(threads) == 0
  {
    if threads != [] {
      NothingPending(threads[1..]);
    }
  }

  // The invariant.

  /** Claims follow one another without gap or overlap, from `start` up to `last`. */
  predicate Chained(start: u64, claims: seq<Claim>, last: u64) {
    && (claims == [] ==> last == start)
    && (claims != [] ==> claims[0].from == start && claims[|claims| - 1].to == last)
    && (forall i :: 0 <= i < |claims| ==> claims[i].from <= claims[i].to)
    && (forall i :: 0 < i < |claims| ==> claims[i - 1].to == claims[i].from)
  }

  /** Each claim credits something, and takes some time unless a nanosecond is worth
      a fractional number of scaled tokens above one. */
  predicate Earned(p: Scaled, claims: seq<Claim>) {
    forall i :: 0 <= i < |claims| ==>
      claims[i].added > 0 && (TimelyRate(p) ==> claims[i].from < claims[i].to)
  }

  predicate TimelyRate(p: Scaled) {
    p.rate <= NANOS_PER_SEC || p.rate % NANOS_PER_SEC == 0
  }

  predicate ThreadOk(p: Scaled, s: State, pc: Pc) {
    match pc
    case Refilling(now, _, origin, failures) =>
      now <= s.clock && origin + failures <= s.last && failures <= SatSub(now, origin)
    case Loaded(now, _, origin, failures, last) =>
      now <= s.clock && origin + failures <= last <= s.last && last < now
      && RefillTokens(now - last, p.rate) > 0
    case SpendLoaded(cost, seen) => SatMul(cost, SCALE) <= seen <= p.capacity
    case CreditLoaded(_, _, seen) => seen < p.capacity
    case _ => true
  }

  predicate Budget(p: Scaled, start: u64, s: State) {
    (s.tokens + Permitted(s.log) + Pending(s.threads)) * NANOS_PER_SEC
    <= p.capacity * NANOS_PER_SEC + (s.last - start) * p.rate + ClaimSlack(p, |s.claims|)
  }

  predicate Inv(p: Scaled, start: u64, s: State) {
    && p.Valid()
    && s.tokens <= p.capacity
    && start <= s.last <= s.clock
    && Chained(start, s.claims, s.last) && Earned(p, s.claims)
    && ThreadsOk(p, s)
    && Budget(p, start, s)
  }

  predicate ThreadsOk(p: Scaled, s: State) {
    forall t :: 0 <= t < |s.threads| ==> ThreadOk(p, s, s.threads[t])
  }

  /** A step of one thread leaves what the others rely on in place. */
  lemma OtherThreadsStayOk(p: Scaled, s: State, s': State, t: nat, pc: Pc)
    requires t < |s.threads| && s'.threads == s.threads[t := pc]
    requires ThreadsOk(p, s) && ThreadOk(p, s', pc)
    requires s.last <= s'.last && s.clock <= s'.clock
    ensures ThreadsOk(p, s')
  {
    forall u | 0 <= u < |s'.threads| ensures ThreadOk(p, s', s'.threads[u]) {
      if u != t {
        assert ThreadOk(p, s, s.threads[u]);
      }
    }
  }

  lemma InitialInv(p: Scaled, threads: nat, start: u64)
    requires p.Valid()
    ensures Inv(p, start, Initial(p, threads, start))
  {
    NothingPending(Initial(p, threads, start).threads);
  }

  lemma ClaimStep(p: Scaled, start: u64, s: State, t: nat, spurious: bool)
    requires Inv(p, start, s) && t < |s.threads| && s.threads[t].Loaded?
    ensures Inv(p, start, ClaimNext(p, s, t, spurious))
    ensures s.last <= ClaimNext(p, s, t, spurious).last
  {
    var s' := ClaimNext(p, s, t, spurious);
    var pc := s.threads[t];
    assert ThreadOk(p, s, pc);
    PendingUpdate(s.threads, t, s'.threads[t]);
    if s.last == pc.last && !spurious {
      ClaimSucceeds(p, start, s, s', t);
    } else {
      OtherThreadsStayOk(p, s, s', t, s'.threads[t]);
    }
  }

  lemma ClaimSucceeds(p: Scaled, start: u64, s: State, s': State, t: nat)
    requires Inv(p, start, s) && t < |s.threads| && s.threads[t].Loaded? && s.threads[t].last == s.last
    requires s' == ClaimNext(p, s, t, false)
    ensures Inv(p, start, s') && s.last <= s'.last
  {
    var pc := s.threads[t];
    assert ThreadOk(p, s, pc);
    var e := pc.now - pc.last;
    assert p.rate > 0;
    OverCreditOfOneClaim(p, e);
    ClaimFitsElapsed(e, p.rate);
    if TimelyRate(p) {
      ClaimMakesProgress(e, p.rate);
    }
    PendingUpdate(s.threads, t, s'.threads[t]);
    OtherThreadsStayOk(p, s, s', t, s'.threads[t]);
    ClaimBudget(p, start, s, s', e);
  }

  lemma ClaimBudget(p: Scaled, start: u64, s: State, s': State, e: u64)
    requires Budget(p, start, s) && s'.tokens == s.tokens && s'.log == s.log && |s'.claims| == |s.claims| + 1
    requires Pending(s'.threads) == Pending(s.threads) + RefillTokens(e, p.rate)
    requires s'.last == s.last + ClaimedNanos(e, p.rate)
    requires OverCredit(e, p.rate) <= ClaimSlack(p, 1)
    ensures Budget(p, start, s')
  {
    ClaimSlackAdds(p, |s.claims|, 1);
    ClaimIsPaid(s.tokens + Permitted(s.log) + Pending(s.threads), RefillTokens(e, p.rate), p.capacity * NANOS_PER_SEC,
                s.last - start, ClaimedNanos(e, p.rate), p.rate, ClaimSlack(p, |s.claims|), ClaimSlack(p, 1));
  }

  lemma ClaimIsPaid(held: int, added: int, full: int, span: int, claimed: int, r: int, slack: int, more: int)
    requires held * NANOS_PER_SEC <= full + span * r + slack
    requires added * NANOS_PER_SEC - claimed * r <= more
    ensures (held + added) * NANOS_PER_SEC <= full + (span + claimed) * r + (slack + more)
  {
    assert (span + claimed) * r == span * r + claimed * r;
  }

  /** A step that moves tokens between the bucket, the threads and the log. */
  lemma MoveTokens(p: Scaled, start: u64, s: State, s': State, t: nat)
    requires Inv(p, start, s) && t < |s.threads| && |s'.threads| == |s.threads|
    requires s'.threads == s.threads[t := s'.threads[t]] && ThreadOk(p, s', s'.threads[t])
    requires s'.last == s.last && s.clock <= s'.clock && s'.claims == s.claims && s'.tokens <= p.capacity
    requires s'.tokens + Permitted(s'.log) + Owed(s'.threads[t]) <= s.tokens + Permitted(s.log) + Owed(s.threads[t])
    ensures Inv(p, start, s')
  {
    PendingUpdate(s.threads, t, s'.threads[t]);
    OtherThreadsStayOk(p, s, s', t, s'.threads[t]);
    assert s'.tokens + Permitted(s'.log) + Pending(s'.threads) <= s.tokens + Permitted(s.log) + Pending(s.threads);
  }

  lemma DecideStep(p: Scaled, start: u64, s: State, t: nat)
    requires Inv(p, start, s) && t < |s.threads| && s.threads[t].Spending?
    ensures Inv(p, start, Next(p, s, LoadForSpend(t)))
  {
    var s' := Next(p, s, LoadForSpend(t));
    PermittedAppend(s.log, Outcome(t, s.threads[t].cost, false, s.tokens / SCALE));
    MoveTokens(p, start, s, s', t);
  }

  lemma CoveredCostIsExact(cost: u64, seen: u64)
    requires SatMul(cost, SCALE) <= seen <= U64_MAX / 2
    ensures SatMul(cost, SCALE) == cost * SCALE
  {
  }

  /** What a spending compare-and-swap can do to the level and the log. */
  lemma SpendMovesCost(p: Scaled, start: u64, s: State, t: nat, spurious: bool)
    requires Inv(p, start, s) && t < |s.threads| && s.threads[t].SpendLoaded?
    ensures var s' := Next(p, s, SpendCas(t, spurious));
            && s'.tokens + Permitted(s'.log) == s.tokens + Permitted(s.log)
            && (p.capacity == 0 ==> Permitted(s'.log) == Permitted(s.log))
  {
    assert ThreadOk(p, s, s.threads[t]);
    var SpendLoaded(cost, seen) := s.threads[t];
    CoveredCostIsExact(cost, seen);
    var left := SatSub(seen, SatMul(cost, SCALE));
    PermittedAppend(s.log, Outcome(t, cost, true, left / SCALE));
  }

  lemma SpendStep(p: Scaled, start: u64, s: State, t: nat, spurious: bool)
    requires Inv(p, start, s) && t < |s.threads| && s.threads[t].SpendLoaded?
    ensures Inv(p, start, Next(p, s, SpendCas(t, spurious)))
  {
    SpendMovesCost(p, start, s, t, spurious);
    MoveTokens(p, start, s, Next(p, s, SpendCas(t, spurious)), t);
  }

  lemma CreditStep(p: Scaled, start: u64, s: State, a: Action)
    requires Inv(p, start, s) && Enabled(s, a) && (a.LoadForCredit? || a.CreditCas?)
    ensures Inv(p, start, Next(p, s, a))
  {
    assert ThreadOk(p, s, s.threads[a.thread]);
    MoveTokens(p, start, s, Next(p, s, a), a.thread);
  }

  lemma RefillLoopStep(p: Scaled, start: u64, s: State, a: Action)
    requires Inv(p, start, s) && Enabled(s, a) && (a.Begin? || a.LoadLast?)
    ensures Inv(p, start, Next(p, s, a))
  {
    assert ThreadOk(p, s, s.threads[a.thread]);
    MoveTokens(p, start, s, Next(p, s, a), a.thread);
  }

  lemma StepKeepsInv(p: Scaled, start: u64, s: State, a: Action)
    requires Inv(p, start, s) && Enabled(s, a)
    ensures Inv(p, start, Next(p, s, a))
    ensures s.last <= Next(p, s, a).last
  {
    match a
    case Tick(_) =>
      forall u | 0 <= u < |s.threads| ensures ThreadOk(p, Next(p, s, a), s.threads[u]) {
        assert ThreadOk(p, s, s.threads[u]);
      }
    case Begin(_, _, _) => RefillLoopStep(p, start, s, a);
    case LoadLast(_) => RefillLoopStep(p, start, s, a);
    case ClaimCas(t, spurious) => ClaimStep(p, start, s, t, spurious);
    case LoadForCredit(_) => CreditStep(p, start, s, a);
    case CreditCas(_, _) => CreditStep(p, start, s, a);
    case LoadForSpend(t) => DecideStep(p, start, s, t);
    case SpendCas(t, spurious) => SpendStep(p, start, s, t, spurious);
  }

  lemma {:induction false} RunKeepsInv(p: Scaled, start: u64, s: State, schedule: seq<Action>)
    requires Inv(p, start, s) && Feasible(p, s, schedule)
    ensures Inv(p, start, Exec(p, s, schedule))
    ensures s.last <= Exec(p, s, schedule).last
    decreases schedule
  {
    if schedule != [] {
      StepKeepsInv(p, start, s, schedule[0]);
      RunKeepsInv(p, start, Next(p, s, schedule[0]), schedule[1..]);
    }
  }

  // What every schedule keeps.

  /** Conservation under any interleaving and any spurious failures: what is in the
      bucket, what was permitted and what is claimed but not credited never exceed
      the capacity plus what the claimed time is worth, up to each claim's rounding. */
  lemma {:induction false} ConcurrentBudget(p: Scaled, threads: nat, start: u64, schedule: seq<Action>)
    requires p.Valid() && Feasible(p, Initial(p, threads, start), schedule)
    ensures var s := Exec(p, Initial(p, threads, start), schedule);
            && s.tokens <= p.capacity && start <= s.last <= s.clock
            && (s.tokens + Permitted(s.log) + Pending(s.threads)) * NANOS_PER_SEC
               <= p.capacity * NANOS_PER_SEC + (s.last - start) * p.rate + ClaimSlack(p, |s.claims|)
            && Permitted(s.log) * NANOS_PER_SEC
               <= p.capacity * NANOS_PER_SEC + (s.clock - start) * p.rate + ClaimSlack(p, |s.claims|)
  {
    InitialInv(p, threads, start);
    RunKeepsInv(p, start, Initial(p, threads, start), schedule);
    var s := Exec(p, Initial(p, threads, start), schedule);
    MulMono(s.last - start, s.clock - start, p.rate);
  }

  /** The same for any state that the protocol can be in since `start`, with the time
      counted from any earlier instant. */
  lemma PermittedWithinBudget(p: Scaled, start: u64, s: State, earlier: u64)
    requires Inv(p, start, s) && earlier <= start
    ensures Permitted(s.log) * NANOS_PER_SEC
         <= p.capacity * NANOS_PER_SEC + (s.clock - earlier) * p.rate + ClaimSlack(p, |s.claims|)
  {
    MulMono(s.last - start, s.clock - earlier, p.rate);
  }

  /** Sum of the nanoseconds taken by the claims. */
  function ClaimedTime(claims: seq<Claim>): int {
    if claims == [] then 0
    else ClaimedTime(claims[..|claims| - 1]) + claims[|claims| - 1].to - claims[|claims| - 1].from
  }

  lemma {:induction false} ChainCovers(start: u64, claims: seq<Claim>, last: u64)
    requires Chained(start, claims, last)
    ensures ClaimedTime(claims) == last - start
    ensures forall i, j :: 0 <= i < j < |claims| ==> claims[i].to <= claims[j].from
  {
    if claims != [] {
      var init := claims[..|claims| - 1];
      var c := claims[|claims| - 1];
      ChainCovers(start, init, c.from);
      forall i, j | 0 <= i < j < |claims| ensures claims[i].to <= claims[j].from {
        if j == |claims| - 1 && i < j - 1 {
          assert init[i].to <= init[j - 1].from;
        }
      }
    }
  }

  /** No nanosecond is claimed twice and none is skipped: the claims of any schedule
      are disjoint, ordered, and add up to the time the timestamp has covered. */
  lemma {:induction false} ClaimsAreDisjoint(p: Scaled, threads: nat, start: u64, schedule: seq<Action>)
    requires p.Valid() && Feasible(p, Initial(p, threads, start), schedule)
    ensures var s := Exec(p, Initial(p, threads, start), schedule);
            && (forall i, j :: 0 <= i < j < |s.claims| ==> s.claims[i].to <= s.claims[j].from)
            && ClaimedTime(s.claims) == s.last - start <= s.clock - start
  {
    InitialInv(p, threads, start);
    RunKeepsInv(p, start, Initial(p, threads, start), schedule);
    var s := Exec(p, Initial(p, threads, start), schedule);
    ChainCovers(start, s.claims, s.last);
  }

  /** Each of those claims takes time of its own, on every schedule, exactly for the
      rates of `ClaimsMakeProgressIff`; for any other rate one call already credits
      tokens for a nanosecond that it leaves for the next call to claim again. */
  lemma NoNanosecondCreditedTwiceIff(p: Scaled)
    requires p.Valid()
    ensures (forall threads: nat, start: u64, schedule: seq<Action> :: EveryClaimTakesTime(p, threads, start, schedule))
       <==> TimelyRate(p)
  {
    if TimelyRate(p) {
      forall threads: nat, start: u64, schedule: seq<Action>
        ensures EveryClaimTakesTime(p, threads, start, schedule)
      {
        if Feasible(p, Initial(p, threads, start), schedule) {
          InitialInv(p, threads, start);
          RunKeepsInv(p, start, Initial(p, threads, start), schedule);
        }
      }
    } else {
      ClaimThatTakesNoTime(p);
    }
  }

  predicate EveryClaimTakesTime(p: Scaled, threads: nat, start: u64, schedule: seq<Action>) {
    var s := Initial(p, threads, start);
    Feasible(p, s, schedule) ==> AllTakeTime(Exec(p, s, schedule).claims)
  }

  predicate AllTakeTime(claims: seq<Claim>) {
    forall i :: 0 <= i < |claims| ==> claims[i].from < claims[i].to
  }

  lemma ClaimThatTakesNoTime(p: Scaled)
    requires p.Valid() && p.rate > 0 && !TimelyRate(p)
    ensures !EveryClaimTakesTime(p, 1, 0, [Tick(1), Begin(0, 1, 1), LoadLast(0), ClaimCas(0, false)])
  {
    var s0 := Initial(p, 1, 0);
    var s1 := Next(p, s0, Tick(1));
    var s2 := Next(p, s1, Begin(0, 1, 1));
    FirstNanosecond(p.rate);
    var s3 := Next(p, s2, LoadLast(0));
    var s4 := Next(p, s3, ClaimCas(0, false));
    var rest := [Begin(0, 1, 1), LoadLast(0), ClaimCas(0, false)];
    ExecOne(p, s0, Tick(1), rest);
    ExecOne(p, s1, Begin(0, 1, 1), rest[1..]);
    ExecOne(p, s2, LoadLast(0), rest[2..]);
    ExecOne(p, s3, ClaimCas(0, false), rest[3..]);
    assert rest == [Begin(0, 1, 1)] + rest[1..] && rest[1..] == [LoadLast(0)] + rest[2..];
    assert rest[2..] == [ClaimCas(0, false)] + rest[3..] && rest[3..] == [];
    assert [Tick(1), Begin(0, 1, 1), LoadLast(0), ClaimCas(0, false)] == [Tick(1)] + rest;
    var schedule := [Tick(1), Begin(0, 1, 1), LoadLast(0), ClaimCas(0, false)];
    assert Feasible(p, s0, schedule);
    assert Exec(p, s0, schedule) == s4;
    assert s4.claims == [Claim(0, 0, p.rate / NANOS_PER_SEC)];
    assert s4.claims[0].from == s4.claims[0].to;
  }

  lemma {:induction false} ExecOne(p: Scaled, s: State, a: Action, rest: seq<Action>)
    requires Enabled(s, a)
    ensures Feasible(p, s, [a] + rest) <==> Feasible(p, Next(p, s, a), rest)
    ensures Feasible(p, s, [a] + rest) ==> Exec(p, s, [a] + rest) == Exec(p, Next(p, s, a), rest)
  {
    assert ([a] + rest)[1..] == rest;
  }

  /** Every lost race moves the thread's view of the timestamp strictly closer to its
      own `now`, so the refill loop of one call loses at most as many races as there
      were nanoseconds left to claim when it began, whatever the other threads do. */
  lemma {:induction false} RefillLosesBoundedRaces(p: Scaled, threads: nat, start: u64, schedule: seq<Action>, t: nat)
    requires p.Valid() && Feasible(p, Initial(p, threads, start), schedule)
    requires t < |Exec(p, Initial(p, threads, start), schedule).threads|
    ensures var s := Exec(p, Initial(p, threads, start), schedule);
            var pc := s.threads[t];
            && (pc.Refilling? ==> pc.failures <= SatSub(pc.now, pc.origin))
            && (pc.Loaded? ==> SatSub(pc.now, pc.last) + pc.failures <= SatSub(pc.now, pc.origin)
                               && pc.last <= s.last
                               && (s.last != pc.last ==> SatSub(pc.now, s.last) < SatSub(pc.now, pc.last)))
  {
    InitialInv(p, threads, start);
    RunKeepsInv(p, start, Initial(p, threads, start), schedule);
  }

  // One call that nobody interrupts.

  lemma {:induction false} ExecAppend(p: Scaled, s: State, front: seq<Action>, back: seq<Action>)
    requires Feasible(p, s, front) && Feasible(p, Exec(p, s, front), back)
    ensures Feasible(p, s, front + back)
    ensures Exec(p, s, front + back) == Exec(p, Exec(p, s, front), back)
    decreases front
  {
    if front == [] {
      assert front + back == back;
    } else {
      assert front + back == [front[0]] + (front[1..] + back);
      ExecAppend(p, Next(p, s, front[0]), front[1..], back);
    }
  }

  function RefillSchedule(p: Scaled, s: State, t: nat): seq<Action> {
    if RefillTokens(SatSub(s.clock, s.last), p.rate) == 0 then [LoadLast(t)]
    else if s.tokens >= p.capacity then [LoadLast(t), ClaimCas(t, false), LoadForCredit(t)]
    else [LoadLast(t), ClaimCas(t, false), LoadForCredit(t), CreditCas(t, false)]
  }

  function SpendSchedule(s: State, t: nat, cost: u64): seq<Action> {
    if s.tokens < SatMul(cost, SCALE) then [LoadForSpend(t)] else [LoadForSpend(t), SpendCas(t, false)]
  }

  lemma {:induction false} SoloRefill(p: Scaled, s: State, t: nat, cost: u64)
    requires t < |s.threads| && s.threads[t] == Refilling(s.clock, cost, s.last, 0)
    ensures var b := Refill(Bucket(s.tokens, s.last, s.clock), p, s.clock);
            && Feasible(p, s, RefillSchedule(p, s, t))
            && Exec(p, s, RefillSchedule(p, s, t)).(claims := [])
               == s.(tokens := b.tokens, last := b.last, threads := s.threads[t := Spending(cost)], claims := [])
  {
    var schedule := RefillSchedule(p, s, t);
    var s1 := Next(p, s, LoadLast(t));
    ExecOne(p, s, LoadLast(t), schedule[1..]);
    assert schedule == [LoadLast(t)] + schedule[1..];
    if |schedule| > 1 {
      var s2 := Next(p, s1, ClaimCas(t, false));
      var s3 := Next(p, s2, LoadForCredit(t));
      assert schedule[1..] == [ClaimCas(t, false)] + schedule[2..];
      assert schedule[2..] == [LoadForCredit(t)] + schedule[3..];
      ExecOne(p, s1, ClaimCas(t, false), schedule[2..]);
      ExecOne(p, s2, LoadForCredit(t), schedule[3..]);
      if |schedule| > 3 {
        assert schedule[3..] == [CreditCas(t, false)] + [];
        ExecOne(p, s3, CreditCas(t, false), []);
      }
    }
  }

  lemma {:induction false} SoloSpend(p: Scaled, s: State, t: nat, cost: u64)
    requires t < |s.threads| && s.threads[t] == Spending(cost)
    ensures var c := Spend(Bucket(s.tokens, s.last, s.clock), SatMul(cost, SCALE));
            && Feasible(p, s, SpendSchedule(s, t, cost))
            && Exec(p, s, SpendSchedule(s, t, cost))
               == s.(tokens := c.bucket.tokens, threads := s.threads[t := Idle],
                     log := s.log + [Outcome(t, cost, c.permitted, c.remaining)])
  {
    var schedule := SpendSchedule(s, t, cost);
    assert schedule == [LoadForSpend(t)] + schedule[1..];
    ExecOne(p, s, LoadForSpend(t), schedule[1..]);
    if |schedule| > 1 {
      assert schedule[1..] == [SpendCas(t, false)] + [];
      ExecOne(p, Next(p, s, LoadForSpend(t)), SpendCas(t, false), []);
    }
  }

  predicate StepsOf(t: nat, schedule: seq<Action>) {
    forall i :: 0 <= i < |schedule| ==> !schedule[i].Tick? && schedule[i].thread == t
  }

  /** A call that runs alone does what the sequential bucket says: same words left
      behind, same decision, same `remaining`. */
  lemma SoloCallIsConsume(p: Scaled, s: State, t: nat, cost: u64) returns (schedule: seq<Action>)
    requires t < |s.threads| && s.threads[t].Idle? && cost > 0
    ensures StepsOf(t, schedule) && Feasible(p, s, schedule)
    ensures var c := Consume(Bucket(s.tokens, s.last, s.clock), p, s.clock, cost);
            Exec(p, s, schedule).(claims := [])
            == s.(tokens := c.bucket.tokens, last := c.bucket.last, claims := [],
                  log := s.log + [Outcome(t, cost, c.permitted, c.remaining)])
  {
    var begun := Next(p, s, Begin(t, cost, s.clock));
    SoloRefill(p, begun, t, cost);
    var refill := RefillSchedule(p, begun, t);
    var refilled := Exec(p, begun, refill);
    var spend := SpendSchedule(refilled, t, cost);
    SoloSpend(p, refilled, t, cost);
    ExecAppend(p, begun, refill, spend);
    ExecOne(p, s, Begin(t, cost, s.clock), refill + spend);
    assert s.threads[t := Idle] == s.threads;
    schedule := [Begin(t, cost, s.clock)] + (refill + spend);
  }
}
