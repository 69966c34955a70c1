/** Sampling rate 1 against the token bucket under concurrency: up to 500,000 tokens per
    second, where no accrual exceeds an `i64`, their interleavings produce the same logs
    (src/algorithm/probabilistic_token_bucket.rs:299-331, 358-379, 422-424;
    src/algorithm/token_bucket.rs:70-136). */
module UnsampledLogs {
  import opened Machine
  import opened Arithmetic
  import opened Internal
  import opened Probabilistic
  import opened UnsampledSteps
  import TB = TokenBucket
  import TS = TokenSteps

  predicate Slow(p: Params) {
    p.Valid() && 2 * p.rate <= NANOS_PER_SEC
  }

  /** Within a `fetch_update`, a thread of the token bucket has the same left to do as one
      that has not begun it. */
  predicate SamePc(pc: Pc, q: TS.Pc) {
    match pc
    case Idle => q.Idle?
    case Refilling(now, cost) => q.Refilling? && q.now == now && q.cost == cost
    case Loaded(now, cost, last) => q.Loaded? && q.now == now && q.cost == cost && q.last == last
    case Crediting(cost, added) => (q.Crediting? || q.CreditLoaded?) && q.cost == cost && q.added == added
    case Spending(cost) => (q.Spending? || q.SpendLoaded?) && q.cost == cost
  }

  predicate SameThreads(threads: seq<Pc>, others: seq<TS.Pc>) {
    |threads| == |others| && forall t :: 0 <= t < |threads| ==> SamePc(threads[t], others[t])
  }

  predicate Same(s: State, u: TS.State) {
    && s.tokens == u.tokens && s.last == u.last && s.clock == u.clock && s.log == u.log
    && SameThreads(s.threads, u.threads)
  }

  /** No thread is between the load and the compare-and-swap of a `fetch_update`. */
  predicate Settled(u: TS.State) {
    forall t :: 0 <= t < |u.threads| ==> !u.threads[t].CreditLoaded? && !u.threads[t].SpendLoaded?
  }

  lemma SameUpdate(threads: seq<Pc>, others: seq<TS.Pc>, t: nat, pc: Pc, q: TS.Pc)
    requires SameThreads(threads, others) && t < |threads| && SamePc(pc, q)
    ensures SameThreads(threads[t := pc], others[t := q])
  {
  }

  /** What the two refill functions say of any elapsed time. */
  lemma SameAccrual(p: Params, e: u64)
    requires Slow(p)
    ensures RefillTokensI(e, p.rate) == RefillTokens(e, p.rate)
    ensures NanosForTokensI(RefillTokensI(e, p.rate), p.rate) == NanosForTokens(RefillTokens(e, p.rate), p.rate)
  {
    MulMono(e, U64_MAX, p.rate);
    RefillFloor(e, p.rate);
  }

  lemma SameCost(p: Params, tokens: i64, cost: u64)
    requires p.Valid() && 0 <= tokens <= p.capacity
    ensures tokens >= ScaledI(cost) <==> tokens >= SatMul(cost, SCALE)
    ensures tokens >= ScaledI(cost) ==> ScaledI(cost) == SatMul(cost, SCALE)
  {
  }

  // Every unsampled schedule is a token schedule.

  function ToToken(p: Params, s: State, a: Action): seq<TS.Action>
    requires Enabled(s, a)
  {
    match a
    case Tick(nanos) => [TS.Tick(nanos)]
    case Begin(t, cost, now) => [TS.Begin(t, cost, now)]
    case LoadLast(t) => [TS.LoadLast(t)]
    case ClaimCas(t, spurious) => [TS.ClaimCas(t, spurious)]
    case Credit(t) => [TS.LoadForCredit(t)] + if s.tokens >= p.capacity then [] else [TS.CreditCas(t, false)]
    case Spend(t) =>
      [TS.LoadForSpend(t)] + if s.tokens >= ScaledI(s.threads[t].cost) then [TS.SpendCas(t, false)] else []
  }

  lemma {:induction false} TokenExecTwo(p: TB.Scaled, u: TS.State, a: TS.Action, a': TS.Action)
    requires TS.Enabled(u, a)
    ensures TS.Feasible(p, u, [a]) && TS.Exec(p, u, [a]) == TS.Next(p, u, a)
    ensures TS.Enabled(TS.Next(p, u, a), a') ==>
      TS.Feasible(p, u, [a, a']) && TS.Exec(p, u, [a, a']) == TS.Next(p, TS.Next(p, u, a), a')
  {
    assert [a] == [a] + [] && [a'] == [a'] + [] && [a, a'] == [a] + [a'];
    TS.ExecOne(p, u, a, []);
    if TS.Enabled(TS.Next(p, u, a), a') {
      TS.ExecOne(p, TS.Next(p, u, a), a', []);
      TS.ExecOne(p, u, a, [a']);
    }
  }

  lemma RefillStepIsToken(p: Params, s: State, u: TS.State, a: Action)
    requires Slow(p) && Same(s, u) && Enabled(s, a) && !a.Credit? && !a.Spend?
    ensures TS.Enabled(u, ToToken(p, s, a)[0]) && Same(Next(p, s, a), TS.Next(Unsigned(p), u, ToToken(p, s, a)[0]))
  {
    var s', u' := Next(p, s, a), TS.Next(Unsigned(p), u, ToToken(p, s, a)[0]);
    if !a.Tick? {
      var t := a.thread;
      assert SamePc(s.threads[t], u.threads[t]);
      if a.LoadLast? {
        SameAccrual(p, SatSub(s.threads[t].now, s.last));
      }
      if a.ClaimCas? {
        SameAccrual(p, SatSub(s.threads[t].now, s.threads[t].last));
      }
      SameUpdate(s.threads, u.threads, t, s'.threads[t], u'.threads[t]);
    }
  }

  lemma {:induction false} CreditIsToken(p: Params, s: State, u: TS.State, t: nat)
    requires p.Valid() && Same(s, u) && 0 <= s.tokens <= p.capacity && Enabled(s, Credit(t)) && u.threads[t].Crediting?
    ensures TS.Feasible(Unsigned(p), u, ToToken(p, s, Credit(t)))
    ensures var u' := TS.Exec(Unsigned(p), u, ToToken(p, s, Credit(t)));
            Same(Next(p, s, Credit(t)), u') && u'.threads == u.threads[t := TS.Spending(s.threads[t].cost)]
  {
    assert SamePc(s.threads[t], u.threads[t]);
    TokenExecTwo(Unsigned(p), u, TS.LoadForCredit(t), TS.CreditCas(t, false));
    var s', u' := Next(p, s, Credit(t)), TS.Exec(Unsigned(p), u, ToToken(p, s, Credit(t)));
    assert u'.threads == u.threads[t := TS.Spending(s.threads[t].cost)];
    SameUpdate(s.threads, u.threads, t, s'.threads[t], u'.threads[t]);
  }

  lemma {:induction false} SpendIsToken(p: Params, s: State, u: TS.State, t: nat)
    requires p.Valid() && Same(s, u) && 0 <= s.tokens <= p.capacity && Enabled(s, Spend(t)) && u.threads[t].Spending?
    ensures TS.Feasible(Unsigned(p), u, ToToken(p, s, Spend(t)))
    ensures var u' := TS.Exec(Unsigned(p), u, ToToken(p, s, Spend(t)));
            Same(Next(p, s, Spend(t)), u') && u'.threads == u.threads[t := TS.Idle]
  {
    assert SamePc(s.threads[t], u.threads[t]);
    SameCost(p, s.tokens, s.threads[t].cost);
    TokenExecTwo(Unsigned(p), u, TS.LoadForSpend(t), TS.SpendCas(t, false));
    var s', u' := Next(p, s, Spend(t)), TS.Exec(Unsigned(p), u, ToToken(p, s, Spend(t)));
    assert u'.threads == u.threads[t := TS.Idle];
    SameUpdate(s.threads, u.threads, t, s'.threads[t], u'.threads[t]);
  }

  /** Each step of the unsampled path is one or two of the token bucket. */
  lemma {:induction false} StepIsToken(p: Params, s: State, u: TS.State, a: Action)
    requires Slow(p) && 0 <= s.tokens <= p.capacity && Same(s, u) && Settled(u) && Enabled(s, a)
    ensures TS.Feasible(Unsigned(p), u, ToToken(p, s, a))
    ensures var u' := TS.Exec(Unsigned(p), u, ToToken(p, s, a)); Same(Next(p, s, a), u') && Settled(u')
  {
    assert !a.Tick? ==> SamePc(s.threads[a.thread], u.threads[a.thread]);
    match a
    case Credit(t) => CreditIsToken(p, s, u, t);
    case Spend(t) => SpendIsToken(p, s, u, t);
    case _ =>
      RefillStepIsToken(p, s, u, a);
      TokenExecTwo(Unsigned(p), u, ToToken(p, s, a)[0], TS.Tick(0));
      assert ToToken(p, s, a) == [ToToken(p, s, a)[0]];
  }

  lemma {:induction false} RunIsToken(p: Params, start: u64, s: State, u: TS.State, schedule: seq<Action>)
    returns (token: seq<TS.Action>)
    requires Slow(p) && Inv(p, start, s) && Same(s, u) && Settled(u) && Feasible(p, s, schedule)
    ensures TS.Feasible(Unsigned(p), u, token)
    ensures Same(Exec(p, s, schedule), TS.Exec(Unsigned(p), u, token))
    decreases schedule
  {
    if schedule == [] {
      token := [];
    } else {
      var first := ToToken(p, s, schedule[0]);
      StepKeepsInv(p, start, s, schedule[0]);
      StepIsToken(p, s, u, schedule[0]);
      var rest := RunIsToken(p, start, Next(p, s, schedule[0]), TS.Exec(Unsigned(p), u, first), schedule[1..]);
      TS.ExecAppend(Unsigned(p), u, first, rest);
      token := first + rest;
    }
  }

  // And back.

  /** Steps inside a `fetch_update` are none; the one that ends it is the whole of it. */
  function FromToken(p: Params, u: TS.State, a: TS.Action): seq<Action>
    requires p.Valid() && TS.Enabled(u, a)
  {
    match a
    case Tick(nanos) => [Tick(nanos)]
    case Begin(t, cost, now) => [Begin(t, cost, now)]
    case LoadLast(t) => [LoadLast(t)]
    case ClaimCas(t, spurious) => [ClaimCas(t, spurious)]
    case LoadForCredit(t) => if u.tokens >= p.capacity then [Credit(t)] else []
    case CreditCas(t, spurious) => if spurious || u.tokens != u.threads[t].seen then [] else [Credit(t)]
    case LoadForSpend(t) => if u.tokens < SatMul(u.threads[t].cost, SCALE) then [Spend(t)] else []
    case SpendCas(t, spurious) => if spurious || u.tokens != u.threads[t].seen then [] else [Spend(t)]
  }

  lemma {:induction false} ExecSingle(p: Params, s: State, a: Action)
    requires Enabled(s, a)
    ensures Feasible(p, s, [a]) && Exec(p, s, [a]) == Next(p, s, a)
  {
    assert [a][1..] == [];
  }

  lemma {:induction false} UpdateStepFrom(p: Params, start: u64, s: State, u: TS.State, a: TS.Action)
    requires Inv(p, start, s) && TS.Inv(Unsigned(p), start, u) && Same(s, u) && TS.Enabled(u, a)
    requires a.LoadForCredit? || a.CreditCas? || a.LoadForSpend? || a.SpendCas?
    ensures Feasible(p, s, FromToken(p, u, a))
    ensures Same(Exec(p, s, FromToken(p, u, a)), TS.Next(Unsigned(p), u, a))
  {
    var t, u' := a.thread, TS.Next(Unsigned(p), u, a);
    var pc := s.threads[t];
    assert SamePc(pc, u.threads[t]) && TS.ThreadOk(Unsigned(p), u, u.threads[t]);
    SameCost(p, s.tokens, pc.cost);
    if FromToken(p, u, a) == [] {
      SameUpdate(s.threads, u.threads, t, pc, u'.threads[t]);
      assert s.threads[t := pc] == s.threads;
    } else {
      var step := FromToken(p, u, a)[0];
      ExecSingle(p, s, step);
      assert FromToken(p, u, a) == [step];
      SameUpdate(s.threads, u.threads, t, Next(p, s, step).threads[t], u'.threads[t]);
    }
  }

  /** Each step of the token bucket is at most one of the unsampled path. */
  lemma {:induction false} StepFromToken(p: Params, start: u64, s: State, u: TS.State, a: TS.Action)
    requires Slow(p) && Inv(p, start, s) && TS.Inv(Unsigned(p), start, u) && Same(s, u) && TS.Enabled(u, a)
    ensures Feasible(p, s, FromToken(p, u, a))
    ensures Same(Exec(p, s, FromToken(p, u, a)), TS.Next(Unsigned(p), u, a))
  {
    if a.LoadForCredit? || a.CreditCas? || a.LoadForSpend? || a.SpendCas? {
      UpdateStepFrom(p, start, s, u, a);
    } else {
      assert !a.Tick? ==> SamePc(s.threads[a.thread], u.threads[a.thread]);
      var step := FromToken(p, u, a)[0];
      assert FromToken(p, u, a) == [step];
      ExecSingle(p, s, step);
      RefillStepIsToken(p, s, u, step);
    }
  }

  lemma {:induction false} ExecAppend(p: Params, s: State, front: seq<Action>, back: seq<Action>)
    requires Feasible(p, s, front) && Feasible(p, Exec(p, s, front), back)
    ensures Feasible(p, s, front + back)
    ensures Exec(p, s, front + back) == Exec(p, Exec(p, s, front), back)
    decreases front
  {
    if front == [] {
      assert front + back == back;
    } else {
      assert front + back == [front[0]] + (front[1..] + back);
      ExecAppend(p, Next(p, s, front[0]), front[1..], back);
    }
  }

  lemma {:induction false} RunFromToken(p: Params, start: u64, s: State, u: TS.State, token: seq<TS.Action>)
    returns (schedule: seq<Action>)
    requires Slow(p) && Inv(p, start, s) && TS.Inv(Unsigned(p), start, u) && Same(s, u)
    requires TS.Feasible(Unsigned(p), u, token)
    ensures Feasible(p, s, schedule)
    ensures Same(Exec(p, s, schedule), TS.Exec(Unsigned(p), u, token))
    decreases token
  {
    if token == [] {
      schedule := [];
    } else {
      var first := FromToken(p, u, token[0]);
      StepFromToken(p, start, s, u, token[0]);
      RunKeepsInv(p, start, s, first);
      TS.StepKeepsInv(Unsigned(p), start, u, token[0]);
      var rest := RunFromToken(p, start, Exec(p, s, first), TS.Next(Unsigned(p), u, token[0]), token[1..]);
      ExecAppend(p, s, first, rest);
      schedule := first + rest;
    }
  }

  lemma InitialsAreSame(p: Params, threads: nat, start: u64)
    requires p.Valid()
    ensures Same(Initial(p, threads, start), TS.Initial(Unsigned(p), threads, start))
    ensures Settled(TS.Initial(Unsigned(p), threads, start))
    ensures Inv(p, start, Initial(p, threads, start))
    ensures TS.Inv(Unsigned(p), start, TS.Initial(Unsigned(p), threads, start))
  {
    PendingIsNatural(Initial(p, threads, start).threads);
    TS.InitialInv(Unsigned(p), threads, start);
  }

  ghost predicate Produces(p: Params, threads: nat, start: u64, log: seq<Outcome>) {
    exists schedule :: Feasible(p, Initial(p, threads, start), schedule)
                       && Exec(p, Initial(p, threads, start), schedule).log == log
  }

  ghost predicate TokenProduces(p: TB.Scaled, threads: nat, start: u64, log: seq<Outcome>) {
    exists token :: TS.Feasible(p, TS.Initial(p, threads, start), token)
                    && TS.Exec(p, TS.Initial(p, threads, start), token).log == log
  }

  /** From creation, the unsampled path and the token bucket can produce exactly the same
      logs of decisions, any number of threads racing. */
  lemma SameLogs(p: Params, threads: nat, start: u64, log: seq<Outcome>)
    requires Slow(p)
    ensures Produces(p, threads, start, log) <==> TokenProduces(Unsigned(p), threads, start, log)
  {
    InitialsAreSame(p, threads, start);
    var s, u := Initial(p, threads, start), TS.Initial(Unsigned(p), threads, start);
    if Produces(p, threads, start, log) {
      var schedule :| Feasible(p, s, schedule) && Exec(p, s, schedule).log == log;
      var token := RunIsToken(p, start, s, u, schedule);
      assert TS.Exec(Unsigned(p), u, token).log == log;
    }
    if TokenProduces(Unsigned(p), threads, start, log) {
      var token :| TS.Feasible(Unsigned(p), u, token) && TS.Exec(Unsigned(p), u, token).log == log;
      var schedule := RunFromToken(p, start, s, u, token);
      assert Exec(p, s, schedule).log == log;
    }
  }
}
