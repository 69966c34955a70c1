/** The leaky bucket's atomics under any interleaving, and their step-by-step
    correspondence with the token bucket's (src/algorithm/leaky_bucket.rs:60-125). */
module LeakySteps {
  import opened Machine
  import opened Internal
  import opened TokenBucket
  import opened TokenRuns
  import opened TokenSteps

  /** One step. Steps of the refill loop are those of the token bucket; the credit
      and the spend work on the level, and a leak is written even when it is empty. */
  function LeakyNext(p: Scaled, s: State, a: Action): State
    requires Enabled(s, a)
  {
    match a
    case LoadForCredit(t) =>
      var Crediting(cost, leaked) := s.threads[t];
      s.(threads := s.threads[t := CreditLoaded(cost, leaked, s.tokens)])
    case CreditCas(t, spurious) =>
      var CreditLoaded(cost, leaked, seen) := s.threads[t];
      if spurious || s.tokens != seen then s.(threads := s.threads[t := Crediting(cost, leaked)])
      else s.(tokens := SatSub(seen, leaked), threads := s.threads[t := Spending(cost)])
    case LoadForSpend(t) =>
      var cost := s.threads[t].cost;
      if SatAdd(s.tokens, SatMul(cost, SCALE)) > p.capacity
      then s.(threads := s.threads[t := Idle],
              log := s.log + [Outcome(t, cost, false, SatSub(p.capacity, s.tokens) / SCALE)])
      else s.(threads := s.threads[t := SpendLoaded(cost, s.tokens)])
    case SpendCas(t, spurious) =>
      var SpendLoaded(cost, seen) := s.threads[t];
      if spurious || s.tokens != seen then s.(threads := s.threads[t := Spending(cost)])
      else
        var filled := SatAdd(seen, SatMul(cost, SCALE));
        s.(tokens := filled, threads := s.threads[t := Idle],
           log := s.log + [Outcome(t, cost, true, SatSub(p.capacity, filled) / SCALE)])
    case _ => Next(p, s, a)
  }

  predicate LeakyFeasible(p: Scaled, s: State, schedule: seq<Action>)
    decreases schedule
  {
    schedule == [] || (Enabled(s, schedule[0]) && LeakyFeasible(p, LeakyNext(p, s, schedule[0]), schedule[1..]))
  }

  function LeakyExec(p: Scaled, s: State, schedule: seq<Action>): State
    requires LeakyFeasible(p, s, schedule)
    decreases schedule
  {
    if schedule == [] then s else LeakyExec(p, LeakyNext(p, s, schedule[0]), schedule[1..])
  }

  function LeakyInitial(threads: nat, start: u64): State {
    State(0, start, start, seq(threads, _ => Idle), [], [])
  }

  // The mirror image, on words and on program counters.

  predicate PcWithin(p: Scaled, pc: Pc) {
    match pc
    case CreditLoaded(_, _, seen) => seen <= p.capacity
    case SpendLoaded(cost, seen) => seen + SatMul(cost, SCALE) <= p.capacity
    case _ => true
  }

  predicate Within(p: Scaled, s: State) {
    p.Valid() && s.tokens <= p.capacity && forall t :: 0 <= t < |s.threads| ==> PcWithin(p, s.threads[t])
  }

  /** A leaky thread about to write an empty leak corresponds to a token thread that
      has yet to look: only the successful write tells that there was no room. */
  function MirrorPc(p: Scaled, pc: Pc): Pc
    requires PcWithin(p, pc)
  {
    match pc
    case CreditLoaded(cost, added, seen) =>
      if seen == 0 then Crediting(cost, added) else CreditLoaded(cost, added, p.capacity - seen)
    case SpendLoaded(cost, seen) => SpendLoaded(cost, p.capacity - seen)
    case _ => pc
  }

  function MirrorState(p: Scaled, s: State): State
    requires Within(p, s)
  {
    s.(tokens := p.capacity - s.tokens,
       threads := seq(|s.threads|, t requires 0 <= t < |s.threads| => MirrorPc(p, s.threads[t])))
  }

  /** The token step that a leaky step corresponds to, if any. */
  function ToToken(s: State, a: Action): seq<Action>
    requires Enabled(s, a)
  {
    match a
    case LoadForCredit(t) => if s.tokens == 0 then [] else [a]
    case CreditCas(t, spurious) =>
      if s.threads[t].seen > 0 then [a]
      else if spurious || s.tokens != 0 then [] else [LoadForCredit(t)]
    case _ => [a]
  }

  lemma MirrorUpdate(p: Scaled, s: State, s': State, t: nat, pc: Pc)
    requires Within(p, s) && t < |s.threads| && PcWithin(p, pc) && s'.tokens <= p.capacity
    requires s'.threads == s.threads[t := pc]
    ensures Within(p, s')
    ensures MirrorState(p, s').threads == MirrorState(p, s).threads[t := MirrorPc(p, pc)]
  {
  }

  lemma SkippedStepMirrors(p: Scaled, s: State, a: Action)
    requires Within(p, s) && Enabled(s, a) && ToToken(s, a) == []
    ensures Within(p, LeakyNext(p, s, a)) && MirrorState(p, LeakyNext(p, s, a)) == MirrorState(p, s)
  {
    var s', t := LeakyNext(p, s, a), a.thread;
    assert PcWithin(p, s.threads[t]);
    MirrorUpdate(p, s, s', t, s'.threads[t]);
    assert MirrorState(p, s).threads == MirrorState(p, s').threads;
  }

  lemma CreditMirrors(p: Scaled, s: State, a: Action)
    requires Within(p, s) && Enabled(s, a) && ToToken(s, a) != [] && (a.LoadForCredit? || a.CreditCas?)
    ensures Within(p, LeakyNext(p, s, a)) && Enabled(MirrorState(p, s), ToToken(s, a)[0])
    ensures Next(p, MirrorState(p, s), ToToken(s, a)[0]) == MirrorState(p, LeakyNext(p, s, a))
  {
    var s', m := LeakyNext(p, s, a), MirrorState(p, s);
    var t := a.thread;
    assert PcWithin(p, s.threads[t]);
    MirrorUpdate(p, s, s', t, s'.threads[t]);
    assert Next(p, m, ToToken(s, a)[0]).threads == MirrorState(p, s').threads;
  }

  lemma OtherStepMirrors(p: Scaled, s: State, a: Action)
    requires Within(p, s) && Enabled(s, a) && ToToken(s, a) != [] && !a.LoadForCredit? && !a.CreditCas?
    ensures Within(p, LeakyNext(p, s, a)) && Enabled(MirrorState(p, s), ToToken(s, a)[0])
    ensures Next(p, MirrorState(p, s), ToToken(s, a)[0]) == MirrorState(p, LeakyNext(p, s, a))
  {
    var s', m := LeakyNext(p, s, a), MirrorState(p, s);
    if !a.Tick? {
      var t := a.thread;
      assert PcWithin(p, s.threads[t]);
      MirrorUpdate(p, s, s', t, s'.threads[t]);
      assert Next(p, m, ToToken(s, a)[0]).threads == MirrorState(p, s').threads;
    }
  }

  /** Each atomic step of the leaky bucket is at most one step of the token bucket,
      on the mirrored words, with the same outcome. */
  lemma {:induction false} LeakyStepMirrors(p: Scaled, s: State, a: Action)
    requires Within(p, s) && Enabled(s, a)
    ensures Within(p, LeakyNext(p, s, a))
    ensures Feasible(p, MirrorState(p, s), ToToken(s, a))
    ensures Exec(p, MirrorState(p, s), ToToken(s, a)) == MirrorState(p, LeakyNext(p, s, a))
  {
    var token := ToToken(s, a);
    if token == [] {
      SkippedStepMirrors(p, s, a);
    } else {
      if a.LoadForCredit? || a.CreditCas? {
        CreditMirrors(p, s, a);
      } else {
        OtherStepMirrors(p, s, a);
      }
      ExecSingle(p, MirrorState(p, s), token[0]);
      assert token == [token[0]];
    }
  }

  lemma {:induction false} ExecSingle(p: Scaled, s: State, a: Action)
    requires Enabled(s, a)
    ensures Feasible(p, s, [a]) && Exec(p, s, [a]) == Next(p, s, a)
  {
    ExecOne(p, s, a, []);
    assert [a] == [a] + [];
  }

  /** Every leaky schedule is a token schedule, seen in the mirror. */
  lemma {:induction false} LeakyRunMirrors(p: Scaled, s: State, schedule: seq<Action>) returns (token: seq<Action>)
    requires Within(p, s) && LeakyFeasible(p, s, schedule)
    ensures Within(p, LeakyExec(p, s, schedule))
    ensures Feasible(p, MirrorState(p, s), token) && |token| <= |schedule|
    ensures Exec(p, MirrorState(p, s), token) == MirrorState(p, LeakyExec(p, s, schedule))
    decreases schedule
  {
    if schedule == [] {
      token := [];
    } else {
      LeakyStepMirrors(p, s, schedule[0]);
      var rest := LeakyRunMirrors(p, LeakyNext(p, s, schedule[0]), schedule[1..]);
      ExecAppend(p, MirrorState(p, s), ToToken(s, schedule[0]), rest);
      token := ToToken(s, schedule[0]) + rest;
    }
  }

  // And back.

  /** No thread is about to write an empty leak. */
  predicate NoEmptyLeak(s: State) {
    forall t :: 0 <= t < |s.threads| && s.threads[t].CreditLoaded? ==> s.threads[t].seen > 0
  }

  function FromToken(s: State, a: Action): seq<Action> {
    if a.LoadForCredit? && s.tokens == 0 then [a, CreditCas(a.thread, false)] else [a]
  }

  lemma {:induction false} TokenStepMirrors(p: Scaled, s: State, a: Action)
    requires Within(p, s) && NoEmptyLeak(s) && Enabled(MirrorState(p, s), a)
    ensures LeakyFeasible(p, s, FromToken(s, a))
    ensures var s' := LeakyExec(p, s, FromToken(s, a));
            Within(p, s') && NoEmptyLeak(s') && MirrorState(p, s') == Next(p, MirrorState(p, s), a)
  {
    assert !a.Tick? ==> PcWithin(p, s.threads[a.thread]);
    var s1 := LeakyNext(p, s, a);
    LeakyStepMirrors(p, s, a);
    if |FromToken(s, a)| == 2 {
      var cas := CreditCas(a.thread, false);
      LeakyStepMirrors(p, s1, cas);
      LeakyExecTwo(p, s, a, cas);
      var s2 := LeakyNext(p, s1, cas);
      assert MirrorState(p, s1) == MirrorState(p, s);
      ExecSingle(p, MirrorState(p, s1), a);
    } else {
      LeakyExecOne(p, s, a);
      ExecSingle(p, MirrorState(p, s), a);
    }
  }

  lemma {:induction false} LeakyExecOne(p: Scaled, s: State, a: Action)
    requires Enabled(s, a)
    ensures LeakyFeasible(p, s, [a]) && LeakyExec(p, s, [a]) == LeakyNext(p, s, a)
  {
    assert [a][1..] == [];
  }

  lemma {:induction false} LeakyExecTwo(p: Scaled, s: State, a: Action, a': Action)
    requires Enabled(s, a) && Enabled(LeakyNext(p, s, a), a')
    ensures LeakyFeasible(p, s, [a, a'])
    ensures LeakyExec(p, s, [a, a']) == LeakyNext(p, LeakyNext(p, s, a), a')
  {
    LeakyExecOne(p, LeakyNext(p, s, a), a');
    assert [a, a'][1..] == [a'];
  }

  lemma {:induction false} LeakyExecAppend(p: Scaled, s: State, front: seq<Action>, back: seq<Action>)
    requires LeakyFeasible(p, s, front) && LeakyFeasible(p, LeakyExec(p, s, front), back)
    ensures LeakyFeasible(p, s, front + back)
    ensures LeakyExec(p, s, front + back) == LeakyExec(p, LeakyExec(p, s, front), back)
    decreases front
  {
    if front == [] {
      assert front + back == back;
    } else {
      assert front + back == [front[0]] + (front[1..] + back);
      LeakyExecAppend(p, LeakyNext(p, s, front[0]), front[1..], back);
    }
  }

  /** Every token schedule is a leaky schedule, seen in the mirror. */
  lemma {:induction false} TokenRunMirrors(p: Scaled, s: State, schedule: seq<Action>) returns (leaky: seq<Action>)
    requires Within(p, s) && NoEmptyLeak(s) && Feasible(p, MirrorState(p, s), schedule)
    ensures LeakyFeasible(p, s, leaky) && Within(p, LeakyExec(p, s, leaky))
    ensures MirrorState(p, LeakyExec(p, s, leaky)) == Exec(p, MirrorState(p, s), schedule)
    decreases schedule
  {
    if schedule == [] {
      leaky := [];
    } else {
      TokenStepMirrors(p, s, schedule[0]);
      var first := FromToken(s, schedule[0]);
      var rest := TokenRunMirrors(p, LeakyExec(p, s, first), schedule[1..]);
      LeakyExecAppend(p, s, first, rest);
      leaky := first + rest;
    }
  }

  lemma InitialMirrors(p: Scaled, threads: nat, start: u64)
    requires p.Valid()
    ensures Within(p, LeakyInitial(threads, start)) && NoEmptyLeak(LeakyInitial(threads, start))
    ensures MirrorState(p, LeakyInitial(threads, start)) == Initial(p, threads, start)
  {
    var s := LeakyInitial(threads, start);
    forall t | 0 <= t < threads ensures MirrorPc(p, s.threads[t]) == Idle {
    }
    assert MirrorState(p, s).threads == Initial(p, threads, start).threads;
  }

  /** From creation, the two buckets can produce exactly the same logs of decisions. */
  lemma {:induction false} SameLogs(p: Scaled, threads: nat, start: u64, log: seq<Outcome>)
    requires p.Valid()
    ensures (exists schedule :: LeakyFeasible(p, LeakyInitial(threads, start), schedule)
                             && LeakyExec(p, LeakyInitial(threads, start), schedule).log == log)
       <==> (exists schedule :: Feasible(p, Initial(p, threads, start), schedule)
                             && Exec(p, Initial(p, threads, start), schedule).log == log)
  {
    InitialMirrors(p, threads, start);
    var s := LeakyInitial(threads, start);
    if schedule :| LeakyFeasible(p, s, schedule) && LeakyExec(p, s, schedule).log == log {
      var token := LeakyRunMirrors(p, s, schedule);
    }
    if schedule :| Feasible(p, Initial(p, threads, start), schedule)
                   && Exec(p, Initial(p, threads, start), schedule).log == log {
      var leaky := TokenRunMirrors(p, s, schedule);
    }
  }

  /** So the leaky bucket keeps the token bucket's budget, bursts included. */
  lemma {:induction false} LeakyConcurrentBudget(p: Scaled, threads: nat, start: u64, schedule: seq<Action>)
    requires p.Valid() && LeakyFeasible(p, LeakyInitial(threads, start), schedule)
    ensures var s := LeakyExec(p, LeakyInitial(threads, start), schedule);
            && s.tokens <= p.capacity && start <= s.last <= s.clock
            && Permitted(s.log) * NANOS_PER_SEC
               <= p.capacity * NANOS_PER_SEC + (s.clock - start) * p.rate + ClaimSlack(p, |s.claims|)
  {
    InitialMirrors(p, threads, start);
    var token := LeakyRunMirrors(p, LeakyInitial(threads, start), schedule);
    ConcurrentBudget(p, threads, start, token);
  }
}
