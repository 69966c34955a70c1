/** A sampled-bucket request that nobody interrupts does, step by step, what the sequential
    request function says (src/algorithm/probabilistic_token_bucket.rs:402-515). */
module ProbabilisticSolo {
  import opened Machine
  import opened Probabilistic
  import opened ProbabilisticSteps

  lemma {:induction false} ExecOne(p: Params, s: State, a: Action, rest: seq<Action>)
    requires p.Valid() && Enabled(s, a) && Feasible(p, Next(p, s, a), rest)
    ensures Feasible(p, s, [a] + rest)
    ensures Exec(p, s, [a] + rest) == Exec(p, Next(p, s, a), rest)
  {
    assert ([a] + rest)[1..] == rest;
  }

  /** The words that the request finds. */
  function Words(s: State): Bucket {
    Bucket(s.tokens, s.last, s.tick, 0)
  }

  /** The thread is done, the words are those of the answer, and the log ends with it. */
  predicate Ends(s: State, s': State, t: nat, a: Answer) {
    && s'.tokens == a.bucket.tokens && s'.last == a.bucket.last && s'.tick == a.bucket.tick
    && s'.clock == s.clock && s'.threads == s.threads
    && |s'.log| == |s.log| + 1 && s'.log[..|s.log|] == s.log && s'.log[|s.log|].permitted == a.permitted
  }

  // An unsampled request.

  function UnsampledSchedule(s: State, t: nat, covers: bool, word: u64): seq<Action> {
    if covers then [FastLoad(t)] + []
    else [FastLoad(t)] + ([ReadClock(t, s.clock)] + ([LoadTokens(t)] + ([LoadLast(t, word)] + [])))
  }

  lemma {:induction false} SoloUnsampled(p: Params, s: State, t: nat, req: Request, rng: Rng)
    requires p.Valid() && t < |s.threads| && s.threads[t] == Unsampled(req)
    ensures var schedule := UnsampledSchedule(s, t, s.tokens >= req.ramp, rng.Word());
            && Feasible(p, s, schedule)
            && var s', a := Exec(p, s, schedule),
                            (if s.tokens >= req.ramp then Answer(Words(s), rng, true, RemainingOf(s.tokens))
                             else EstimateAnswer(Words(s), p, s.clock, req.ramp, rng));
               Ends(s.(threads := s.threads[t := Idle]), s', t, a)
  {
    var s1 := Next(p, s, FastLoad(t));
    if s.tokens >= req.ramp {
      ExecOne(p, s, FastLoad(t), []);
    } else {
      var s2 := Next(p, s1, ReadClock(t, s.clock));
      var s3 := Next(p, s2, LoadTokens(t));
      ExecOne(p, s3, LoadLast(t, rng.Word()), []);
      ExecOne(p, s2, LoadTokens(t), [LoadLast(t, rng.Word())] + []);
      ExecOne(p, s1, ReadClock(t, s.clock), [LoadTokens(t)] + ([LoadLast(t, rng.Word())] + []));
      ExecOne(p, s, FastLoad(t),
              [ReadClock(t, s.clock)] + ([LoadTokens(t)] + ([LoadLast(t, rng.Word())] + [])));
    }
  }

  // A sampled request.

  function RefillSchedule(p: Params, s: State, t: nat, word: u64): seq<Action> {
    if RefillTokensI(SatSub(s.clock, s.last), p.rate) == 0 then [RefillLoad(t)] + ([DebitAndDecide(t, word)] + [])
    else [RefillLoad(t)] + ([ClaimCas(t, false)] + ([Credit(t)] + ([DebitAndDecide(t, word)] + [])))
  }

  /** The words after the refill, and a request about to debit. */
  function Refilled(p: Params, s: State, t: nat, req: Request, observed: i64, worth: int): State
    requires t < |s.threads|
  {
    var b := Refill(Words(s), p, s.clock);
    s.(tokens := b.tokens, last := b.last, threads := s.threads[t := Debiting(req, observed, worth)])
  }

  lemma {:induction false} SoloRefill(p: Params, s: State, t: nat, req: Request, observed: i64, worth: int, word: u64)
    requires p.Valid() && t < |s.threads| && s.threads[t] == Refilling(req, s.clock, observed, worth)
    ensures Feasible(p, s, RefillSchedule(p, s, t, word))
    ensures Exec(p, s, RefillSchedule(p, s, t, word))
         == DebitNext(Refilled(p, s, t, req, observed, worth), t, word)
  {
    var debit, loaded, refilled := DebitAndDecide(t, word), Next(p, s, RefillLoad(t)),
                                   Refilled(p, s, t, req, observed, worth);
    ExecOne(p, refilled, debit, []);
    if RefillTokensI(SatSub(s.clock, s.last), p.rate) == 0 {
      assert loaded == refilled;
      ExecOne(p, s, RefillLoad(t), [debit] + []);
    } else {
      var claimed := Next(p, loaded, ClaimCas(t, false));
      assert Next(p, claimed, Credit(t)) == refilled;
      ExecOne(p, claimed, Credit(t), [debit] + []);
      ExecOne(p, loaded, ClaimCas(t, false), [Credit(t)] + ([debit] + []));
      ExecOne(p, s, RefillLoad(t), [ClaimCas(t, false)] + ([Credit(t)] + ([debit] + [])));
    }
  }

  function SampledSchedule(p: Params, s: State, t: nat, rng: Rng): seq<Action> {
    var accrued := RefillTokensI(SatSub(s.clock, s.last), p.rate);
    var draw := if accrued > 0 then rng.Advanced() else rng;
    [ReadClock(t, s.clock)]
    + ([LoadTokens(t)] + ([LoadLast(t, rng.Word())] + RefillSchedule(p, s, t, draw.Word())))
  }

  lemma {:induction false} SoloSampled(p: Params, s: State, t: nat, req: Request, rng: Rng)
    requires p.Valid() && t < |s.threads| && s.threads[t] == Sampling(req) && req.ramp == Ramp(p, req.lump)
    ensures Feasible(p, s, SampledSchedule(p, s, t, rng))
    ensures Ends(s.(threads := s.threads[t := Idle]), Exec(p, s, SampledSchedule(p, s, t, rng)), t,
                 SampledAnswer(Words(s), p, s.clock, req.lump, rng))
  {
    var accrued := RefillTokensI(SatSub(s.clock, s.last), p.rate);
    var word := (if accrued > 0 then rng.Advanced() else rng).Word();
    var s1 := Next(p, s, ReadClock(t, s.clock));
    var s2 := Next(p, s1, LoadTokens(t));
    var s3 := Next(p, s2, LoadLast(t, rng.Word()));
    var observed, worth := s3.threads[t].observed, s3.threads[t].worth;
    var refill := RefillSchedule(p, s, t, word);
    SoloRefill(p, s3, t, req, observed, worth, word);
    ExecOne(p, s2, LoadLast(t, rng.Word()), refill);
    ExecOne(p, s1, LoadTokens(t), [LoadLast(t, rng.Word())] + refill);
    ExecOne(p, s, ReadClock(t, s.clock), [LoadTokens(t)] + ([LoadLast(t, rng.Word())] + refill));
  }

  predicate StepsOf(t: nat, schedule: seq<Action>) {
    forall i :: 0 <= i < |schedule| ==> !schedule[i].Tick? && schedule[i].thread == t
  }

  lemma SampledSteps(p: Params, s: State, t: nat, rng: Rng)
    requires p.Valid()
    ensures StepsOf(t, SampledSchedule(p, s, t, rng))
  {
  }

  /** What beginning a request leaves. */
  predicate Begun(p: Params, s: State, begun: State, t: nat, cost: u64)
    requires p.sampleRate >= 1
  {
    && t < |begun.threads| && begun.threads[t := Idle] == s.threads
    && Words(begun) == Ticked(Words(s)) && begun.clock == s.clock && begun.log == s.log
    && (begun.threads[t].Sampling? || begun.threads[t].Unsampled?)
    && (begun.threads[t].Sampling? <==> s.tick % p.sampleRate == 0)
    && begun.threads[t].req.lump == Lump(p, ScaledI(cost))
    && begun.threads[t].req.ramp == Ramp(p, begun.threads[t].req.lump)
  }

  lemma BeginsRequest(p: Params, s: State, t: nat, cost: u64)
    requires p.Valid() && t < |s.threads| && s.threads[t].Idle? && cost > 0
    ensures Begun(p, s, Next(p, s, Begin(t, cost)), t, cost)
  {
  }

  lemma ConsumeIsSampled(b: Bucket, p: Params, now: u64, cost: u64, rng: Rng)
    requires p.sampleRate > 1 && cost > 0 && b.tick % p.sampleRate == 0
    ensures Consume(b, p, now, cost, rng) == SampledAnswer(Ticked(b), p, now, Lump(p, ScaledI(cost)), rng)
  {
  }

  lemma ConsumeIsUnsampled(b: Bucket, p: Params, now: u64, cost: u64, rng: Rng)
    requires p.sampleRate > 1 && cost > 0 && b.tick % p.sampleRate != 0
    ensures Consume(b, p, now, cost, rng) == UnsampledAnswer(Ticked(b), p, now, Lump(p, ScaledI(cost)), rng)
  {
  }

  lemma EndsSinceBegin(s: State, begun: State, s': State, t: nat, a: Answer)
    requires t < |begun.threads| && begun.clock == s.clock && begun.log == s.log
    requires begun.threads[t := Idle] == s.threads && Ends(begun.(threads := begun.threads[t := Idle]), s', t, a)
    ensures Ends(s, s', t, a)
  {
  }

  lemma SoloSampledRequest(p: Params, s: State, begun: State, t: nat, cost: u64, rng: Rng) returns (rest: seq<Action>)
    requires p.Valid() && p.sampleRate > 1 && cost > 0 && Begun(p, s, begun, t, cost) && s.tick % p.sampleRate == 0
    ensures StepsOf(t, rest) && Feasible(p, begun, rest)
    ensures Ends(s, Exec(p, begun, rest), t, Consume(Words(s), p, s.clock, cost, rng))
  {
    SoloSampled(p, begun, t, begun.threads[t].req, rng);
    rest := SampledSchedule(p, begun, t, rng);
    SampledSteps(p, begun, t, rng);
    ConsumeIsSampled(Words(s), p, s.clock, cost, rng);
    EndsSinceBegin(s, begun, Exec(p, begun, rest), t, Consume(Words(s), p, s.clock, cost, rng));
  }

  lemma SoloUnsampledRequest(p: Params, s: State, begun: State, t: nat, cost: u64, rng: Rng)
    returns (rest: seq<Action>)
    requires p.Valid() && p.sampleRate > 1 && cost > 0 && Begun(p, s, begun, t, cost) && s.tick % p.sampleRate != 0
    ensures StepsOf(t, rest) && Feasible(p, begun, rest)
    ensures Ends(s, Exec(p, begun, rest), t, Consume(Words(s), p, s.clock, cost, rng))
  {
    SoloUnsampled(p, begun, t, begun.threads[t].req, rng);
    rest := UnsampledSchedule(begun, t, begun.tokens >= begun.threads[t].req.ramp, rng.Word());
    ConsumeIsUnsampled(Words(s), p, s.clock, cost, rng);
    EndsSinceBegin(s, begun, Exec(p, begun, rest), t, Consume(Words(s), p, s.clock, cost, rng));
  }

  /** Whatever words it draws: the same words left behind and the same decision. */
  lemma SoloRequestIsConsume(p: Params, s: State, t: nat, cost: u64, rng: Rng) returns (schedule: seq<Action>)
    requires p.Valid() && p.sampleRate > 1 && t < |s.threads| && s.threads[t].Idle? && cost > 0
    ensures StepsOf(t, schedule) && Feasible(p, s, schedule)
    ensures Ends(s, Exec(p, s, schedule), t, Consume(Words(s), p, s.clock, cost, rng))
  {
    var begun := Next(p, s, Begin(t, cost));
    var rest;
    BeginsRequest(p, s, t, cost);
    if s.tick % p.sampleRate == 0 {
      rest := SoloSampledRequest(p, s, begun, t, cost, rng);
    } else {
      rest := SoloUnsampledRequest(p, s, begun, t, cost, rng);
    }
    ExecOne(p, s, Begin(t, cost), rest);
    schedule := [Begin(t, cost)] + rest;
  }
}
