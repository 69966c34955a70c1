/** One key of a store of sampled buckets among others: without a TTL it behaves like a lone
    bucket on some stream of words, however the keys' draws interleave, so whatever holds
    of lone buckets holds of every key
    (src/algorithm/probabilistic_token_bucket.rs:690-732). */
module ProbabilisticKeys {
  import opened Machine
  import opened Arithmetic
  import opened Internal
  import opened Probabilistic
  import opened ProbabilisticStore
  import PR = ProbabilisticRuns

  type Call = PR.Call

  /** The checks of one key that ask for something. */
  function CallsOf(rs: seq<Request>, key: Key): seq<Call> {
    if rs == [] then []
    else
      (if rs[0].key == key && rs[0].cost > 0 then [Call.Call(rs[0].now, rs[0].cost)] else []) + CallsOf(rs[1..], key)
  }

  /** What they were answered. */
  function DecisionsFor(m: Contents, cfg: Config, rs: seq<Request>, rng: Rng, key: Key): seq<Decision>
    requires cfg.Valid()
    decreases rs
  {
    if rs == [] then []
    else
      var c := Check(m, cfg, rs[0], rng);
      (if rs[0].key == key && rs[0].cost > 0 then [c.decision] else [])
      + DecisionsFor(c.contents, cfg, rs[1..], c.rng, key)
  }

  // An answer depends on the words it draws.

  /** How many words a request draws. */
  function Drawn(b: Bucket, p: Params, now: u64, cost: u64, r: Rng): int
    requires p.sampleRate >= 1
  {
    Consume(b, p, now, cost, r).rng.at - r.at
  }

  /** What a caller and the bucket see of an answer. */
  predicate SameAnswer(a: Answer, a': Answer) {
    a.bucket == a'.bucket && a.permitted == a'.permitted && a.remaining == a'.remaining
  }

  predicate SameAnswers(these: seq<Answer>, those: seq<Answer>) {
    |these| == |those| && forall i :: 0 <= i < |these| ==> SameAnswer(these[i], those[i])
  }

  /** The same words give the same answer, and as many of them are drawn. */
  lemma DrawnWordsDecide(b: Bucket, p: Params, now: u64, cost: u64, r: Rng, r': Rng)
    requires p.sampleRate >= 1
    requires Drawn(b, p, now, cost, r) >= 1 ==> r.Word() == r'.Word()
    requires Drawn(b, p, now, cost, r) >= 2 ==> r.Advanced().Word() == r'.Advanced().Word()
    ensures SameAnswer(Consume(b, p, now, cost, r), Consume(b, p, now, cost, r'))
    ensures 0 <= Drawn(b, p, now, cost, r) == Drawn(b, p, now, cost, r') <= 2
    ensures Consume(b, p, now, cost, r).rng.stream == r.stream && Consume(b, p, now, cost, r').rng.stream == r'.stream
  {
    if p.sampleRate > 1 {
      if Sampled(b, p) {
        SampledWordsDecide(Ticked(b), p, now, Lump(p, ScaledI(cost)), r, r');
      } else {
        UnsampledWordsDecide(Ticked(b), p, now, Lump(p, ScaledI(cost)), r, r');
      }
    }
  }

  lemma SampledWordsDecide(b: Bucket, p: Params, now: u64, lump: i64, r: Rng, r': Rng)
    requires lump >= 0
    requires var drawn := SampledAnswer(b, p, now, lump, r).rng.at - r.at;
             && (drawn >= 1 ==> r.Word() == r'.Word())
             && (drawn >= 2 ==> r.Advanced().Word() == r'.Advanced().Word())
    ensures var a, a' := SampledAnswer(b, p, now, lump, r), SampledAnswer(b, p, now, lump, r');
            && SameAnswer(a, a') && 0 <= a.rng.at - r.at == a'.rng.at - r'.at <= 2
            && a.rng.stream == r.stream && a'.rng.stream == r'.stream
  {
  }

  lemma UnsampledWordsDecide(b: Bucket, p: Params, now: u64, lump: i64, r: Rng, r': Rng)
    requires UnsampledAnswer(b, p, now, lump, r).rng.at > r.at ==> r.Word() == r'.Word()
    ensures var a, a' := UnsampledAnswer(b, p, now, lump, r), UnsampledAnswer(b, p, now, lump, r');
            && SameAnswer(a, a') && 0 <= a.rng.at - r.at == a'.rng.at - r'.at <= 1
            && a.rng.stream == r.stream && a'.rng.stream == r'.stream
  {
  }

  function WordAt(r: Rng, i: nat): u64 {
    r.stream(r.at + i)
  }

  ghost predicate SameFrom(r: Rng, r': Rng) {
    forall i: nat :: WordAt(r, i) == WordAt(r', i)
  }

  /** After as many draws from each they still agree. */
  lemma SameAfter(r: Rng, r': Rng, k: nat)
    requires SameFrom(r, r')
    ensures SameFrom(Rng(r.stream, r.at + k), Rng(r'.stream, r'.at + k))
    ensures r.Word() == r'.Word() && r.Advanced().Word() == r'.Advanced().Word()
  {
    assert WordAt(r, 0) == WordAt(r', 0) && WordAt(r, 1) == WordAt(r', 1);
    var later, later' := Rng(r.stream, r.at + k), Rng(r'.stream, r'.at + k);
    forall i: nat ensures WordAt(later, i) == WordAt(later', i) {
      assert WordAt(r, k + i) == WordAt(r', k + i);
    }
  }

  lemma {:induction false} SameStreamSameRun(b: Bucket, p: Params, r: Rng, r': Rng, h: seq<Call>)
    requires p.sampleRate >= 1 && SameFrom(r, r')
    ensures SameAnswers(PR.RunOf(b, p, r, h).answers, PR.RunOf(b, p, r', h).answers)
    decreases h
  {
    if h != [] {
      var call := h[0];
      SameAfter(r, r', 0);
      DrawnWordsDecide(b, p, call.now, call.cost, r, r');
      SameAfter(r, r', Drawn(b, p, call.now, call.cost, r));
      var a, a' := Consume(b, p, call.now, call.cost, r), Consume(b, p, call.now, call.cost, r');
      SameStreamSameRun(a.bucket, p, a.rng, a'.rng, h[1..]);
    }
  }

  // One key's own stream.

  /** The first `k` words of one stream, then another. */
  function Spliced(r: Rng, k: nat, rest: Rng): Rng {
    Rng((i: nat) => if i < k then WordAt(r, i) else WordAt(rest, i - k), 0)
  }

  lemma SplicedWords(r: Rng, k: nat, rest: Rng)
    requires k <= 2
    ensures k >= 1 ==> Spliced(r, k, rest).Word() == r.Word()
    ensures k >= 2 ==> Spliced(r, k, rest).Advanced().Word() == r.Advanced().Word()
    ensures SameFrom(Rng(Spliced(r, k, rest).stream, k), rest)
  {
    var later := Rng(Spliced(r, k, rest).stream, k);
    forall i: nat ensures WordAt(later, i) == WordAt(rest, i) {
    }
  }

  predicate Reports(ds: seq<Decision>, answers: seq<Answer>, cfg: Config, calls: seq<Call>) {
    && |ds| == |answers| == |calls|
    && forall i :: 0 <= i < |ds| ==>
         ds[i] == TokenDecision(answers[i].permitted, answers[i].remaining, cfg.capacity, cfg.rate, calls[i].cost)
  }

  /** A request on the words it drew, and the rest of the run on the rest of the stream. */
  lemma RequestThenRest(b: Bucket, cfg: Config, call: Call, rng: Rng, rest: Rng, later: seq<Call>, ds: seq<Decision>)
    returns (own: Rng)
    requires cfg.Valid()
    requires var a := Consume(b, cfg.Params(), call.now, call.cost, rng);
             Reports(ds, PR.RunOf(a.bucket, cfg.Params(), rest, later).answers, cfg, later)
    ensures var a := Consume(b, cfg.Params(), call.now, call.cost, rng);
            var d := TokenDecision(a.permitted, a.remaining, cfg.capacity, cfg.rate, call.cost);
            Reports([d] + ds, PR.RunOf(b, cfg.Params(), own, [call] + later).answers, cfg, [call] + later)
  {
    var p := cfg.Params();
    DrawnWordsDecide(b, p, call.now, call.cost, rng, rng);
    var k := Drawn(b, p, call.now, call.cost, rng);
    own := Spliced(rng, k, rest);
    SplicedWords(rng, k, rest);
    DrawnWordsDecide(b, p, call.now, call.cost, rng, own);
    var a' := Consume(b, p, call.now, call.cost, own);
    SameStreamSameRun(a'.bucket, p, a'.rng, rest, later);
    assert ([call] + later)[1..] == later;
    assert PR.RunOf(b, p, own, [call] + later).answers == [a'] + PR.RunOf(a'.bucket, p, a'.rng, later).answers;
  }

  lemma OtherCheck(m: Contents, cfg: Config, r: Request, rng: Rng, key: Key)
    requires cfg.Valid() && cfg.idleTtl == None && key in m && (r.key != key || r.cost == 0)
    ensures var c := Check(m, cfg, r, rng); key in c.contents && c.contents[key] == m[key]
  {
  }

  lemma OwnCheck(m: Contents, cfg: Config, r: Request, rng: Rng)
    requires cfg.Valid() && cfg.idleTtl == None && r.key in m && r.cost > 0
    ensures var c, a := Check(m, cfg, r, rng), Consume(m[r.key], cfg.Params(), r.now, r.cost, rng);
            && r.key in c.contents && c.contents[r.key] == a.bucket
            && c.decision == TokenDecision(a.permitted, a.remaining, cfg.capacity, cfg.rate, r.cost)
  {
  }

  /** A lone bucket on some stream answers the key's checks as the store does. */
  lemma {:induction false} KnownKeyRunsAlone(m: Contents, cfg: Config, rs: seq<Request>, rng: Rng, key: Key)
    returns (own: Rng)
    requires cfg.Valid() && cfg.idleTtl == None && key in m
    ensures Reports(DecisionsFor(m, cfg, rs, rng, key),
                    PR.RunOf(m[key], cfg.Params(), own, CallsOf(rs, key)).answers, cfg, CallsOf(rs, key))
    decreases rs
  {
    if rs == [] {
      own := rng;
    } else {
      var r, c := rs[0], Check(m, cfg, rs[0], rng);
      if r.key == key && r.cost > 0 {
        OwnCheck(m, cfg, r, rng);
        var rest := KnownKeyRunsAlone(c.contents, cfg, rs[1..], c.rng, key);
        own := RequestThenRest(m[key], cfg, Call.Call(r.now, r.cost), rng, rest, CallsOf(rs[1..], key),
                               DecisionsFor(c.contents, cfg, rs[1..], c.rng, key));
      } else {
        OtherCheck(m, cfg, r, rng, key);
        own := KnownKeyRunsAlone(c.contents, cfg, rs[1..], c.rng, key);
        assert CallsOf(rs, key) == CallsOf(rs[1..], key);
        assert DecisionsFor(m, cfg, rs, rng, key) == DecisionsFor(c.contents, cfg, rs[1..], c.rng, key);
      }
    }
  }

  /** A new key is full, and its tick begins at the word drawn for it. */
  lemma FirstCheck(m: Contents, cfg: Config, r: Request, rng: Rng)
    requires cfg.Valid() && cfg.idleTtl == None && r.key !in m && r.cost > 0
    ensures var b := NewBucket(cfg.Params(), r.now, rng.Word());
            var c, a := Check(m, cfg, r, rng), Consume(b, cfg.Params(), r.now, r.cost, rng.Advanced());
            && r.key in c.contents && c.contents[r.key] == a.bucket
            && (cfg.sampleRate > 1 ==> c.contents[r.key].tick == (rng.Word() + 1) % (U64_MAX + 1))
            && c.decision == TokenDecision(a.permitted, a.remaining, cfg.capacity, cfg.rate, r.cost)
  {
  }

  lemma {:induction false} FirstCheckThenRest(m: Contents, cfg: Config, r: Request, rest: seq<Request>, rng: Rng,
          c: Checked) returns (own: Rng)
    requires cfg.Valid() && cfg.idleTtl == None && r.key !in m && r.cost > 0 && c == Check(m, cfg, r, rng)
    ensures CallsOf([r] + rest, r.key) == [Call.Call(r.now, r.cost)] + CallsOf(rest, r.key)
    ensures Reports(DecisionsFor(m, cfg, [r] + rest, rng, r.key),
                    PR.RunOf(NewBucket(cfg.Params(), r.now, rng.Word()), cfg.Params(), own,
                             CallsOf([r] + rest, r.key)).answers,
                    cfg, CallsOf([r] + rest, r.key))
  {
    assert ([r] + rest)[1..] == rest;
    FirstCheck(m, cfg, r, rng);
    var later := KnownKeyRunsAlone(c.contents, cfg, rest, c.rng, r.key);
    own := RequestThenRest(NewBucket(cfg.Params(), r.now, rng.Word()), cfg, Call.Call(r.now, r.cost), rng.Advanced(),
                           later, CallsOf(rest, r.key), DecisionsFor(c.contents, cfg, rest, c.rng, r.key));
  }

  lemma {:induction false} OtherCheckThenRest(m: Contents, cfg: Config, r: Request, rest: seq<Request>, rng: Rng,
          key: Key, c: Checked)
    requires cfg.Valid() && cfg.idleTtl == None && key !in m && (r.key != key || r.cost == 0)
    requires c == Check(m, cfg, r, rng)
    ensures key !in c.contents && CallsOf([r] + rest, key) == CallsOf(rest, key)
    ensures DecisionsFor(m, cfg, [r] + rest, rng, key) == DecisionsFor(c.contents, cfg, rest, c.rng, key)
  {
    assert ([r] + rest)[1..] == rest;
  }

  /** Without a TTL every key of a store is answered, among any checks of any other keys, as
      a lone bucket is on some stream: a full one, made at the key's first check, with a
      phase of its own. */
  lemma {:induction false} KeyRunsAlone(m: Contents, cfg: Config, rs: seq<Request>, rng: Rng, key: Key)
    returns (own: Rng, phase: u64)
    requires cfg.Valid() && cfg.idleTtl == None && key !in m
    ensures var calls := CallsOf(rs, key);
            calls != [] ==>
              Reports(DecisionsFor(m, cfg, rs, rng, key),
                      PR.RunOf(NewBucket(cfg.Params(), calls[0].now, phase), cfg.Params(), own, calls).answers,
                      cfg, calls)
    decreases rs
  {
    own, phase := rng, 0;
    if rs != [] {
      var r, rest, c := rs[0], rs[1..], Check(m, cfg, rs[0], rng);
      assert [r] + rest == rs;
      if r.key == key && r.cost > 0 {
        phase := rng.Word();
        own := FirstCheckThenRest(m, cfg, r, rest, rng, c);
      } else {
        OtherCheckThenRest(m, cfg, r, rest, rng, key, c);
        own, phase := KeyRunsAlone(c.contents, cfg, rest, c.rng, key);
      }
    }
  }

  // So every key keeps the laws of a lone bucket.

  function Permitted(ds: seq<Decision>): nat {
    if ds == [] then 0 else (if ds[0].permitted then 1 else 0) + Permitted(ds[1..])
  }

  lemma {:induction false} PermittedIsAdmitted(ds: seq<Decision>, answers: seq<Answer>, cfg: Config, calls: seq<Call>)
    requires Reports(ds, answers, cfg, calls)
    ensures Permitted(ds) == PR.Admitted(answers)
    decreases ds
  {
    if ds != [] {
      PermittedIsAdmitted(ds[1..], answers[1..], cfg, calls[1..]);
    }
  }

  /** While no scaled token accrues, whatever the other keys do, the checks of one key at one
      cost are permitted less than the capacity and one group's cost. */
  lemma {:induction false} EveryKeysBurstIsCapped(cfg: Config, rs: seq<Request>, rng: Rng, key: Key, cost: u64)
    requires cfg.Valid() && cfg.idleTtl == None && cfg.sampleRate > 1 && cost > 0
    requires var calls := CallsOf(rs, key);
             forall i :: 0 <= i < |calls| ==>
               calls[i].cost == cost && RefillTokensI(SatSub(calls[i].now, calls[0].now), cfg.rate * SCALE) == 0
    ensures Permitted(DecisionsFor(map[], cfg, rs, rng, key)) * cost < cfg.capacity + cfg.sampleRate * cost
  {
    var calls, p, ds := CallsOf(rs, key), cfg.Params(), DecisionsFor(map[], cfg, rs, rng, key);
    if calls == [] {
      NoCallsNoDecisions(map[], cfg, rs, rng, key);
      MulMono(1, cfg.sampleRate, cost);
    } else {
      var own, phase := KeyRunsAlone(map[], cfg, rs, rng, key);
      PermittedIsAdmitted(ds, PR.RunOf(NewBucket(p, calls[0].now, phase), p, own, calls).answers, cfg, calls);
      LoneBurst(cfg, calls[0].now, phase, own, cost, calls);
    }
  }

  lemma {:induction false} LoneBurst(cfg: Config, start: u64, phase: u64, own: Rng, cost: u64, calls: seq<Call>)
    requires cfg.Valid() && cfg.sampleRate > 1 && cost > 0
    requires PR.Burst(NewBucket(cfg.Params(), start, phase), cfg.Params(), cost, calls)
    ensures var p := cfg.Params();
            PR.Admitted(PR.RunOf(NewBucket(p, start, phase), p, own, calls).answers) * cost
            < cfg.capacity + cfg.sampleRate * cost
  {
    var p := cfg.Params();
    PR.BurstFromFull(p, start, phase, own, cost, calls);
    Unscaled(PR.Admitted(PR.RunOf(NewBucket(p, start, phase), p, own, calls).answers), cost, cfg.capacity,
             cfg.sampleRate);
  }

  lemma Unscaled(permitted: nat, cost: nat, capacity: nat, rate: nat)
    requires permitted * (cost * SCALE) < capacity * SCALE + rate * (cost * SCALE)
    ensures permitted * cost < capacity + rate * cost
  {
    assert permitted * (cost * SCALE) == permitted * cost * SCALE && rate * (cost * SCALE) == rate * cost * SCALE;
  }

  lemma {:induction false} NoCallsNoDecisions(m: Contents, cfg: Config, rs: seq<Request>, rng: Rng, key: Key)
    requires cfg.Valid() && CallsOf(rs, key) == []
    ensures DecisionsFor(m, cfg, rs, rng, key) == []
    decreases rs
  {
    if rs != [] {
      var c := Check(m, cfg, rs[0], rng);
      NoCallsNoDecisions(c.contents, cfg, rs[1..], c.rng, key);
    }
  }
}
