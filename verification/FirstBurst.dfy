/** What a key of a limiter is granted, check by check, when the clock shows whole
    seconds: what a bucket that counts whole tokens grants. So its burst at once, and its
    requests per second a second later (src/limiter.rs:29-44, 205-212;
    src/algorithm/token_bucket.rs:416-448). */
module FirstBurst {
  import opened Machine
  import opened Arithmetic
  import opened Internal
  import opened TokenBucket
  import opened Shards
  import opened Store
  import SR = StoreRuns

  /** A bucket of whole tokens, as of a whole second. */
  datatype Whole = Whole(tokens: nat, second: nat)

  /** What it holds some seconds later. */
  function Filled(burst: nat, perSecond: nat, w: Whole, second: nat): nat
    requires w.second <= second
  {
    Min(w.tokens + (second - w.second) * perSecond, burst)
  }

  datatype Reply = Reply(permitted: bool, remaining: nat, limit: nat)

  function ReplyOf(burst: nat, held: nat, cost: nat): Reply {
    if cost <= held then Reply(true, held - cost, burst) else Reply(false, held, burst)
  }

  /** The checks of one key, at whole seconds counted from `start`. */
  datatype Ask = Ask(second: nat, cost: u64)

  function WholeReplies(burst: nat, perSecond: nat, w: Whole, asks: seq<Ask>): (rs: seq<Reply>)
    requires Ordered(w.second, asks)
    ensures |rs| == |asks|
    decreases asks
  {
    if asks == [] then []
    else
      var reply := ReplyOf(burst, Filled(burst, perSecond, w, asks[0].second), asks[0].cost);
      [reply] + WholeReplies(burst, perSecond, Whole(reply.remaining, asks[0].second), asks[1..])
  }

  predicate Ordered(second: nat, asks: seq<Ask>)
    decreases asks
  {
    asks == [] || (second <= asks[0].second && Ordered(asks[0].second, asks[1..]))
  }

  /** The events are those checks, whatever draws of the sweep come with them. */
  predicate Asked(h: seq<SR.KeyEvent>, start: u64, asks: seq<Ask>) {
    && |h| == |asks|
    && forall i :: 0 <= i < |h| ==>
         h[i].Own? && h[i].cost == asks[i].cost && h[i].now == start + asks[i].second * NANOS_PER_SEC
  }

  predicate Answers(ds: seq<Decision>, rs: seq<Reply>) {
    && |ds| == |rs|
    && forall i :: 0 <= i < |ds| ==>
         ds[i].permitted == rs[i].permitted && ds[i].remaining == Some(rs[i].remaining) && ds[i].limit == rs[i].limit
  }

  /** A bucket that holds whole tokens as of a whole second; a missing one is full. */
  predicate HoldsWhole(s: Option<Bucket>, cfg: Config, start: u64, w: Whole) {
    && w.tokens <= cfg.capacity
    && match s
       case None => w.tokens == cfg.capacity
       case Some(b) => b.tokens == w.tokens * SCALE && b.last == start + w.second * NANOS_PER_SEC
  }

  /** Whole seconds refill whole tokens, and are claimed to the nanosecond. */
  lemma SecondsRefill(cfg: Config, b: Bucket, tokens: nat, seconds: nat)
    requires cfg.Valid() && cfg.rate > 0 && b.tokens == tokens * SCALE && tokens <= cfg.capacity
    requires b.last + seconds * NANOS_PER_SEC <= U64_MAX && seconds * cfg.rate * SCALE <= U64_MAX
    ensures var later := b.last + seconds * NANOS_PER_SEC;
            var b' := Refill(b, cfg.Scale(), later);
            b'.tokens == Min(tokens + seconds * cfg.rate, cfg.capacity) * SCALE && b'.last == later
  {
    ScaleIsValid(cfg);
    var r, e := cfg.Scale().rate, seconds * NANOS_PER_SEC;
    var added := seconds * r;
    assert added == seconds * cfg.rate * SCALE;
    SecondsAccrue(seconds, r);
    ExactRefill(b, cfg.Scale(), e, added);
    ScaledMin(tokens, seconds * cfg.rate, cfg.capacity);
  }

  lemma ExactRefill(b: Bucket, p: Scaled, e: nat, added: nat)
    requires p.Valid() && b.tokens <= p.capacity && b.last + e <= U64_MAX
    requires RefillTokens(e, p.rate) == added && NanosForTokens(added, p.rate) == e && (e > 0 ==> added > 0)
    ensures var b' := Refill(b, p, b.last + e);
            b'.tokens == Min(b.tokens + added, p.capacity) && b'.last == b.last + e
  {
  }

  lemma ScaledMin(tokens: nat, added: nat, capacity: nat)
    ensures Min(tokens * SCALE + added * SCALE, capacity * SCALE) == Min(tokens + added, capacity) * SCALE
  {
  }

  lemma SecondsAccrue(seconds: nat, r: u64)
    requires r > 0 && seconds * NANOS_PER_SEC <= U64_MAX && 0 <= seconds * r <= U64_MAX
    ensures RefillTokens(seconds * NANOS_PER_SEC, r) == seconds * r
    ensures NanosForTokens(seconds * r, r) == seconds * NANOS_PER_SEC
    ensures seconds > 0 ==> seconds * r > 0
  {
    var e := seconds * NANOS_PER_SEC;
    assert e * r == seconds * r * NANOS_PER_SEC;
    FloorExactly(seconds * r, e * r, NANOS_PER_SEC);
    assert seconds * r * NANOS_PER_SEC == e * r;
    FloorExactly(e, seconds * r * NANOS_PER_SEC, r);
    MulMono(1, r, seconds);
  }

  lemma WholeStep(s: Option<Bucket>, cfg: Config, start: u64, w: Whole, e: SR.KeyEvent, second: nat)
    requires cfg.Valid() && cfg.rate > 0 && HoldsWhole(s, cfg, start, w) && w.second <= second
    requires e.Own? && e.cost > 0 && e.now == start + second * NANOS_PER_SEC && second * cfg.rate * SCALE <= U64_MAX
    ensures var reply := ReplyOf(cfg.capacity, Filled(cfg.capacity, cfg.rate, w, second), e.cost);
            var d := SR.KeyDecision(s, cfg, None, e);
            && d.permitted == reply.permitted && d.remaining == Some(reply.remaining) && d.limit == reply.limit
            && HoldsWhole(SR.KeyNext(s, cfg, None, e), cfg, start, Whole(reply.remaining, second))
  {
    var b := SR.Found(s, cfg, None, e).(access := e.now);
    var gap, held := second - w.second, Filled(cfg.capacity, cfg.rate, w, second);
    MulMono(0, gap, cfg.rate);
    MulMono(gap, second, cfg.rate);
    match s {
      case None => assert Refill(b, cfg.Scale(), e.now) == b;
      case Some(_) => SecondsRefill(cfg, b, w.tokens, gap);
    }
    assert Refill(b, cfg.Scale(), e.now).tokens == held * SCALE;
    WholeSpend(cfg, Refill(b, cfg.Scale(), e.now), held, e.cost);
  }

  lemma WholeSpend(cfg: Config, b: Bucket, held: nat, cost: u64)
    requires cfg.Valid() && b.tokens == held * SCALE && held <= cfg.capacity
    ensures var reply := ReplyOf(cfg.capacity, held, cost);
            Spend(b, SatMul(cost, SCALE))
            == Consumed(b.(tokens := reply.remaining * SCALE), reply.permitted, reply.remaining)
  {
  }

  lemma OneMoreAnswer(d: Decision, ds: seq<Decision>, reply: Reply, rs: seq<Reply>)
    requires d.permitted == reply.permitted && d.remaining == Some(reply.remaining) && d.limit == reply.limit
    requires Answers(ds, rs)
    ensures Answers([d] + ds, [reply] + rs)
  {
  }

  lemma {:induction false} WholeRun(
      s: Option<Bucket>, cfg: Config, start: u64, w: Whole, h: seq<SR.KeyEvent>, asks: seq<Ask>)
    requires cfg.Valid() && cfg.rate > 0 && HoldsWhole(s, cfg, start, w) && Ordered(w.second, asks)
    requires Asked(h, start, asks) && Countable(cfg.rate, asks)
    ensures Answers(SR.KeyDecisions(s, cfg, None, h), WholeReplies(cfg.capacity, cfg.rate, w, asks))
    decreases h
  {
    if h != [] {
      var second := asks[0].second;
      WholeStep(s, cfg, start, w, h[0], second);
      var reply := ReplyOf(cfg.capacity, Filled(cfg.capacity, cfg.rate, w, second), asks[0].cost);
      var next, left := SR.KeyNext(s, cfg, None, h[0]), Whole(reply.remaining, second);
      WholeRun(next, cfg, start, left, h[1..], asks[1..]);
      OneMoreAnswer(SR.KeyDecision(s, cfg, None, h[0]), SR.KeyDecisions(next, cfg, None, h[1..]), reply,
                    WholeReplies(cfg.capacity, cfg.rate, left, asks[1..]));
    }
  }

  /** Positive costs, and seconds whose accrual fits a word. */
  predicate Countable(rate: u64, asks: seq<Ask>) {
    forall i :: 0 <= i < |asks| ==> asks[i].cost > 0 && asks[i].second * rate * SCALE <= U64_MAX
  }

  /** Any key of a limiter, among checks of any other keys: while its checks come at whole
      seconds from its first, with whatever costs, it is answered like a bucket of `burst`
      whole tokens that gains `requestsPerSecond` of them each second. */
  lemma {:induction false} WholeSecondsAreCounted(requestsPerSecond: u64, burst: u64, h: seq<Event>, key: Key,
          start: u64, asks: seq<Ask>)
    requires 0 < requestsPerSecond <= burst <= MAX_BURST
    requires Asked(SR.OwnOf(h, key), start, asks) && Ordered(0, asks) && Countable(requestsPerSecond, asks)
    ensures Answers(SR.DecisionsFor(map[], NewConfig(burst, requestsPerSecond), None, h, key),
                    WholeReplies(burst, requestsPerSecond, Whole(burst, 0), asks))
  {
    var cfg := NewConfig(burst, requestsPerSecond);
    SR.KeysDoNotInterfere(map[], cfg, h, key);
    WholeRun(None, cfg, start, Whole(burst, 0), SR.OwnOf(h, key), asks);
  }

  // One token at a time.

  /** Checks for one token: `first` of them at the start, the others some seconds later. */
  predicate TwoBursts(asks: seq<Ask>, first: nat, seconds: nat) {
    && first <= |asks|
    && forall i :: 0 <= i < |asks| ==> asks[i] == Ask(if i < first then 0 else seconds, 1)
  }

  lemma {:induction false} TwoBurstsAreOrdered(asks: seq<Ask>, first: nat, seconds: nat, second: nat)
    requires TwoBursts(asks, first, seconds) && (first == 0 ==> second <= seconds) && (first > 0 ==> second == 0)
    ensures Ordered(second, asks)
    decreases asks
  {
    if asks != [] {
      TwoBurstsAreOrdered(asks[1..], if first == 0 then 0 else first - 1, seconds, asks[0].second);
    }
  }

  lemma {:induction false} TwoBurstsAreCountable(rate: u64, asks: seq<Ask>, first: nat, seconds: nat)
    requires TwoBursts(asks, first, seconds) && seconds * rate * SCALE <= U64_MAX
    ensures Countable(rate, asks)
  {
    forall i | 0 <= i < |asks| ensures asks[i].cost > 0 && asks[i].second * rate * SCALE <= U64_MAX {
      assert asks[i] == Ask(if i < first then 0 else seconds, 1);
    }
  }

  /** How many of the later checks there are tokens for. */
  function LaterTokens(burst: nat, perSecond: nat, tokens: nat, first: nat, seconds: nat): nat {
    Min(Max(tokens - first, 0) + seconds * perSecond, burst)
  }

  lemma {:induction false} OneByOne(burst: nat, perSecond: nat, w: Whole, asks: seq<Ask>, first: nat, seconds: nat)
    requires TwoBursts(asks, first, seconds) && Ordered(w.second, asks)
    requires w.tokens <= burst && (w.second == 0 || (first == 0 && w.second == seconds))
    ensures forall i :: 0 <= i < |asks| ==>
              (WholeReplies(burst, perSecond, w, asks)[i].permitted
               <==> if i < first then i < w.tokens
                    else i - first < LaterTokens(burst, perSecond, w.tokens, first, seconds - w.second))
    decreases asks
  {
    if asks != [] {
      var held := Filled(burst, perSecond, w, asks[0].second);
      var left := ReplyOf(burst, held, 1).remaining;
      var next := Whole(left, asks[0].second);
      OneByOne(burst, perSecond, next, asks[1..], if first == 0 then 0 else first - 1, seconds);
      var rs, rest := WholeReplies(burst, perSecond, w, asks), WholeReplies(burst, perSecond, next, asks[1..]);
      assert forall i :: 0 < i < |asks| ==> rs[i] == rest[i - 1];
    }
  }

  /** Of these decisions just the first `count` permit. */
  predicate FirstArePermitted(ds: seq<Decision>, from: nat, to: nat, count: nat)
    requires from <= to <= |ds|
  {
    forall i :: from <= i < to ==> (ds[i].permitted <==> i - from < count)
  }

  lemma Granted(ds: seq<Decision>, rs: seq<Reply>, first: nat, early: nat, late: nat)
    requires Answers(ds, rs) && first <= |ds|
    requires forall i :: 0 <= i < |rs| ==> (rs[i].permitted <==> if i < first then i < early else i - first < late)
    ensures FirstArePermitted(ds, 0, first, early) && FirstArePermitted(ds, first, |ds|, late)
  {
  }

  /** A new key is permitted its burst at once and no more; drained, it is permitted
      exactly the requests per second one second later, and a whole burst once that many
      seconds have passed. */
  lemma {:induction false} BurstThenRate(requestsPerSecond: u64, burst: u64, h: seq<Event>, key: Key, start: u64,
          asks: seq<Ask>, first: nat, seconds: nat)
    requires 0 < requestsPerSecond <= burst <= MAX_BURST && seconds * requestsPerSecond * SCALE <= U64_MAX
    requires TwoBursts(asks, first, seconds) && Asked(SR.OwnOf(h, key), start, asks)
    ensures var ds := SR.DecisionsFor(map[], NewConfig(burst, requestsPerSecond), None, h, key);
            && |ds| == |asks|
            && FirstArePermitted(ds, 0, first, burst)
            && (first >= burst ==> FirstArePermitted(ds, first, |ds|, Min(seconds * requestsPerSecond, burst)))
  {
    TwoBurstsAreOrdered(asks, first, seconds, 0);
    TwoBurstsAreCountable(requestsPerSecond, asks, first, seconds);
    WholeSecondsAreCounted(requestsPerSecond, burst, h, key, start, asks);
    OneByOne(burst, requestsPerSecond, Whole(burst, 0), asks, first, seconds);
    Granted(SR.DecisionsFor(map[], NewConfig(burst, requestsPerSecond), None, h, key),
            WholeReplies(burst, requestsPerSecond, Whole(burst, 0), asks), first, burst,
            LaterTokens(burst, requestsPerSecond, burst, first, seconds));
  }
}
