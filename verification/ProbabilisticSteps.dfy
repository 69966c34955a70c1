/** Any number of threads on one sampled bucket (`sample_rate > 1`): loads, claims,
    credits and debits interleave freely, the clock moves between any two of them,
    and random words are arbitrary
    (src/algorithm/probabilistic_token_bucket.rs:283-356, 402-515). */
module ProbabilisticSteps {
  import opened Machine
  import opened Internal
  import opened Probabilistic

  /** A request's local constants, its place in the order of ticks, and how many
      sampled requests came before it. */
  datatype RequestFields = Request(lump: i64, ramp: i64, position: nat, samplesBefore: nat)

  type Request = r: RequestFields | 0 <= r.lump && 1 <= r.ramp witness Request(0, 1, 0, 0)

  /** Where a thread is. `worth` is history: the tokens plus the accrual nobody had
      claimed, at the instant this request loaded the tokens. */
  datatype Pc =
    | Idle
    | Unsampled(req: Request)
    | Undecided(req: Request)
    | EstimateStart(req: Request, now: u64)
    | EstimateHalf(req: Request, now: u64, seen: i64, worth: int)
    | Sampling(req: Request)
    | SampleStart(req: Request, now: u64)
    | SampleHalf(req: Request, now: u64, seen: i64, worth: int)
    | Refilling(req: Request, now: u64, observed: i64, worth: int)
    | Loaded(req: Request, now: u64, observed: i64, worth: int, last: u64)
    | Crediting(req: Request, observed: i64, worth: int, added: i64)
    | Debiting(req: Request, observed: i64, worth: int)

  /** A finished request: the level it decided on, and what that level was worth. */
  datatype Outcome = Outcome(position: nat, available: i64, worth: int, permitted: bool)

  /** The shared words, the clock, the threads; then history. */
  datatype State = State(
    tokens: i64,
    last: u64,
    tick: u64,
    clock: u64,
    threads: seq<Pc>,
    started: nat,
    sampled: nat,
    debited: nat,
    log: seq<Outcome>)

  datatype Action =
    | Tick(nanos: nat)
    | Begin(thread: nat, cost: u64)
    | FastLoad(thread: nat)
    | ReadClock(thread: nat, now: u64)
    | LoadTokens(thread: nat)
    | LoadLast(thread: nat, word: u64)
    | RefillLoad(thread: nat)
    | ClaimCas(thread: nat, spurious: bool)
    | Credit(thread: nat)
    | DebitAndDecide(thread: nat, word: u64)

  predicate Enabled(s: State, a: Action) {
    match a
    case Tick(nanos) => s.clock + nanos <= U64_MAX
    case Begin(t, cost) => t < |s.threads| && s.threads[t].Idle? && cost > 0
    case FastLoad(t) => t < |s.threads| && s.threads[t].Unsampled?
    case ReadClock(t, now) => t < |s.threads| && (s.threads[t].Undecided? || s.threads[t].Sampling?) && now <= s.clock
    case LoadTokens(t) => t < |s.threads| && (s.threads[t].EstimateStart? || s.threads[t].SampleStart?)
    case LoadLast(t, _) => t < |s.threads| && (s.threads[t].EstimateHalf? || s.threads[t].SampleHalf?)
    case RefillLoad(t) => t < |s.threads| && s.threads[t].Refilling?
    case ClaimCas(t, _) => t < |s.threads| && s.threads[t].Loaded?
    case Credit(t) => t < |s.threads| && s.threads[t].Crediting?
    case DebitAndDecide(t, _) => t < |s.threads| && s.threads[t].Debiting?
  }

  function Worth(p: Params, s: State): int {
    s.tokens * NANOS_PER_SEC + (s.clock - s.last) * p.rate
  }

  /** `admit` on a given word. */
  predicate Admits(available: i64, ramp: i64, word: u64) {
    available >= ramp || (available > 0 && word % ramp < available)
  }

  /** The level that a request decides on, from the two words it loaded. */
  function Available(p: Params, seen: i64, accrued: i64): i64 {
    Min(SatAddI(seen, accrued), p.capacity)
  }

  function PartOf(accrued: i64, word: u64): i64 {
    if accrued <= 0 then 0 else FractionOf(accrued, word)
  }

  function Move(s: State, t: nat, pc: Pc): State
    requires t < |s.threads|
  {
    s.(threads := s.threads[t := pc])
  }

  function Finish(s: State, t: nat, o: Outcome): State
    requires t < |s.threads|
  {
    Move(s, t, Idle).(log := s.log + [o])
  }

  function BeginNext(p: Params, s: State, t: nat, cost: u64): State
    requires p.Valid() && t < |s.threads|
  {
    var lump := Lump(p, ScaledI(cost));
    var req := Request(lump, Ramp(p, lump), s.started + 1, s.sampled);
    var sampled := s.tick % p.sampleRate == 0;
    Move(s, t, if sampled then Sampling(req) else Unsampled(req))
    .(tick := (s.tick + 1) % (U64_MAX + 1), started := s.started + 1, sampled := s.sampled + if sampled then 1 else 0)
  }

  function LoadLastNext(p: Params, s: State, t: nat, word: u64): State
    requires t < |s.threads| && (s.threads[t].EstimateHalf? || s.threads[t].SampleHalf?)
  {
    match s.threads[t]
    case EstimateHalf(req, now, seen, worth) =>
      var available := Available(p, seen, RefillTokensI(SatSub(now, s.last), p.rate));
      Finish(s, t, Outcome(req.position, available, worth, Admits(available, req.ramp, word)))
    case SampleHalf(req, now, seen, worth) =>
      var accrued := RefillTokensI(SatSub(now, s.last), p.rate);
      Move(s, t, Refilling(req, now, Available(p, seen, PartOf(accrued, word)), worth))
  }

  function ClaimNext(p: Params, s: State, t: nat, spurious: bool): State
    requires t < |s.threads| && s.threads[t].Loaded?
  {
    var Loaded(req, now, observed, worth, last) := s.threads[t];
    var added := RefillTokensI(SatSub(now, last), p.rate);
    if spurious || s.last != last then Move(s, t, Refilling(req, now, observed, worth))
    else Move(s, t, Crediting(req, observed, worth, added)).(last := SatAdd(last, NanosForTokensI(added, p.rate)))
  }

  function DebitNext(s: State, t: nat, word: u64): State
    requires t < |s.threads| && s.threads[t].Debiting?
  {
    var Debiting(req, observed, worth) := s.threads[t];
    Finish(s, t, Outcome(req.position, observed, worth, Admits(observed, req.ramp, word)))
    .(tokens := SatSubI(s.tokens, Debit(observed, req.lump, req.ramp)), debited := s.debited + 1)
  }

  function Next(p: Params, s: State, a: Action): State
    requires p.Valid() && Enabled(s, a)
  {
    match a
    case Tick(nanos) => s.(clock := s.clock + nanos)
    case Begin(t, cost) => BeginNext(p, s, t, cost)
    case FastLoad(t) =>
      var req := s.threads[t].req;
      if s.tokens >= req.ramp then Finish(s, t, Outcome(req.position, s.tokens, Worth(p, s), true))
      else Move(s, t, Undecided(req))
    case ReadClock(t, now) =>
      var req := s.threads[t].req;
      Move(s, t, if s.threads[t].Sampling? then SampleStart(req, now) else EstimateStart(req, now))
    case LoadTokens(t) =>
      var req, now := s.threads[t].req, s.threads[t].now;
      Move(s, t, if s.threads[t].SampleStart? then SampleHalf(req, now, s.tokens, Worth(p, s))
                 else EstimateHalf(req, now, s.tokens, Worth(p, s)))
    case LoadLast(t, word) => LoadLastNext(p, s, t, word)
    case RefillLoad(t) =>
      var Refilling(req, now, observed, worth) := s.threads[t];
      Move(s, t, if RefillTokensI(SatSub(now, s.last), p.rate) == 0 then Debiting(req, observed, worth)
                 else Loaded(req, now, observed, worth, s.last))
    case ClaimCas(t, spurious) => ClaimNext(p, s, t, spurious)
    case Credit(t) =>
      var Crediting(req, observed, worth, added) := s.threads[t];
      Move(s, t, Debiting(req, observed, worth))
      .(tokens := if s.tokens >= p.capacity then s.tokens else Min(SatAddI(s.tokens, added), p.capacity))
    case DebitAndDecide(t, word) => DebitNext(s, t, word)
  }

  predicate Feasible(p: Params, s: State, schedule: seq<Action>)
    requires p.Valid()
    decreases schedule
  {
    schedule == [] || (Enabled(s, schedule[0]) && Feasible(p, Next(p, s, schedule[0]), schedule[1..]))
  }

  function Exec(p: Params, s: State, schedule: seq<Action>): State
    requires p.Valid() && Feasible(p, s, schedule)
    decreases schedule
  {
    if schedule == [] then s else Exec(p, Next(p, s, schedule[0]), schedule[1..])
  }

  function Initial(p: Params, threads: nat, start: u64, phase: u64): State {
    State(p.capacity, start, phase, start, seq(threads, _ => Idle), 0, 0, 0, [])
  }

  // Sums over the threads.

  function Sum(threads: seq<Pc>, f: Pc -> int): int {
    if threads == [] then 0 else f(threads[0]) + Sum(threads[1..], f)
  }

  lemma {:induction false} SumUpdate(threads: seq<Pc>, t: nat, pc: Pc, f: Pc -> int)
    requires t < |threads|
    ensures Sum(threads[t := pc], f) == Sum(threads, f) - f(threads[t]) + f(pc)
  {
    if t == 0 {
      assert threads[0 := pc][1..] == threads[1..];
    } else {
      assert threads[t := pc][1..] == threads[1..][t - 1 := pc];
      SumUpdate(threads[1..], t - 1, pc, f);
    }
  }

  lemma {:induction false} SumBounds(threads: seq<Pc>, f: Pc -> int, most: nat)
    requires forall t :: 0 <= t < |threads| ==> 0 <= f(threads[t]) <= most
    ensures 0 <= Sum(threads, f) <= |threads| * most
  {
    if threads != [] {
      SumBounds(threads[1..], f, most);
      assert |threads| * most == |threads[1..]| * most + most;
    }
  }

  /** One thread that contributes nothing leaves room for the others only. */
  lemma {:induction false} SumOfOthers(threads: seq<Pc>, f: Pc -> int, most: nat, t: nat)
    requires t < |threads| && f(threads[t]) == 0
    requires forall u :: 0 <= u < |threads| ==> 0 <= f(threads[u]) <= most
    ensures Sum(threads, f) <= (|threads| - 1) * most
  {
    SumWithout(threads, f, t);
    var others := threads[..t] + threads[t + 1..];
    SumBounds(others, f, most);
  }

  lemma {:induction false} SumWithout(threads: seq<Pc>, f: Pc -> int, t: nat)
    requires t < |threads|
    ensures Sum(threads, f) == f(threads[t]) + Sum(threads[..t] + threads[t + 1..], f)
  {
    if t == 0 {
      assert threads[..0] + threads[1..] == threads[1..];
    } else {
      SumWithout(threads[1..], f, t - 1);
      assert (threads[..t] + threads[t + 1..])[1..] == threads[1..][..t - 1] + threads[1..][t..];
    }
  }

  lemma {:induction false} SumOfIdle(threads: seq<Pc>, f: Pc -> int)
    requires f(Idle) == 0 && forall t :: 0 <= t < |threads| ==> threads[t] == Idle
    ensures Sum(threads, f) == 0
  {
    if threads != [] {
      SumOfIdle(threads[1..], f);
    }
  }

  /** Scaled tokens claimed and not credited. */
  function Owed(pc: Pc): int {
    if pc.Crediting? then pc.added else 0
  }

  /** The most that a request which saw `worth` may yet debit, times `NANOS_PER_SEC`. */
  function GuardOf(worth: int, lump: i64, ramp: i64): int
    requires ramp >= 1
  {
    if worth >= ramp * NANOS_PER_SEC then lump * NANOS_PER_SEC
    else if worth <= 0 then 0
    else lump * worth / ramp
  }

  function Guard(pc: Pc): int {
    match pc
    case SampleHalf(req, _, _, worth) => GuardOf(worth, req.lump, req.ramp)
    case Refilling(req, _, _, worth) => GuardOf(worth, req.lump, req.ramp)
    case Loaded(req, _, _, worth, _) => GuardOf(worth, req.lump, req.ramp)
    case Crediting(req, _, worth, _) => GuardOf(worth, req.lump, req.ramp)
    case Debiting(req, _, worth) => GuardOf(worth, req.lump, req.ramp)
    case _ => 0
  }

  /** What the bucket holds, is owed, and has accrued unclaimed. */
  function Effective(p: Params, s: State): int {
    Worth(p, s) + Sum(s.threads, Owed) * NANOS_PER_SEC
  }
}
