/** The limiter in front of the store: configuration, and the loops that sleep on
    `retry_after` (src/limiter.rs:29-44, 205-212, 464-490, 518-539). */
module Limiter {
  import opened Machine
  import opened Arithmetic
  import opened Internal
  import opened TokenBucket
  import opened Shards
  import opened Store
  import TR = TokenRuns
  import SR = StoreRuns
  import Retry

  datatype ConfigError = RateIsZero | BurstIsZero | BurstBelowRate

  datatype Result<+T> = Ok(value: T) | Err(error: ConfigError)

  /** What `validate` rejects, in the order it looks. */
  function Validate(requestsPerSecond: u64, burst: u64): (r: Result<()>)
    ensures r.Ok? <==> 0 < requestsPerSecond <= burst
    ensures r.Err? ==> match r.error
                       case RateIsZero => requestsPerSecond == 0
                       case BurstIsZero => burst == 0 < requestsPerSecond
                       case BurstBelowRate => 0 < burst < requestsPerSecond
  {
    if requestsPerSecond == 0 then Err(RateIsZero)
    else if burst == 0 then Err(BurstIsZero)
    else if burst < requestsPerSecond then Err(BurstBelowRate)
    else Ok(())
  }

  /** A validated limiter refills, can hold a token, and has the burst for its capacity
      and the requests per second for its rate. */
  method NewLimiter(requestsPerSecond: u64, burst: u64) returns (r: Result<ShardedTokenBucket>)
    ensures r.Ok? <==> 0 < requestsPerSecond <= burst
    ensures r.Err? ==> Validate(requestsPerSecond, burst) == Err(r.error)
    ensures r.Ok? ==>
      && fresh(r.value) && r.value.Valid() && r.value.View() == map[] && r.value.idleTtl == None
      && r.value.cfg.rate > 0 && r.value.cfg.capacity > 0
      && r.value.cfg == Config(Min(burst, MAX_BURST), Min(requestsPerSecond, MAX_RATE_PER_SEC))
  {
    var checked := Validate(requestsPerSecond, burst);
    if checked.Err? {
      return Err(checked.error);
    }
    var store := NewTokenBucket(burst, requestsPerSecond, None);
    r := Ok(store);
  }

  const DEFAULT_SLEEP := 10 * NANOS_PER_MILLI

  function SleepOf(d: Decision): Duration {
    if d.retryAfter.Some? then d.retryAfter.value else DEFAULT_SLEEP
  }

  /** What comes with one check of the loop: the calls others make before it, how much
      later than asked the timer fires after it, the cleanup draw and spurious failures. */
  datatype Turn = Turn(others: seq<Event>, late: nat, sweep: bool, spurious: nat)

  /** One check of the loop: what it found, what it asked, and what that gave. */
  datatype Asked = Asked(found: Contents, event: Event, decision: Decision, left: Contents)

  predicate Answered(a: Asked, cfg: Config, ttl: Option<u64>, key: Key) {
    && a.event.key == key && a.event.cost == 1
    && (a.left, a.decision) == Check(a.found, cfg, ttl, a.event)
  }

  /** A check for one token takes exactly one when it permits and none when it denies,
      from the bucket as refilled at that instant, and leaves every other key alone or
      evicted. */
  lemma OneTokenWhenPermitted(a: Asked, cfg: Config, ttl: Option<u64>, key: Key)
    requires Answered(a, cfg, ttl, key) && cfg.Valid()
    ensures var swept := if a.event.sweep then Swept(a.found, ttl, a.event.now) else a.found;
            var b := if key in swept then swept[key] else NewBucket(cfg.capacity, a.event.now);
            var full := Refill(b.(access := a.event.now), cfg.Scale(), a.event.now);
            && key in a.left
            && (a.decision.permitted <==> full.tokens >= SCALE)
            && a.left[key].tokens == full.tokens - (if a.decision.permitted then SCALE else 0)
            && (forall k :: k != key ==> (k in a.left <==> k in swept))
            && (forall k :: k in a.left && k != key ==> a.left[k] == a.found[k])
            && (a.decision.retryAfter.Some? <==> !a.decision.permitted)
  {
  }

  /** The checks of one `acquire_timeout`: all but the last were denied, and each was
      asked as long after the previous one as that one's answer and the timeout allow. */
  ghost predicate Polled(asked: seq<Asked>, cfg: Config, ttl: Option<u64>, key: Key,
                         start: u64, timeout: Duration, turns: nat -> Turn)
  {
    && (forall a :: a in asked ==> Answered(a, cfg, ttl, key))
    && (asked != [] ==> asked[0].event.now == start)
    && (forall i :: 0 < i < |asked| ==> Follows(asked[i - 1], asked[i].event.now, start, timeout, turns(i - 1).late))
  }

  predicate Follows(a: Asked, next: int, start: u64, timeout: Duration, late: nat) {
    && !a.decision.permitted && a.event.now - start < timeout
    && next == a.event.now + Min(SleepOf(a.decision), timeout - (a.event.now - start)) + late
  }

  /** Between two checks: the next is due at `now`, no later than the timeout and the
      timer's lateness, and every earlier sleep was at least a millisecond or the last. */
  ghost predicate Waiting(asked: seq<Asked>, now: int, start: u64, timeout: Duration, turns: nat -> Turn, latest: nat) {
    && (if asked == [] then now == start else Follows(asked[|asked| - 1], now, start, timeout, turns(|asked| - 1).late))
    && start <= now <= start + timeout + latest
    && now - start >= Min(|asked| * NANOS_PER_MILLI, timeout)
    && (asked == [] || (|asked| - 1) * NANOS_PER_MILLI < timeout)
  }

  lemma WaitOn(asked: seq<Asked>, a: Asked, now: int, start: u64, timeout: Duration, turns: nat -> Turn, latest: nat)
    requires Waiting(asked, now, start, timeout, turns, latest) && turns(|asked|).late <= latest
    requires a.event.now == now && SleepOf(a.decision) >= NANOS_PER_MILLI
    ensures |asked| <= CeilDiv(timeout, NANOS_PER_MILLI)
    ensures !a.decision.permitted && now - start < timeout ==>
              Waiting(asked + [a], now + Min(SleepOf(a.decision), timeout - (now - start)) + turns(|asked|).late,
                      start, timeout, turns, latest)
  {
  }

  method Interfere(store: ShardedTokenBucket, others: seq<Event>)
    requires store.Valid()
    modifies store, store.flat.Values
    ensures store.Valid() && fresh(store.flat.Values - old(store.flat.Values))
    ensures others == [] ==> store.View() == old(store.View())
  {
    for i := 0 to |others|
      invariant i == 0 ==> store.View() == old(store.View())
      invariant store.Valid() && fresh(store.flat.Values - old(store.flat.Values))
    {
      var _ := store.CheckImpl(others[i].key, others[i].cost, others[i].now, others[i].sweep, 0);
    }
  }

  /** `check`: one token, after whatever the others did. */
  method Ask(store: ShardedTokenBucket, key: Key, now: u64, turn: Turn) returns (decision: Decision, ghost a: Asked)
    requires store.Valid()
    modifies store, store.flat.Values
    ensures store.Valid() && fresh(store.flat.Values - old(store.flat.Values))
    ensures turn.others == [] ==> a.found == old(store.View())
    ensures a.event == Event(key, 1, now, turn.sweep) && a.decision == decision && a.left == store.View()
    ensures Answered(a, store.cfg, store.idleTtl, key)
    ensures SleepOf(decision) >= NANOS_PER_MILLI
  {
    Interfere(store, turn.others);
    ghost var found := store.View();
    decision := store.CheckImpl(key, 1, now, turn.sweep, turn.spurious);
    a := Asked(found, Event(key, 1, now, turn.sweep), decision, store.View());
  }

  /** One turn of `acquire_timeout`'s loop, up to its sleep. */
  method Poll(store: ShardedTokenBucket, key: Key, now: u64, turn: Turn, ghost asked: seq<Asked>,
              ghost start: u64, ghost timeout: Duration, ghost turns: nat -> Turn, ghost latest: nat)
    returns (decision: Decision, ghost a: Asked)
    requires store.Valid() && turn == turns(|asked|) && turn.late <= latest
    requires Polled(asked, store.cfg, store.idleTtl, key, start, timeout, turns)
    requires Waiting(asked, now, start, timeout, turns, latest)
    modifies store, store.flat.Values
    ensures store.Valid() && fresh(store.flat.Values - old(store.flat.Values))
    ensures Polled(asked + [a], store.cfg, store.idleTtl, key, start, timeout, turns)
    ensures a.event.now == now && a.decision == decision && a.left == store.View()
    ensures |asked| <= CeilDiv(timeout, NANOS_PER_MILLI) && SleepOf(decision) > 0
    ensures !decision.permitted && now - start < timeout ==>
              Waiting(asked + [a], now + Min(SleepOf(decision), timeout - (now - start)) + turn.late,
                      start, timeout, turns, latest)
  {
    decision, a := Ask(store, key, now, turn);
    WaitOn(asked, a, now, start, timeout, turns, latest);
  }

  /** `acquire_timeout`: whatever the others do, at most one check per millisecond of
      the timeout and one more; it is denied only once the timeout has passed. */
  method AcquireTimeout(store: ShardedTokenBucket, key: Key, start: u64, timeout: Duration, turns: nat -> Turn,
          ghost latest: nat)
    returns (decision: Decision, ghost asked: seq<Asked>)
    requires store.Valid()
    requires start + timeout + latest <= U64_MAX && forall i :: turns(i).late <= latest
    modifies store, store.flat.Values
    ensures store.Valid() && fresh(store.flat.Values - old(store.flat.Values))
    ensures 1 <= |asked| <= CeilDiv(timeout, NANOS_PER_MILLI) + 1
    ensures Polled(asked, store.cfg, store.idleTtl, key, start, timeout, turns)
    ensures var last := asked[|asked| - 1];
            && last.decision == decision && last.left == store.View()
            && (!decision.permitted ==> last.event.now - start >= timeout)
  {
    var now, checks := start, 0;
    asked := [];
    while true
      invariant store.Valid() && fresh(store.flat.Values - old(store.flat.Values))
      invariant checks == |asked| && start <= now <= start + timeout + latest
      invariant Polled(asked, store.cfg, store.idleTtl, key, start, timeout, turns)
      invariant Waiting(asked, now, start, timeout, turns, latest)
      decreases timeout - (now - start)
    {
      ghost var a;
      decision, a := Poll(store, key, now, turns(checks), asked, start, timeout, turns, latest);
      asked, checks := asked + [a], checks + 1;
      if decision.permitted {
        return;
      }
      var elapsed := now - start;
      if elapsed >= timeout {
        return;
      }
      now := now + Min(SleepOf(decision), timeout - elapsed) + turns(checks - 1).late;
    }
  }

  /** Every bucket of the store is in range, and none was refilled in the future. */
  predicate InRange(m: Contents, cfg: Config, now: int) {
    0 <= now <= U64_MAX && forall k :: k in m ==> TR.WellFormed(cfg.Scale(), m[k], now)
  }

  lemma CheckKeepsInRange(m: Contents, cfg: Config, ttl: Option<u64>, e: Event, start: u64)
    requires cfg.Valid() && InRange(m, cfg, start) && start <= e.now
    ensures InRange(Check(m, cfg, ttl, e).0, cfg, e.now)
  {
    ScaleIsValid(cfg);
    var swept := if e.sweep then Swept(m, ttl, e.now) else m;
    var b := if e.key in swept then swept[e.key] else NewBucket(cfg.capacity, e.now);
    assert TR.WellFormed(cfg.Scale(), b, e.now);
    TR.ConsumeStep(cfg.Scale(), b, TR.Call(e.now, e.cost));
  }

  /** Every history of a store that starts empty, on a clock that does not run back. */
  lemma {:induction false} HistoriesStayInRange(m: Contents, cfg: Config, ttl: Option<u64>, start: u64, h: seq<Event>)
    requires cfg.Valid() && InRange(m, cfg, start) && SR.EventsInOrder(start, h)
    ensures InRange(SR.ContentsAfter(m, cfg, ttl, h), cfg, SR.LastInstant(start, h))
    decreases h
  {
    if h != [] {
      CheckKeepsInRange(m, cfg, ttl, h[0], start);
      HistoriesStayInRange(Check(m, cfg, ttl, h[0]).0, cfg, ttl, h[0].now, h[1..]);
      assert SR.LastInstant(h[0].now, h[1..]) == SR.LastInstant(start, h);
    }
  }

  // A caller whom nobody disturbs.

  /** A key denied a token at `since`, and not charged up to `at`: its bucket covers an
      exact one that was empty then. */
  predicate Waited(m: Contents, cfg: Config, key: Key, since: u64, at: u64) {
    var p := cfg.Scale();
    && key in m && since <= at
    && TR.Covers(p, m[key], TR.Exact(Min(p.capacity * NANOS_PER_SEC, (at - since) * p.rate), at))
  }

  lemma DeniedStartsWaiting(a: Asked, cfg: Config, ttl: Option<u64>, key: Key)
    requires cfg.Valid() && InRange(a.found, cfg, a.event.now) && Answered(a, cfg, ttl, key) && !a.decision.permitted
    ensures Waited(a.left, cfg, key, a.event.now, a.event.now)
  {
    CheckKeepsInRange(a.found, cfg, ttl, a.event, a.event.now);
    var b := a.left[key];
    MulMono(0, a.event.now - b.last, cfg.Scale().rate);
  }

  /** The rate over the time since `since` is worth a token. */
  predicate TokenDue(since: int, now: int, rate: u64) {
    (now - since) * rate >= NANOS_PER_SEC
  }

  lemma TokenStaysDue(since: int, now: int, since': int, now': int, rate: u64)
    requires TokenDue(since, now, rate) && now - since <= now' - since'
    ensures TokenDue(since', now', rate)
  {
    MulMono(now - since, now' - since', rate);
  }

  /** What the exact bucket that was empty at `since` has at `now`. */
  lemma AccruedSince(p: Scaled, since: u64, at: u64, now: u64)
    requires since <= at <= now
    ensures TR.Accrue(p, TR.Exact(Min(p.capacity * NANOS_PER_SEC, (at - since) * p.rate), at), now)
         == Min(p.capacity * NANOS_PER_SEC, (now - since) * p.rate)
  {
    SpanSplits(p.rate, since, at, now);
    MulMono(0, now - at, p.rate);
  }

  lemma TokenSince(cfg: Config, since: u64, now: u64)
    requires cfg.Valid() && cfg.capacity > 0 && since <= now && TokenDue(since, now, cfg.rate)
    ensures Min(cfg.Scale().capacity * NANOS_PER_SEC, (now - since) * cfg.Scale().rate) >= SCALE * NANOS_PER_SEC
  {
    ScaleIsValid(cfg);
    assert (now - since) * (cfg.rate * SCALE) == (now - since) * cfg.rate * SCALE;
  }

  /** The next check: permitted once the rate over the time since the denial is worth a
      token, even if the key is evicted in between; otherwise the key waits on. */
  lemma CheckAgain(a: Asked, cfg: Config, ttl: Option<u64>, key: Key, since: u64, at: u64)
    requires cfg.Valid() && cfg.capacity > 0 && Waited(a.found, cfg, key, since, at) && at <= a.event.now
    requires Answered(a, cfg, ttl, key)
    ensures TokenDue(since, a.event.now, cfg.rate) ==> a.decision.permitted
    ensures !a.decision.permitted ==> Waited(a.left, cfg, key, since, a.event.now)
  {
    var p, e := cfg.Scale(), a.event;
    var m := if e.sweep then Swept(a.found, ttl, e.now) else a.found;
    if key in m {
      var x := TR.Exact(Min(p.capacity * NANOS_PER_SEC, (at - since) * p.rate), at);
      TR.CoversStep(p, m[key], x, TR.Call(e.now, 1));
      AccruedSince(p, since, at, e.now);
      if TokenDue(since, e.now, cfg.rate) {
        TokenSince(cfg, since, e.now);
      }
    } else {
      Retry.FreshServes(cfg, e.now, 1);
    }
  }

  /** How long a caller is told to wait for one token. */
  lemma SleepForOneToken(a: Asked, cfg: Config, ttl: Option<u64>, key: Key)
    requires cfg.Valid() && cfg.rate > 0 && Answered(a, cfg, ttl, key) && !a.decision.permitted
    ensures SleepOf(a.decision) == WaitForTokens(1, cfg.rate) && NANOS_PER_MILLI <= SleepOf(a.decision)
    ensures TokenDue(0, SleepOf(a.decision) + 1, cfg.rate)
  {
    assert a.decision == TokenDecision(false, 0, cfg.capacity, cfg.rate, 1);
    Retry.OneNanosecondMore(1, cfg.rate, WaitForTokens(1, cfg.rate));
  }

  /** A check that denies one token leaves a bucket on which waiting works: if nothing
      else happens to the store, the next check is permitted from the instant on at which
      the rate since the denial is worth a token, and one nanosecond past `retry_after` it is. */
  lemma DeniedThenServed(a: Asked, next: Asked, cfg: Config, ttl: Option<u64>, key: Key)
    requires cfg.Valid() && cfg.rate > 0 && cfg.capacity > 0 && InRange(a.found, cfg, a.event.now)
    requires Answered(a, cfg, ttl, key) && Answered(next, cfg, ttl, key) && next.found == a.left
    requires !a.decision.permitted && next.event.now >= a.event.now
    ensures TokenDue(a.event.now, next.event.now, cfg.rate) ==> next.decision.permitted
    ensures next.event.now > a.event.now + SleepOf(a.decision) ==> next.decision.permitted
  {
    DeniedStartsWaiting(a, cfg, ttl, key);
    CheckAgain(next, cfg, ttl, key, a.event.now, a.event.now);
    SleepForOneToken(a, cfg, ttl, key);
    if next.event.now > a.event.now + SleepOf(a.decision) {
      TokenStaysDue(0, SleepOf(a.decision) + 1, a.event.now, next.event.now, cfg.rate);
    }
  }

  /** What an undisturbed `acquire` left at `at`, and its next check will find. */
  predicate Undisturbed(since: Option<u64>, at: u64, m: Contents, cfg: Config, key: Key) {
    match since
    case None => InRange(m, cfg, at)
    case Some(denied) => Waited(m, cfg, key, denied, at)
  }

  lemma AskedAlone(a: Asked, cfg: Config, ttl: Option<u64>, key: Key, since: Option<u64>, at: u64, now: u64)
    requires cfg.Valid() && cfg.rate > 0 && cfg.capacity > 0 && Answered(a, cfg, ttl, key) && a.event.now == now
    requires Undisturbed(since, at, a.found, cfg, key) && at <= now && (since.None? ==> at == now)
    ensures since.Some? && TokenDue(since.value, now, cfg.rate) ==> a.decision.permitted
    ensures !a.decision.permitted ==>
      && SleepOf(a.decision) == WaitForTokens(1, cfg.rate)
      && Undisturbed(Some(if since.Some? then since.value else now), now, a.left, cfg, key)
  {
    if !a.decision.permitted {
      SleepForOneToken(a, cfg, ttl, key);
    }
    match since
    case None =>
      if !a.decision.permitted {
        DeniedStartsWaiting(a, cfg, ttl, key);
      }
    case Some(denied) => CheckAgain(a, cfg, ttl, key, denied, at);
  }

  /** One turn of `acquire`'s loop, up to its sleep, when nobody else uses the store. */
  method AskAlone(store: ShardedTokenBucket, key: Key, now: u64, turn: Turn, ghost since: Option<u64>, ghost at: u64,
          ghost sleep: Duration)
    returns (decision: Decision)
    requires store.Valid() && store.cfg.Valid() && store.cfg.rate > 0 && store.cfg.capacity > 0
    requires turn.others == [] && sleep == WaitForTokens(1, store.cfg.rate)
    requires Undisturbed(since, at, store.View(), store.cfg, key) && at <= now && (since.None? ==> at == now)
    modifies store, store.flat.Values
    ensures store.Valid() && fresh(store.flat.Values - old(store.flat.Values))
    ensures since.Some? && TokenDue(since.value, now, store.cfg.rate) ==> decision.permitted
    ensures !decision.permitted ==>
      && SleepOf(decision) == sleep
      && Undisturbed(Some(if since.Some? then since.value else now), now, store.View(), store.cfg, key)
  {
    ghost var a;
    decision, a := Ask(store, key, now, turn);
    AskedAlone(a, store.cfg, store.idleTtl, key, since, at, now);
  }

  /** Before each check but the first, the caller has slept that often. */
  predicate Slept(checks: nat, now: int, start: u64, sleep: nat, turns: nat -> Turn, due: bool) {
    && checks <= 2
    && (checks == 0 ==> now == start)
    && (checks == 1 ==> now == start + sleep + turns(0).late)
    && (checks == 2 ==> now == start + 2 * sleep + turns(0).late + turns(1).late && !due)
  }

  /** The third check, or the second after a long enough sleep, is due. */
  lemma LastCheckIsDue(checks: nat, now: int, start: u64, sleep: nat, turns: nat -> Turn, due: bool, rate: u64)
    requires rate > 0 && sleep == WaitForTokens(1, rate) && due == TokenDue(0, sleep, rate)
    requires Slept(checks, now, start, sleep, turns, due)
    ensures checks == 2 || (checks == 1 && due) ==> TokenDue(start, now, rate)
  {
    Retry.OneNanosecondMore(1, rate, sleep);
    if checks == 2 {
      TokenStaysDue(0, sleep + 1, start, now, rate);
    } else if checks == 1 && due {
      TokenStaysDue(0, sleep, start, now, rate);
    }
  }

  /** Where an undisturbed `acquire` stands before a check. */
  predicate Acquiring(checks: nat, now: u64, at: u64, start: u64, sleep: nat, turns: nat -> Turn, due: bool,
                      m: Contents, cfg: Config, key: Key) {
    && Slept(checks, now, start, sleep, turns, due)
    && at <= now && (checks == 0 ==> at == now)
    && Undisturbed(if checks == 0 then None else Some(start), at, m, cfg, key)
  }

  lemma SleepsOnceMore(checks: nat, now: u64, start: u64, sleep: nat, turns: nat -> Turn, due: bool,
          m: Contents, cfg: Config, key: Key)
    requires Slept(checks, now, start, sleep, turns, due) && checks < 2 && (checks == 1 ==> !due)
    requires start + 2 * sleep + turns(0).late + turns(1).late <= U64_MAX
    requires Undisturbed(Some(start), now, m, cfg, key)
    ensures now + sleep + turns(checks).late <= U64_MAX
    ensures Acquiring(checks + 1, now + sleep + turns(checks).late, now, start, sleep, turns, due, m, cfg, key)
  {
  }

  /** One turn of its loop: permitted, or asleep until the next check. */
  method AcquireTurn(store: ShardedTokenBucket, key: Key, start: u64, turns: nat -> Turn, checks: nat, now: u64,
          ghost at: u64, ghost sleep: nat, ghost due: bool)
    returns (decision: Decision, next: u64)
    requires store.Valid() && store.cfg.Valid() && store.cfg.rate > 0 && store.cfg.capacity > 0
    requires sleep == WaitForTokens(1, store.cfg.rate) && due == TokenDue(0, sleep, store.cfg.rate)
    requires start + 2 * sleep + turns(0).late + turns(1).late <= U64_MAX && turns(checks).others == []
    requires Acquiring(checks, now, at, start, sleep, turns, due, store.View(), store.cfg, key)
    modifies store, store.flat.Values
    ensures store.Valid() && fresh(store.flat.Values - old(store.flat.Values))
    ensures checks == 2 || (checks == 1 && due) ==> decision.permitted
    ensures !decision.permitted ==>
              Acquiring(checks + 1, next, now, start, sleep, turns, due, store.View(), store.cfg, key)
  {
    LastCheckIsDue(checks, now, start, sleep, turns, due, store.cfg.rate);
    decision := AskAlone(store, key, now, turns(checks), if checks == 0 then None else Some(start), at, sleep);
    if decision.permitted {
      return decision, now;
    }
    SleepsOnceMore(checks, now, start, sleep, turns, due, store.View(), store.cfg, key);
    next := now + SleepOf(decision) + turns(checks).late;
  }

  /** `acquire` on a validated limiter that nobody else uses: permitted by the third check
      at the latest, and by the second when the wait for one token is worth a token. */
  method Acquire(store: ShardedTokenBucket, key: Key, start: u64, turns: nat -> Turn)
    returns (decision: Decision, checks: nat)
    requires store.Valid() && store.cfg.Valid() && store.cfg.rate > 0 && store.cfg.capacity > 0
    requires InRange(store.View(), store.cfg, start)
    requires start + 2 * WaitForTokens(1, store.cfg.rate) + turns(0).late + turns(1).late <= U64_MAX
    requires forall i :: i <= 2 ==> turns(i).others == []
    modifies store, store.flat.Values
    ensures store.Valid() && decision.permitted && 1 <= checks <= 3
    ensures TokenDue(0, WaitForTokens(1, store.cfg.rate), store.cfg.rate) ==> checks <= 2
  {
    var now := start;
    checks := 0;
    ghost var at: u64, sleep := start, WaitForTokens(1, store.cfg.rate);
    ghost var due := TokenDue(0, sleep, store.cfg.rate);
    while true
      invariant store.Valid() && fresh(store.flat.Values - old(store.flat.Values))
      invariant Acquiring(checks, now, at, start, sleep, turns, due, store.View(), store.cfg, key)
      decreases 3 - checks
    {
      var next;
      decision, next := AcquireTurn(store, key, start, turns, checks, now, at, sleep, due);
      checks := checks + 1;
      if decision.permitted {
        return;
      }
      at, now := now, next;
    }
  }
}
