/** Which keys a store of sampled buckets holds after any history, told from the history
    and the drawn words alone, and what eviction does to the budget of a key
    (src/algorithm/probabilistic_token_bucket.rs:652-732). */
module ProbabilisticEviction {
  import opened Machine
  import opened Arithmetic
  import opened Probabilistic
  import opened ProbabilisticStore
  import PQ = ProbabilisticRequests

  // Which checks sweep.

  predicate WordSweeps(m: Contents, cfg: Config, now: u64, word: u64)
    requires cfg.Valid()
  {
    Tidied(m, cfg, now, Rng(_ => word, 0)).0 != m
  }

  /** The residues of a drawn word, modulo 100 times the sampling rate, that sweep. */
  function SweepingResidues(m: Contents, cfg: Config, now: u64): set<int>
    requires cfg.Valid()
  {
    set w | 0 <= w < 100 * cfg.sampleRate && WordSweeps(m, cfg, now, w)
  }

  /** A check sweeps when the word it draws is a multiple of 100 times the sampling rate. */
  predicate Sweeps(cfg: Config, rng: Rng)
    requires cfg.Valid()
  {
    cfg.idleTtl.Some? && rng.Word() % (100 * cfg.sampleRate) == 0
  }

  /** One word in so many does: it removes the keys idle for the TTL, and every other word
      leaves the store as it is. */
  lemma OneWordSweeps(m: Contents, cfg: Config, now: u64)
    requires cfg.Valid() && cfg.idleTtl.Some?
    requires exists k :: k in m && now - m[k].access >= cfg.idleTtl.value
    ensures |SweepingResidues(m, cfg, now)| == 1
  {
    var k :| k in m && now - m[k].access >= cfg.idleTtl.value;
    forall w: int | 0 <= w < 100 * cfg.sampleRate
      ensures WordSweeps(m, cfg, now, w) <==> w == 0
    {
      FloorExactly(0, w, 100 * cfg.sampleRate);
      assert w % (100 * cfg.sampleRate) == w;
      assert k !in Swept(m, cfg.idleTtl.value, now);
    }
    assert SweepingResidues(m, cfg, now) == {0};
  }

  // What the store remembers.

  function LastCheck(rs: seq<Request>, key: Key): Option<u64> {
    if rs == [] then None
    else
      var r := rs[|rs| - 1];
      if r.key == key && r.cost > 0 then Some(r.now) else LastCheck(rs[..|rs| - 1], key)
  }

  predicate CheckedWithin(rs: seq<Request>, key: Key, ttl: Option<u64>, now: u64) {
    LastCheck(rs, key).Some? && (ttl.Some? ==> now - LastCheck(rs, key).value < ttl.value)
  }

  predicate InOrder(start: u64, rs: seq<Request>)
    decreases rs
  {
    rs == [] || (start <= rs[0].now && InOrder(rs[0].now, rs[1..]))
  }

  function EndOf(start: u64, rs: seq<Request>): u64 {
    if rs == [] then start else rs[|rs| - 1].now
  }

  lemma {:induction false} OneMoreRequest(m: Contents, cfg: Config, rs: seq<Request>, r: Request, rng: Rng)
    requires cfg.Valid()
    ensures ContentsAfter(m, cfg, rs + [r], rng)
         == Check(ContentsAfter(m, cfg, rs, rng), cfg, r, RngAfter(m, cfg, rs, rng)).contents
    decreases rs
  {
    if rs == [] {
      assert rs + [r] == [r] && [r][1..] == [];
    } else {
      var c := Check(m, cfg, rs[0], rng);
      assert (rs + [r])[1..] == rs[1..] + [r];
      OneMoreRequest(c.contents, cfg, rs[1..], r, c.rng);
    }
  }

  lemma {:induction false} OrderOfPrefix(start: u64, rs: seq<Request>, r: Request)
    requires InOrder(start, rs + [r])
    ensures InOrder(start, rs) && start <= EndOf(start, rs) <= r.now
    decreases rs
  {
    if rs != [] {
      assert (rs + [r])[1..] == rs[1..] + [r] && (rs + [r])[0] == rs[0];
      OrderOfPrefix(rs[0].now, rs[1..], r);
      assert EndOf(rs[0].now, rs[1..]) == EndOf(start, rs);
    } else {
      assert (rs + [r])[0] == r;
    }
  }

  lemma {:induction false} LastCheckAfter(rs: seq<Request>, r: Request, key: Key)
    ensures LastCheck(rs + [r], key) == if r.key == key && r.cost > 0 then Some(r.now) else LastCheck(rs, key)
  {
    assert (rs + [r])[..|rs|] == rs;
  }

  /** With a TTL a key that is held was last checked when its bucket was; a key that is gone
      was idle for the TTL. */
  predicate Remembers(m: Contents, rs: seq<Request>, key: Key, ttl: Option<u64>, now: u64) {
    && (key in m ==> LastCheck(rs, key).Some? && LastCheck(rs, key).value <= now)
    && (key in m && ttl.Some? ==> m[key].access == LastCheck(rs, key).value)
    && (key !in m && LastCheck(rs, key).Some? ==> ttl.Some? && now - LastCheck(rs, key).value >= ttl.value)
  }

  lemma RequestKeepsAccess(b: Bucket, p: Params, now: u64, cost: u64, rng: Rng)
    requires p.sampleRate >= 1
    ensures Consume(b, p, now, cost, rng).bucket.access == b.access
  {
  }

  lemma CheckRemembers(m: Contents, cfg: Config, rs: seq<Request>, r: Request, rng: Rng, key: Key, now: u64)
    requires cfg.Valid() && Remembers(m, rs, key, cfg.idleTtl, now) && now <= r.now
    ensures Remembers(Check(m, cfg, r, rng).contents, rs + [r], key, cfg.idleTtl, r.now)
  {
    LastCheckAfter(rs, r, key);
    if r.cost > 0 {
      var (tidy, rng1) := Tidied(m, cfg, r.now, rng);
      var (b, rng2) := Found(tidy, cfg, r.key, r.now, rng1);
      RequestKeepsAccess(if cfg.idleTtl.Some? then b.(access := r.now) else b, cfg.Params(), r.now, r.cost, rng2);
    }
  }

  lemma {:induction false} StoreRemembers(cfg: Config, start: u64, rs: seq<Request>, rng: Rng, key: Key)
    requires cfg.Valid() && InOrder(start, rs)
    ensures Remembers(ContentsAfter(map[], cfg, rs, rng), rs, key, cfg.idleTtl, EndOf(start, rs))
  {
    if rs != [] {
      var front, r := rs[..|rs| - 1], rs[|rs| - 1];
      assert rs == front + [r];
      OrderOfPrefix(start, front, r);
      StoreRemembers(cfg, start, front, rng, key);
      OneMoreRequest(map[], cfg, front, r, rng);
      CheckRemembers(ContentsAfter(map[], cfg, front, rng), cfg, front, r, RngAfter(map[], cfg, front, rng), key,
                     EndOf(start, front));
    }
  }

  /** A check that sweeps leaves, of the other keys, exactly those that were checked less
      than the TTL ago; one that does not leaves them all. */
  lemma {:induction false} SweepKeepsIff(cfg: Config, start: u64, rs: seq<Request>, r: Request, rng: Rng, key: Key)
    requires cfg.Valid() && InOrder(start, rs + [r]) && r.cost > 0 && r.key != key
    ensures var swept := Sweeps(cfg, RngAfter(map[], cfg, rs, rng));
            key in ContentsAfter(map[], cfg, rs + [r], rng)
            <==> if swept then CheckedWithin(rs, key, cfg.idleTtl, r.now) else key in ContentsAfter(map[], cfg, rs, rng)
  {
    OrderOfPrefix(start, rs, r);
    StoreRemembers(cfg, start, rs, rng, key);
    OneMoreRequest(map[], cfg, rs, r, rng);
  }

  /** A key that was checked less than the TTL ago is there, and the next check finds the
      bucket that its last check left, whatever sweeps came between. */
  lemma {:induction false} RecentKeyIsFound(cfg: Config, start: u64, rs: seq<Request>, r: Request, rng: Rng)
    requires cfg.Valid() && InOrder(start, rs + [r]) && r.cost > 0 && CheckedWithin(rs, r.key, cfg.idleTtl, r.now)
    ensures var m, drawn := ContentsAfter(map[], cfg, rs, rng), RngAfter(map[], cfg, rs, rng);
            && r.key in m
            && var b := if cfg.idleTtl.Some? then m[r.key].(access := r.now) else m[r.key];
               var a := Consume(b, cfg.Params(), r.now, r.cost, if cfg.idleTtl.Some? then drawn.Advanced() else drawn);
               var c := Check(m, cfg, r, drawn);
               r.key in c.contents && c.contents[r.key] == a.bucket && c.decision.permitted == a.permitted
  {
    OrderOfPrefix(start, rs, r);
    StoreRemembers(cfg, start, rs, rng, r.key);
  }

  /** A key that was idle for the TTL starts over with a full bucket at its next check, if
      that check sweeps: above sampling rate 1 it is admitted on every word. */
  lemma {:induction false} IdleKeyStartsOver(cfg: Config, start: u64, rs: seq<Request>, r: Request, rng: Rng)
    requires cfg.Valid() && InOrder(start, rs + [r]) && r.cost > 0 && cfg.sampleRate > 1 && cfg.capacity > 0
    requires Sweeps(cfg, RngAfter(map[], cfg, rs, rng)) && !CheckedWithin(rs, r.key, cfg.idleTtl, r.now)
    ensures Check(ContentsAfter(map[], cfg, rs, rng), cfg, r, RngAfter(map[], cfg, rs, rng)).decision.permitted
  {
    OrderOfPrefix(start, rs, r);
    StoreRemembers(cfg, start, rs, rng, r.key);
    var m, drawn := ContentsAfter(map[], cfg, rs, rng), RngAfter(map[], cfg, rs, rng);
    var (b, rng2) := Found(Tidied(m, cfg, r.now, drawn).0, cfg, r.key, r.now, drawn.Advanced());
    PQ.FullBucketAdmits(b.(access := r.now), cfg.Params(), r.now, r.cost, rng2);
  }

  /** A check for nothing is denied without a promise, draws no word and changes nothing. */
  lemma {:induction false} CheckForNothingDoesNothing(m: Contents, cfg: Config, front: seq<Request>, r: Request,
          rest: seq<Request>, rng: Rng)
    requires cfg.Valid() && r.cost == 0
    ensures ContentsAfter(m, cfg, front + [r] + rest, rng) == ContentsAfter(m, cfg, front + rest, rng)
    ensures var d := Check(m, cfg, r, rng).decision;
            !d.permitted && d.limit == cfg.capacity && d.retryAfter == d.reset == None && d.remaining == None
    decreases front
  {
    if front == [] {
      assert front + [r] + rest == [r] + rest && ([r] + rest)[1..] == rest && front + rest == rest;
    } else {
      var c := Check(m, cfg, front[0], rng);
      assert (front + [r] + rest)[1..] == front[1..] + [r] + rest && (front + rest)[1..] == front[1..] + rest;
      CheckForNothingDoesNothing(c.contents, cfg, front[1..], r, rest, c.rng);
    }
  }
}
