/** Which keys a store of token buckets holds after any history, told from the history
    alone: when each key was last checked, and when sweeps ran
    (src/algorithm/token_bucket.rs:385-448). */
module Eviction {
  import opened Machine
  import opened Internal
  import opened TokenBucket
  import opened Shards
  import opened Store
  import opened StoreRuns

  /** The instant of a key's last check. A check for nothing does not count as one. */
  function LastCheck(h: seq<Event>, key: Key): Option<u64> {
    if h == [] then None
    else
      var e := h[|h| - 1];
      if e.key == key && e.cost > 0 then Some(e.now) else LastCheck(h[..|h| - 1], key)
  }

  /** The key was checked, less than the TTL before `now` if there is one. */
  predicate CheckedWithin(h: seq<Event>, key: Key, ttl: Option<u64>, now: u64) {
    LastCheck(h, key).Some? && (ttl.Some? ==> now - LastCheck(h, key).value < ttl.value)
  }

  lemma {:induction false} OneMoreEvent(m: Contents, cfg: Config, ttl: Option<u64>, h: seq<Event>, e: Event)
    ensures ContentsAfter(m, cfg, ttl, h + [e]) == Check(ContentsAfter(m, cfg, ttl, h), cfg, ttl, e).0
    decreases h
  {
    if h == [] {
      assert h + [e] == [e] && [e][1..] == [];
    } else {
      assert (h + [e])[1..] == h[1..] + [e];
      OneMoreEvent(Check(m, cfg, ttl, h[0]).0, cfg, ttl, h[1..], e);
    }
  }

  lemma {:induction false} OrderOfPrefix(start: u64, h: seq<Event>, e: Event)
    requires EventsInOrder(start, h + [e])
    ensures EventsInOrder(start, h) && start <= LastInstant(start, h) <= e.now
    decreases h
  {
    if h != [] {
      assert (h + [e])[1..] == h[1..] + [e] && (h + [e])[0] == h[0];
      OrderOfPrefix(h[0].now, h[1..], e);
      assert LastInstant(h[0].now, h[1..]) == LastInstant(start, h);
    } else {
      assert (h + [e])[0] == e;
    }
  }

  lemma {:induction false} LastCheckAfter(h: seq<Event>, e: Event, key: Key)
    ensures LastCheck(h + [e], key) == if e.key == key && e.cost > 0 then Some(e.now) else LastCheck(h, key)
  {
    assert (h + [e])[..|h|] == h;
  }

  /** What the contents say about the history: a key that is held was last checked when its
      bucket was, and a key that is gone was idle for the TTL. */
  predicate Remembers(m: Contents, h: seq<Event>, key: Key, ttl: Option<u64>, now: u64) {
    && (key in m ==> LastCheck(h, key) == Some(m[key].access) && m[key].access <= now)
    && (key !in m && LastCheck(h, key).Some? ==> ttl.Some? && now - LastCheck(h, key).value >= ttl.value)
  }

  lemma CheckRemembers(m: Contents, cfg: Config, ttl: Option<u64>, h: seq<Event>, e: Event, key: Key, now: u64)
    requires Remembers(m, h, key, ttl, now) && now <= e.now
    ensures Remembers(Check(m, cfg, ttl, e).0, h + [e], key, ttl, e.now)
  {
    LastCheckAfter(h, e, key);
    if e.key == key && e.cost > 0 {
      var m1 := if e.sweep then Swept(m, ttl, e.now) else m;
      var b := if key in m1 then m1[key] else NewBucket(cfg.capacity, e.now);
      assert Consume(b, cfg.Scale(), e.now, e.cost).bucket.access == e.now;
    }
  }

  lemma {:induction false} StoreRemembers(cfg: Config, ttl: Option<u64>, start: u64, h: seq<Event>, key: Key)
    requires EventsInOrder(start, h)
    ensures Remembers(ContentsAfter(map[], cfg, ttl, h), h, key, ttl, LastInstant(start, h))
  {
    if h != [] {
      var front, e := h[..|h| - 1], h[|h| - 1];
      assert h == front + [e];
      OrderOfPrefix(start, front, e);
      StoreRemembers(cfg, ttl, start, front, key);
      OneMoreEvent(map[], cfg, ttl, front, e);
      CheckRemembers(ContentsAfter(map[], cfg, ttl, front), cfg, ttl, front, e, key, LastInstant(start, front));
    }
  }

  /** A check that sweeps leaves, of the other keys, exactly those that were checked less
      than the TTL ago; without a TTL, all of them. */
  lemma {:induction false} SweepKeepsIff(cfg: Config, ttl: Option<u64>, start: u64, h: seq<Event>, e: Event, key: Key)
    requires EventsInOrder(start, h + [e]) && e.sweep && e.cost > 0 && e.key != key
    ensures key in ContentsAfter(map[], cfg, ttl, h + [e]) <==> CheckedWithin(h, key, ttl, e.now)
  {
    OrderOfPrefix(start, h, e);
    StoreRemembers(cfg, ttl, start, h, key);
    OneMoreEvent(map[], cfg, ttl, h, e);
  }

  /** A key that was checked less than the TTL ago is there, with the bucket that its last
      check left, whatever sweeps came between; and the next check finds it. */
  lemma {:induction false} RecentKeyIsFound(cfg: Config, ttl: Option<u64>, start: u64, h: seq<Event>, e: Event)
    requires EventsInOrder(start, h + [e]) && e.cost > 0 && CheckedWithin(h, e.key, ttl, e.now)
    ensures var m := ContentsAfter(map[], cfg, ttl, h);
            && e.key in m
            && var c := Consume(m[e.key], cfg.Scale(), e.now, e.cost);
               Lookup(ContentsAfter(map[], cfg, ttl, h + [e]), e.key) == Some(c.bucket)
               && Check(m, cfg, ttl, e).1 == TokenDecision(c.permitted, c.remaining, cfg.capacity, cfg.rate, e.cost)
  {
    OrderOfPrefix(start, h, e);
    StoreRemembers(cfg, ttl, start, h, e.key);
    OneMoreEvent(map[], cfg, ttl, h, e);
  }

  /** A key that was idle for the TTL starts over with a full bucket at its next check, if
      that check sweeps. */
  lemma {:induction false} IdleKeyStartsOver(cfg: Config, ttl: Option<u64>, start: u64, h: seq<Event>, e: Event)
    requires cfg.Valid() && EventsInOrder(start, h + [e]) && e.sweep && e.cost > 0
    requires !CheckedWithin(h, e.key, ttl, e.now)
    ensures Check(ContentsAfter(map[], cfg, ttl, h), cfg, ttl, e).1.permitted <==> e.cost <= cfg.capacity
  {
    OrderOfPrefix(start, h, e);
    StoreRemembers(cfg, ttl, start, h, e.key);
    FullBucketPays(cfg, e.now, e.cost);
  }

  lemma FullBucketPays(cfg: Config, now: u64, cost: u64)
    requires cfg.Valid()
    ensures Consume(NewBucket(cfg.capacity, now), cfg.Scale(), now, cost).permitted <==> cost <= cfg.capacity
  {
    assert Refill(NewBucket(cfg.capacity, now), cfg.Scale(), now) == NewBucket(cfg.capacity, now);
  }

  // Checks for nothing.

  function Paying(h: seq<Event>): seq<Event> {
    if h == [] then [] else (if h[0].cost > 0 then [h[0]] else []) + Paying(h[1..])
  }

  /** A check for nothing is denied without a promise, and taking all of them out of a
      history leaves the same contents. */
  lemma {:induction false} ChecksForNothingDoNothing(m: Contents, cfg: Config, ttl: Option<u64>, h: seq<Event>)
    ensures ContentsAfter(m, cfg, ttl, h) == ContentsAfter(m, cfg, ttl, Paying(h))
    ensures forall i :: 0 <= i < |h| && h[i].cost == 0 ==>
              var d := Check(ContentsAfter(m, cfg, ttl, h[..i]), cfg, ttl, h[i]).1;
              !d.permitted && d.limit == cfg.capacity && d.retryAfter == d.reset == None && d.remaining == None
    decreases h
  {
    if h != [] {
      ChecksForNothingDoNothing(Check(m, cfg, ttl, h[0]).0, cfg, ttl, h[1..]);
      if h[0].cost > 0 {
        assert Paying(h)[0] == h[0] && Paying(h)[1..] == Paying(h[1..]);
      } else {
        assert Paying(h) == Paying(h[1..]);
      }
    }
  }

  // A key that is never idle for the TTL.

  /** Its own checks come less than the TTL apart, the first of them since `access`. */
  predicate Active(access: Option<u64>, own: seq<KeyEvent>, ttl: u64)
    decreases own
  {
    own == [] || (
      if own[0].Own? && own[0].cost > 0
      then (access.Some? ==> own[0].now - access.value < ttl) && Active(Some(own[0].now), own[1..], ttl)
      else Active(access, own[1..], ttl))
  }

  predicate Bystander(h: seq<KeyEvent>) {
    forall i :: 0 <= i < |h| ==> h[i].Own? ==> h[i].cost == 0
  }

  /** Checks for nothing are answered alike whatever the bucket. */
  lemma {:induction false} BystandersAgree(s: Option<Bucket>, t: Option<Bucket>, cfg: Config, ttl: Option<u64>,
          h: seq<KeyEvent>)
    requires Bystander(h)
    ensures KeyDecisions(s, cfg, ttl, h) == KeyDecisions(t, cfg, None, h)
    decreases h
  {
    if h != [] {
      BystandersAgree(KeyNext(s, cfg, ttl, h[0]), KeyNext(t, cfg, None, h[0]), cfg, ttl, h[1..]);
    }
  }

  /** Before the next check of an active key no sweep can remove it. */
  lemma {:induction false} NextCheckIsSoon(access: u64, start: u64, h: seq<KeyEvent>, ttl: u64)
    requires InOrder(start, h) && Active(Some(access), h, ttl) && !Bystander(h)
    ensures start - access < ttl
    decreases h
  {
    if h[0].Own? && h[0].cost > 0 {
    } else {
      NextCheckIsSoon(access, h[0].now, h[1..], ttl);
    }
  }

  lemma {:induction false} ActiveKeyAlone(s: Option<Bucket>, cfg: Config, ttl: u64, start: u64, h: seq<KeyEvent>)
    requires InOrder(start, h) && Active(if s.Some? then Some(s.value.access) else None, h, ttl)
    requires s.Some? ==> s.value.access <= start
    ensures KeyDecisions(s, cfg, Some(ttl), h) == KeyDecisions(s, cfg, None, h)
    decreases h
  {
    if Bystander(h) {
      BystandersAgree(s, s, cfg, Some(ttl), h);
    } else {
      var e := h[0];
      if s.Some? {
        NextCheckIsSoon(s.value.access, e.now, h, ttl);
      }
      var next := KeyNext(s, cfg, None, e);
      assert KeyNext(s, cfg, Some(ttl), e) == next;
      assert e.Own? ==> KeyDecision(s, cfg, Some(ttl), e) == KeyDecision(s, cfg, None, e);
      ActiveKeyAlone(next, cfg, ttl, e.now, h[1..]);
    }
  }

  lemma {:induction false} FeltIsActive(access: Option<u64>, h: seq<Event>, key: Key, ttl: u64)
    requires Active(access, OwnOf(h, key), ttl)
    ensures Active(access, FeltBy(h, key), ttl)
    decreases h
  {
    if h != [] {
      var felt, rest, own := Felt(h[0], key), FeltBy(h[1..], key), OwnOf(h[1..], key);
      if felt == [] {
        assert FeltBy(h, key) == rest && OwnOf(h, key) == own;
        FeltIsActive(access, h[1..], key, ttl);
      } else {
        var all := FeltBy(h, key);
        assert all[0] == felt[0] && all[1..] == rest;
        if h[0].key == key {
          assert OwnOf(h, key)[0] == felt[0] && OwnOf(h, key)[1..] == own;
          FeltIsActive(if h[0].cost > 0 then Some(h[0].now) else access, h[1..], key, ttl);
        } else {
          assert OwnOf(h, key) == own;
          FeltIsActive(access, h[1..], key, ttl);
        }
      }
    }
  }

  /** A key whose checks come less than the TTL apart is answered, on every history of every
      other key and all sweeps, as if there were no TTL. */
  lemma {:induction false} ActiveKeyIsNeverReset(cfg: Config, ttl: u64, start: u64, h: seq<Event>, key: Key)
    requires EventsInOrder(start, h) && Active(None, OwnOf(h, key), ttl)
    ensures DecisionsFor(map[], cfg, Some(ttl), h, key) == DecisionsFor(map[], cfg, None, h, key)
  {
    KeysAreIndependent(map[], cfg, Some(ttl), h, key);
    KeysAreIndependent(map[], cfg, None, h, key);
    FeltInOrder(start, start, h, key);
    FeltIsActive(None, h, key, ttl);
    ActiveKeyAlone(None, cfg, ttl, start, FeltBy(h, key));
  }
}
