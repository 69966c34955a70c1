/** Threads that race to find or make a key's bucket, and then race on its words: the
    steps of the lookup and of the bucket interleave freely
    (src/algorithm/token_bucket.rs:70-136, 426-440;
    src/algorithm/cached_token_bucket.rs:259-295, 326-347). */
module KeyedSteps {
  import opened Machine
  import opened Arithmetic
  import opened Internal
  import opened TokenBucket
  import TR = TokenRuns
  import T = TokenSteps
  import L = LookupSteps

  /** A finished call: which object of which limiter's key it ran on, and its outcome. */
  datatype Charge = Charge(instance: nat, key: L.Key, id: L.Id, cost: u64, permitted: bool)

  /** Since when there is a clock, where the threads are in their lookups, the words of
      every object ever made, the clock; then the instant each object was made with, and
      the calls that finished. */
  datatype State = State(
    start: u64,
    look: L.State,
    buckets: map<L.Id, T.State>,
    clock: u64,
    born: map<L.Id, u64>,
    charges: seq<Charge>)

  datatype Action =
    | Tick(nanos: nat)
    | Look(lookup: L.Action, now: u64)
    | Start(thread: nat, cost: u64, now: u64)
    | Run(step: T.Action)

  /** The thread has been handed an object. */
  predicate Holds(s: State, t: nat) {
    t < |s.look.threads| && s.look.threads[t].Holding? && s.look.threads[t].id in s.buckets
  }

  function Held(s: State, t: nat): T.State
    requires Holds(s, t)
  {
    s.buckets[s.look.threads[t].id]
  }

  predicate Enabled(s: State, a: Action) {
    match a
    case Tick(nanos) =>
      s.clock + nanos <= U64_MAX && forall id :: id in s.buckets ==> T.Enabled(s.buckets[id], T.Tick(nanos))
    case Look(lookup, now) => L.Enabled(s.look, lookup) && !lookup.Consume? && s.start <= now <= s.clock
    case Start(t, cost, now) => Holds(s, t) && T.Enabled(Held(s, t), T.Begin(t, cost, now))
    case Run(step) => !step.Tick? && !step.Begin? && Holds(s, step.thread) && T.Enabled(Held(s, step.thread), step)
  }

  /** A lookup that allocates an object does so with an instant that its thread has read
      before. */
  function LookNext(p: Scaled, s: State, lookup: L.Action, now: u64): State
    requires L.Enabled(s.look, lookup)
  {
    var look := L.Next(s.look, lookup);
    if look.nextId == s.look.nextId then s.(look := look)
    else s.(look := look,
            buckets := s.buckets[s.look.nextId := T.Initial(p, |look.threads|, now).(clock := s.clock)],
            born := s.born[s.look.nextId := now])
  }

  /** A call that ends gives the object back and is recorded. */
  function Finish(s: State, t: nat, o: T.Outcome): State
    requires L.WellShaped(s.look) && Holds(s, t)
  {
    var pc := s.look.threads[t];
    s.(look := L.Next(s.look, L.Consume(t)),
       charges := s.charges + [Charge(pc.instance, pc.key, pc.id, o.cost, o.permitted)])
  }

  function RunNext(p: Scaled, s: State, step: T.Action): State
    requires !step.Tick? && !step.Begin? && L.WellShaped(s.look)
    requires Holds(s, step.thread) && T.Enabled(Held(s, step.thread), step)
  {
    var id := s.look.threads[step.thread].id;
    var b := T.Next(p, s.buckets[id], step);
    var s1 := s.(buckets := s.buckets[id := b]);
    if |b.log| == |s.buckets[id].log| then s1 else Finish(s1, step.thread, b.log[|b.log| - 1])
  }

  function Next(p: Scaled, s: State, a: Action): State
    requires Enabled(s, a) && L.WellShaped(s.look)
  {
    match a
    case Tick(nanos) =>
      s.(clock := s.clock + nanos,
         buckets := map id | id in s.buckets :: T.Next(p, s.buckets[id], T.Tick(nanos)))
    case Look(lookup, now) => LookNext(p, s, lookup, now)
    case Start(t, cost, now) =>
      s.(buckets := s.buckets[s.look.threads[t].id := T.Next(p, Held(s, t), T.Begin(t, cost, now))])
    case Run(step) => RunNext(p, s, step)
  }

  predicate Feasible(p: Scaled, s: State, schedule: seq<Action>)
    decreases schedule
  {
    schedule == []
    || (L.WellShaped(s.look) && Enabled(s, schedule[0]) && Feasible(p, Next(p, s, schedule[0]), schedule[1..]))
  }

  function Exec(p: Scaled, s: State, schedule: seq<Action>): State
    requires Feasible(p, s, schedule)
    decreases schedule
  {
    if schedule == [] then s else Exec(p, Next(p, s, schedule[0]), schedule[1..])
  }

  function Initial(caching: bool, ttls: seq<bool>, threads: nat, start: u64): State {
    State(start, L.Initial(caching, ttls, threads), map[], start, map[], [])
  }

  // What the finished calls add up to.

  function SpentIn(charges: seq<Charge>, id: L.Id): nat {
    if charges == [] then 0
    else
      var c := charges[|charges| - 1];
      SpentIn(charges[..|charges| - 1], id) + if c.id == id && c.permitted then c.cost * SCALE else 0
  }

  /** Scaled cost permitted to one key of one limiter. */
  function SpentOn(charges: seq<Charge>, instance: nat, key: L.Key): nat {
    if charges == [] then 0
    else
      var c := charges[|charges| - 1];
      SpentOn(charges[..|charges| - 1], instance, key)
      + if c.instance == instance && c.key == key && c.permitted then c.cost * SCALE else 0
  }

  lemma {:induction false} SpentInAppend(charges: seq<Charge>, c: Charge, id: L.Id)
    ensures SpentIn(charges + [c], id) == SpentIn(charges, id) + if c.id == id && c.permitted then c.cost * SCALE else 0
  {
    assert (charges + [c])[..|charges|] == charges;
  }

  /** When all calls for a key ran on one object, that object was charged for them. */
  lemma {:induction false} SpentOnOneObject(charges: seq<Charge>, instance: nat, key: L.Key, id: L.Id)
    requires forall i :: 0 <= i < |charges| && charges[i].instance == instance && charges[i].key == key
                     ==> charges[i].id == id
    ensures SpentOn(charges, instance, key) <= SpentIn(charges, id)
  {
    if charges != [] {
      SpentOnOneObject(charges[..|charges| - 1], instance, key, id);
    }
  }

  // The invariant.

  /** An object's words obey the protocol since it was made, and its log is the calls
      charged to it. */
  predicate BucketOk(p: Scaled, s: State, id: L.Id) {
    && id in s.buckets && id in s.born
    && s.buckets[id].clock == s.clock && s.born[id] <= s.clock
    && T.Inv(p, s.born[id], s.buckets[id])
    && T.Permitted(s.buckets[id].log) == SpentIn(s.charges, id)
  }

  /** Every finished call is a use that the lookup recorded. */
  predicate ChargesMatch(s: State) {
    && |s.charges| == |s.look.log|
    && (forall i :: 0 <= i < |s.charges| ==>
          s.look.log[i] == L.Use(s.charges[i].instance, s.charges[i].key, s.charges[i].id))
  }

  /** What holds of the lookups and the charges, whatever the objects' words are. */
  predicate BooksOk(s: State) {
    && L.Inv(s.look) && ChargesMatch(s)
    && (forall i :: 0 <= i < |s.charges| ==> s.charges[i].id in s.buckets)
  }

  predicate Inv(p: Scaled, start: u64, s: State) {
    && BooksOk(s) && s.start == start <= s.clock
    && (forall id :: id in s.buckets ==> id < s.look.nextId && BucketOk(p, s, id) && start <= s.born[id])
  }

  lemma TickKeepsBucket(p: Scaled, s: State, nanos: nat, id: L.Id)
    requires BucketOk(p, s, id) && Enabled(s, Tick(nanos)) && L.WellShaped(s.look)
    ensures BucketOk(p, Next(p, s, Tick(nanos)), id)
  {
    T.StepKeepsInv(p, s.born[id], s.buckets[id], T.Tick(nanos));
  }

  lemma {:induction false} NewIsUncharged(charges: seq<Charge>, id: L.Id)
    requires forall i :: 0 <= i < |charges| ==> charges[i].id != id
    ensures SpentIn(charges, id) == 0
  {
    if charges != [] {
      NewIsUncharged(charges[..|charges| - 1], id);
    }
  }

  lemma LookStep(p: Scaled, start: u64, s: State, lookup: L.Action, now: u64)
    requires Inv(p, start, s) && Enabled(s, Look(lookup, now)) && p.Valid()
    ensures Inv(p, start, LookNext(p, s, lookup, now))
  {
    var s' := LookNext(p, s, lookup, now);
    L.StepKeepsInv(s.look, lookup);
    LookKeepsLog(s.look, lookup);
    forall id | id in s'.buckets ensures id < s'.look.nextId && BucketOk(p, s', id) && start <= s'.born[id] {
      if id in s.buckets {
        assert BucketOk(p, s, id);
      } else {
        NewBucketIsOk(p, start, s, lookup, now);
      }
    }
  }

  lemma LookKeepsLog(look: L.State, lookup: L.Action)
    requires L.Enabled(look, lookup) && !lookup.Consume?
    ensures var look' := L.Next(look, lookup);
            look'.log == look.log && look.nextId <= look'.nextId <= look.nextId + 1
  {
  }

  lemma NewBucketIsOk(p: Scaled, start: u64, s: State, lookup: L.Action, now: u64)
    requires Inv(p, start, s) && Enabled(s, Look(lookup, now)) && p.Valid()
    requires LookNext(p, s, lookup, now).look.nextId != s.look.nextId
    ensures BucketOk(p, LookNext(p, s, lookup, now), s.look.nextId)
  {
    T.InitialInv(p, |LookNext(p, s, lookup, now).look.threads|, now);
    NewIsUncharged(s.charges, s.look.nextId);
  }

  lemma StartStep(p: Scaled, start: u64, s: State, t: nat, cost: u64, now: u64)
    requires Inv(p, start, s) && Enabled(s, Start(t, cost, now))
    ensures Inv(p, start, Next(p, s, Start(t, cost, now)))
  {
    var s', held := Next(p, s, Start(t, cost, now)), s.look.threads[t].id;
    T.StepKeepsInv(p, s.born[held], s.buckets[held], T.Begin(t, cost, now));
    forall id | id in s'.buckets ensures id < s'.look.nextId && BucketOk(p, s', id) && start <= s'.born[id] {
      assert BucketOk(p, s, id);
    }
  }

  /** What a step of a call does to the log. */
  lemma StepLogs(p: Scaled, b: T.State, step: T.Action)
    requires T.Enabled(b, step)
    ensures var b' := T.Next(p, b, step);
            && b'.clock == (if step.Tick? then b.clock + step.nanos else b.clock)
            && (b'.log == b.log || (|b'.log| == |b.log| + 1 && b'.log == b.log + [b'.log[|b.log|]]))
  {
  }

  /** The step on the object itself: its log grows exactly with its charges. */
  lemma RunKeepsBucket(p: Scaled, start: u64, s: State, step: T.Action, id: L.Id)
    requires Inv(p, start, s) && Enabled(s, Run(step)) && id in s.buckets
    ensures BucketOk(p, RunNext(p, s, step), id)
  {
    var held := s.look.threads[step.thread].id;
    assert BucketOk(p, s, id) && BucketOk(p, s, held);
    T.StepKeepsInv(p, s.born[held], s.buckets[held], step);
    StepLogs(p, s.buckets[held], step);
    ChargedToHeld(p, s, step, id);
  }

  /** What a step adds to an object's log it also adds to its charges. */
  lemma {:induction false} ChargedToHeld(p: Scaled, s: State, step: T.Action, id: L.Id)
    requires L.WellShaped(s.look) && Enabled(s, Run(step)) && id in s.buckets
    ensures id in RunNext(p, s, step).buckets
    ensures T.Permitted(RunNext(p, s, step).buckets[id].log) - T.Permitted(s.buckets[id].log)
         == SpentIn(RunNext(p, s, step).charges, id) - SpentIn(s.charges, id)
  {
    var pc := s.look.threads[step.thread];
    var b := s.buckets[pc.id];
    StepLogs(p, b, step);
    var b' := T.Next(p, b, step);
    if |b'.log| != |b.log| {
      var o := b'.log[|b.log|];
      T.PermittedAppend(b.log, o);
      SpentInAppend(s.charges, Charge(pc.instance, pc.key, pc.id, o.cost, o.permitted), id);
    }
  }

  lemma FinishKeepsBooks(s: State, t: nat, o: T.Outcome)
    requires BooksOk(s) && Holds(s, t)
    ensures var s' := Finish(s, t, o);
            && BooksOk(s') && s'.look.nextId == s.look.nextId
            && s'.start == s.start && s'.clock == s.clock && s'.born == s.born && s'.buckets == s.buckets
  {
    L.StepKeepsInv(s.look, L.Consume(t));
  }

  lemma RunKeepsBooks(p: Scaled, s: State, step: T.Action)
    requires BooksOk(s) && Enabled(s, Run(step))
    ensures var s' := RunNext(p, s, step);
            && BooksOk(s') && s'.look.nextId == s.look.nextId
            && s'.start == s.start && s'.clock == s.clock && s'.born == s.born && s'.buckets.Keys == s.buckets.Keys
  {
    var id := s.look.threads[step.thread].id;
    var b := T.Next(p, s.buckets[id], step);
    var s1 := s.(buckets := s.buckets[id := b]);
    assert BooksOk(s1);
    if |b.log| != |s.buckets[id].log| {
      FinishKeepsBooks(s1, step.thread, b.log[|b.log| - 1]);
    }
  }

  lemma RunStep(p: Scaled, start: u64, s: State, step: T.Action)
    requires Inv(p, start, s) && Enabled(s, Run(step))
    ensures Inv(p, start, RunNext(p, s, step))
  {
    var s' := RunNext(p, s, step);
    RunKeepsBooks(p, s, step);
    forall id | id in s'.buckets ensures id < s'.look.nextId && BucketOk(p, s', id) && start <= s'.born[id] {
      RunKeepsBucket(p, start, s, step, id);
    }
  }

  lemma StepKeepsInv(p: Scaled, start: u64, s: State, a: Action)
    requires Inv(p, start, s) && Enabled(s, a) && p.Valid()
    ensures Inv(p, start, Next(p, s, a))
  {
    match a
    case Tick(nanos) =>
      var s' := Next(p, s, a);
      forall id | id in s'.buckets ensures BucketOk(p, s', id) {
        TickKeepsBucket(p, s, nanos, id);
      }
    case Look(lookup, now) => LookStep(p, start, s, lookup, now);
    case Start(t, cost, now) => StartStep(p, start, s, t, cost, now);
    case Run(step) => RunStep(p, start, s, step);
  }

  lemma TtlsStay(p: Scaled, s: State, a: Action)
    requires Enabled(s, a) && L.WellShaped(s.look)
    ensures Next(p, s, a).look.ttls == s.look.ttls
  {
  }

  lemma {:induction false} RunKeepsInv(p: Scaled, start: u64, s: State, schedule: seq<Action>)
    requires Inv(p, start, s) && Feasible(p, s, schedule) && p.Valid()
    ensures Inv(p, start, Exec(p, s, schedule)) && Exec(p, s, schedule).look.ttls == s.look.ttls
    decreases schedule
  {
    if schedule != [] {
      StepKeepsInv(p, start, s, schedule[0]);
      TtlsStay(p, s, schedule[0]);
      RunKeepsInv(p, start, Next(p, s, schedule[0]), schedule[1..]);
    }
  }

  /** The claims made on the object that a limiter's map holds for a key. */
  function ClaimsOn(s: State, instance: nat, key: L.Key): nat {
    if instance < |s.look.maps| && key in s.look.maps[instance] && s.look.maps[instance][key] in s.buckets
    then |s.buckets[s.look.maps[instance][key]].claims| else 0
  }

  predicate KeyWithinBudget(p: Scaled, start: u64, s: State, instance: nat, key: L.Key) {
    SpentOn(s.charges, instance, key) * NANOS_PER_SEC
    <= p.capacity * NANOS_PER_SEC + (s.clock - start) * p.rate + TR.ClaimSlack(p, ClaimsOn(s, instance, key))
  }

  /** However lookups, insertions, cache fills and the steps of the calls interleave, a
      key of a limiter without a TTL is permitted no more than one bucket's capacity
      and accrual, up to the rounding of that one object's claims. */
  lemma {:induction false} RacingCallsShareOneBudget(
      p: Scaled, caching: bool, ttls: seq<bool>, threads: nat, start: u64, schedule: seq<Action>,
      instance: nat, key: L.Key)
    requires p.Valid() && (caching ==> L.OneKeeper(ttls)) && L.Keeps(ttls, instance)
    requires Feasible(p, Initial(caching, ttls, threads, start), schedule)
    ensures KeyWithinBudget(p, start, Exec(p, Initial(caching, ttls, threads, start), schedule), instance, key)
  {
    InitialInv(p, caching, ttls, threads, start);
    RunKeepsInv(p, start, Initial(caching, ttls, threads, start), schedule);
    OneBudget(p, start, Exec(p, Initial(caching, ttls, threads, start), schedule), instance, key);
  }

  lemma InitialInv(p: Scaled, caching: bool, ttls: seq<bool>, threads: nat, start: u64)
    requires caching ==> L.OneKeeper(ttls)
    ensures Inv(p, start, Initial(caching, ttls, threads, start))
  {
  }

  /** All calls for a key ran on the object that its limiter's map holds. */
  lemma ChargedToOfficial(s: State, i: nat, instance: nat, key: L.Key)
    requires BooksOk(s) && L.Keeps(s.look.ttls, instance)
    requires i < |s.charges| && s.charges[i].instance == instance && s.charges[i].key == key
    ensures L.Official(s.look, instance, key, s.charges[i].id) && s.charges[i].id in s.buckets
  {
    assert L.UseOfficial(s.look, s.look.log[i]);
  }

  lemma OneBudget(p: Scaled, start: u64, s: State, instance: nat, key: L.Key)
    requires p.Valid() && Inv(p, start, s) && L.Keeps(s.look.ttls, instance)
    ensures KeyWithinBudget(p, start, s, instance, key)
  {
    if i :| 0 <= i < |s.charges| && s.charges[i].instance == instance && s.charges[i].key == key {
      var id := s.charges[i].id;
      ChargedToOfficial(s, i, instance, key);
      forall j | 0 <= j < |s.charges| && s.charges[j].instance == instance && s.charges[j].key == key
        ensures s.charges[j].id == id
      {
        ChargedToOfficial(s, j, instance, key);
      }
      SpentOnOneObject(s.charges, instance, key, id);
      ObjectBudget(p, start, s, id);
    } else {
      NothingSpentOn(s.charges, instance, key);
      MulMono(0, s.clock - start, p.rate);
    }
  }

  lemma {:induction false} ObjectBudget(p: Scaled, start: u64, s: State, id: L.Id)
    requires BucketOk(p, s, id) && start <= s.born[id]
    ensures SpentIn(s.charges, id) * NANOS_PER_SEC
         <= p.capacity * NANOS_PER_SEC + (s.clock - start) * p.rate + TR.ClaimSlack(p, |s.buckets[id].claims|)
  {
    T.PermittedWithinBudget(p, s.born[id], s.buckets[id], start);
  }

  lemma {:induction false} NothingSpentOn(charges: seq<Charge>, instance: nat, key: L.Key)
    requires forall i :: 0 <= i < |charges| ==> charges[i].instance != instance || charges[i].key != key
    ensures SpentOn(charges, instance, key) == 0
  {
    if charges != [] {
      NothingSpentOn(charges[..|charges| - 1], instance, key);
    }
  }
}
