/** The in-memory token buckets: what each key is admitted, and why neither a
    refused call nor the periodic cleanup can be noticed later. */
module TokenBuckets {
  import opened Options

  datatype Bucket = Bucket(tokens: real, last: real)

  datatype Limits = Limits(rate: real, capacity: int)

  predicate Sane(p: Limits) {
    p.rate >= 0.0 && p.capacity >= 0
  }

  function Min(x: real, y: real): real {
    if x <= y then x else y
  }

  function Gain(p: Limits, elapsed: real): real {
    elapsed * p.rate
  }

  lemma GainAdds(p: Limits, x: real, y: real)
    requires Sane(p)
    ensures Gain(p, x + y) == Gain(p, x) + Gain(p, y)
    ensures x >= 0.0 ==> Gain(p, x) >= 0.0
    ensures y >= 0.0 ==> Gain(p, y) >= 0.0
  {
  }

  /** Tokens a call at `now` finds; a key never seen, or forgotten, finds a full bucket. */
  function Level(p: Limits, b: Option<Bucket>, now: real): real {
    match b
    case None => p.capacity as real
    case Some(k) => Min(p.capacity as real, k.tokens + Gain(p, now - k.last))
  }

  predicate Admits(p: Limits, b: Option<Bucket>, now: real) {
    Level(p, b, now) >= 1.0
  }

  function After(p: Limits, b: Option<Bucket>, now: real): Option<Bucket> {
    var level := Level(p, b, now);
    Some(Bucket(if level >= 1.0 then level - 1.0 else level, now))
  }

  predicate ValidBucket(p: Limits, b: Option<Bucket>, now: real) {
    b.Some? ==> 0.0 <= b.value.tokens <= p.capacity as real && b.value.last <= now
  }

  // ---- one key: calls at the given times ----

  predicate InOrder(start: real, times: seq<real>)
    decreases |times|
  {
    times == [] || (start <= times[0] && InOrder(times[0], times[1..]))
  }

  function Answers(p: Limits, b: Option<Bucket>, times: seq<real>): (r: seq<bool>)
    ensures |r| == |times|
    decreases |times|
  {
    if times == [] then []
    else [Admits(p, b, times[0])] + Answers(p, After(p, b, times[0]), times[1..])
  }

  function Final(p: Limits, b: Option<Bucket>, times: seq<real>): Option<Bucket>
    decreases |times|
  {
    if times == [] then b else Final(p, After(p, b, times[0]), times[1..])
  }

  function Admitted(answers: seq<bool>): nat {
    if answers == [] then 0 else (if answers[0] then 1 else 0) + Admitted(answers[1..])
  }

  function Until(start: real, times: seq<real>): real {
    if times == [] then start else times[|times| - 1]
  }

  lemma LevelGrows(p: Limits, b: Option<Bucket>, t1: real, t2: real)
    requires Sane(p) && ValidBucket(p, b, t1) && t1 <= t2
    ensures 0.0 <= Level(p, b, t1) <= Level(p, b, t2) <= p.capacity as real
    ensures Level(p, b, t2) <= Level(p, b, t1) + Gain(p, t2 - t1)
  {
    GainAdds(p, t2 - t1, 0.0);
    match b
    case None =>
    case Some(k) =>
      GainAdds(p, t1 - k.last, t2 - t1);
      assert t2 - k.last == (t1 - k.last) + (t2 - t1);
  }

  lemma AfterValid(p: Limits, b: Option<Bucket>, now: real)
    requires Sane(p) && ValidBucket(p, b, now)
    ensures ValidBucket(p, After(p, b, now), now)
    ensures Level(p, After(p, b, now), now) == Level(p, b, now) - (if Admits(p, b, now) then 1.0 else 0.0)
  {
    LevelGrows(p, b, now, now);
  }

  /** Each admitted call costs a token, and tokens only come from the initial
      level and the refill. */
  lemma {:induction false} TokensConserved(p: Limits, b: Option<Bucket>, start: real, times: seq<real>)
    requires Sane(p) && ValidBucket(p, b, start) && InOrder(start, times)
    ensures ValidBucket(p, Final(p, b, times), Until(start, times))
    ensures Admitted(Answers(p, b, times)) as real + Level(p, Final(p, b, times), Until(start, times))
            <= Level(p, b, start) + Gain(p, Until(start, times) - start)
    decreases |times|
  {
    if times != [] {
      var t := times[0];
      LevelGrows(p, b, start, t);
      AfterValid(p, b, t);
      TokensConserved(p, After(p, b, t), t, times[1..]);
      var u := Until(start, times);
      assert u == Until(t, times[1..]);
      GainAdds(p, u - t, t - start);
      assert u - start == (u - t) + (t - start);
      assert Answers(p, b, times)[1..] == Answers(p, After(p, b, t), times[1..]);
    } else {
      GainAdds(p, 0.0, 0.0);
    }
  }

  /** In any stretch of any run, a key is admitted at most `capacity + rate * T`
      calls, where T is the stretch's length: whatever happened before it. */
  lemma WindowBound(p: Limits, start: real, before: seq<real>, t0: real, times: seq<real>, t1: real)
    requires Sane(p) && InOrder(start, before) && Until(start, before) <= t0
    requires InOrder(t0, times) && Until(t0, times) <= t1
    ensures Admitted(Answers(p, Final(p, None, before), times)) as real <= p.capacity as real + Gain(p, t1 - t0)
  {
    var b := Final(p, None, before);
    TokensConserved(p, None, start, before);
    TokensConserved(p, b, t0, times);
    LevelGrows(p, b, t0, t0);
    var u := Until(t0, times);
    UntilInOrder(t0, times);
    LevelGrows(p, Final(p, b, times), u, u);
    GainAdds(p, t1 - u, u - t0);
    assert t1 - t0 == (t1 - u) + (u - t0);
  }

  lemma {:induction false} UntilInOrder(start: real, times: seq<real>)
    requires InOrder(start, times)
    ensures start <= Until(start, times)
    decreases |times|
  {
    if times != [] {
      UntilInOrder(times[0], times[1..]);
      assert Until(start, times) == Until(times[0], times[1..]);
    }
  }

  // ---- a refused call leaves no trace ----

  lemma RefusalOnlyRefills(p: Limits, b: Option<Bucket>, t: real, later: real)
    requires Sane(p) && ValidBucket(p, b, t) && t <= later && !Admits(p, b, t)
    ensures Level(p, After(p, b, t), later) == Level(p, b, later)
  {
    LevelGrows(p, b, t, later);
    if b.Some? {
      var k := b.value;
      GainAdds(p, t - k.last, later - t);
      assert later - k.last == (t - k.last) + (later - t);
    }
  }

  lemma {:induction false} AnswersAppend(p: Limits, b: Option<Bucket>, xs: seq<real>, ys: seq<real>)
    ensures Answers(p, b, xs + ys) == Answers(p, b, xs) + Answers(p, Final(p, b, xs), ys)
    decreases |xs|
  {
    if xs == [] {
      assert xs + ys == ys;
    } else {
      assert (xs + ys)[1..] == xs[1..] + ys;
      AnswersAppend(p, After(p, b, xs[0]), xs[1..], ys);
    }
  }

  lemma {:induction false} InOrderSplit(start: real, xs: seq<real>, ys: seq<real>)
    requires InOrder(start, xs + ys)
    ensures InOrder(start, xs) && InOrder(Until(start, xs), ys)
    decreases |xs|
  {
    if xs == [] {
      assert xs + ys == ys;
    } else {
      assert (xs + ys)[1..] == xs[1..] + ys;
      InOrderSplit(xs[0], xs[1..], ys);
      assert Until(start, xs) == Until(xs[0], xs[1..]);
    }
  }

  /** Deleting a refused call from a run, or inserting one, changes no other answer. */
  lemma RefusedCallUnobservable(p: Limits, start: real, before: seq<real>, t: real, after: seq<real>)
    requires Sane(p) && InOrder(start, before + ([t] + after))
    requires !Answers(p, None, before + ([t] + after))[|before|]
    ensures Answers(p, None, before + ([t] + after))
            == Answers(p, None, before) + [false] + Answers(p, None, before + after)[|before|..]
  {
    InOrderSplit(start, before, [t] + after);
    TokensConserved(p, None, start, before);
    var b := Final(p, None, before);
    AnswersAppend(p, None, before, [t] + after);
    AnswersAppend(p, None, before, after);
    assert ([t] + after)[1..] == after;
    if after != [] { RefusalOnlyRefills(p, b, t, after[0]); }
  }

  // ---- all keys, with cleanup in between ----

  type Buckets = map<string, Bucket>

  datatype Op = Call(key: string) | Cleanup(maxAge: real)
  datatype Event = Event(at: real, op: Op)

  function Lookup(m: Buckets, key: string): Option<Bucket> {
    if key in m then Some(m[key]) else None
  }

  function Kept(m: Buckets, now: real, maxAge: real): Buckets {
    map k | k in m && now - m[k].last <= maxAge :: m[k]
  }

  function Step(p: Limits, m: Buckets, e: Event): Buckets {
    match e.op
    case Call(key) => m[key := After(p, Lookup(m, key), e.at).value]
    case Cleanup(maxAge) => Kept(m, e.at, maxAge)
  }

  /** The answers of the calls in a run, in order. */
  function Run(p: Limits, m: Buckets, run: seq<Event>): seq<bool>
    decreases |run|
  {
    if run == [] then []
    else
      (if run[0].op.Call? then [Admits(p, Lookup(m, run[0].op.key), run[0].at)] else [])
      + Run(p, Step(p, m, run[0]), run[1..])
  }

  function CallsOnly(run: seq<Event>): seq<Event> {
    if run == [] then []
    else (if run[0].op.Call? then [run[0]] else []) + CallsOnly(run[1..])
  }

  predicate Ordered(start: real, run: seq<Event>)
    decreases |run|
  {
    run == [] || (start <= run[0].at && Ordered(run[0].at, run[1..]))
  }

  /** `m` is `full` except for keys whose bucket is full again anyway. */
  predicate OnlyFullForgotten(p: Limits, m: Buckets, full: Buckets, now: real) {
    && (forall k :: k in full ==> ValidBucket(p, Some(full[k]), now))
    && (forall k :: k in m ==> k in full && m[k] == full[k])
    && (forall k :: k in full && k !in m ==> Level(p, Some(full[k]), now) == p.capacity as real)
  }

  predicate Forgettable(p: Limits, maxAge: real) {
    Gain(p, maxAge) >= p.capacity as real
  }

  lemma AgedIsFull(p: Limits, b: Bucket, now: real, maxAge: real)
    requires Sane(p) && ValidBucket(p, Some(b), now) && Forgettable(p, maxAge) && now - b.last > maxAge
    ensures Level(p, Some(b), now) == p.capacity as real
  {
    GainAdds(p, maxAge, now - b.last - maxAge);
    assert now - b.last == maxAge + (now - b.last - maxAge);
  }

  lemma StepForgets(p: Limits, m: Buckets, full: Buckets, now: real, e: Event)
    requires Sane(p) && OnlyFullForgotten(p, m, full, now) && now <= e.at
    requires e.op.Cleanup? ==> Forgettable(p, e.op.maxAge)
    ensures e.op.Cleanup? ==> OnlyFullForgotten(p, Step(p, m, e), full, e.at)
    ensures e.op.Call? ==>
              && OnlyFullForgotten(p, Step(p, m, e), Step(p, full, e), e.at)
              && Admits(p, Lookup(m, e.op.key), e.at) == Admits(p, Lookup(full, e.op.key), e.at)
  {
    forall k | k in full
      ensures ValidBucket(p, Some(full[k]), e.at)
      ensures Level(p, Some(full[k]), now) == p.capacity as real ==> Level(p, Some(full[k]), e.at) == p.capacity as real
      ensures e.op.Cleanup? && e.at - full[k].last > e.op.maxAge ==> Level(p, Some(full[k]), e.at) == p.capacity as real
    {
      LevelGrows(p, Some(full[k]), now, e.at);
      if e.op.Cleanup? && e.at - full[k].last > e.op.maxAge { AgedIsFull(p, full[k], e.at, e.op.maxAge); }
    }
    if e.op.Call? {
      AfterValid(p, Lookup(full, e.op.key), e.at);
    }
  }

  /** Cleanups never change an answer when an entry old enough to be dropped
      has had time to fill up. */
  lemma {:induction false} CleanupUnobservable(p: Limits, m: Buckets, full: Buckets, now: real, run: seq<Event>)
    requires Sane(p) && OnlyFullForgotten(p, m, full, now) && Ordered(now, run)
    requires forall i :: 0 <= i < |run| && run[i].op.Cleanup? ==> Forgettable(p, run[i].op.maxAge)
    ensures Run(p, m, run) == Run(p, full, CallsOnly(run))
    decreases |run|
  {
    if run != [] {
      var e := run[0];
      StepForgets(p, m, full, now, e);
      if e.op.Call? {
        CleanupUnobservable(p, Step(p, m, e), Step(p, full, e), e.at, run[1..]);
        assert ([e] + CallsOnly(run[1..]))[1..] == CallsOnly(run[1..]);
      } else {
        CleanupUnobservable(p, Step(p, m, e), full, e.at, run[1..]);
        assert CallsOnly(run) == CallsOnly(run[1..]) && Run(p, m, run) == Run(p, Step(p, m, e), run[1..]);
      }
    }
  }

  // ---- one key among many ----

  function BucketsAfter(p: Limits, m: Buckets, run: seq<Event>): Buckets
    decreases |run|
  {
    if run == [] then m else BucketsAfter(p, Step(p, m, run[0]), run[1..])
  }

  /** How many calls of `key` a run admits. */
  function AdmittedOf(p: Limits, m: Buckets, run: seq<Event>, key: string): nat
    decreases |run|
  {
    if run == [] then 0
    else
      (if run[0].op == Call(key) && Admits(p, Lookup(m, key), run[0].at) then 1 else 0)
      + AdmittedOf(p, Step(p, m, run[0]), run[1..], key)
  }

  function EndOf(start: real, run: seq<Event>): real {
    if run == [] then start else run[|run| - 1].at
  }

  predicate CleanupsForgettable(p: Limits, run: seq<Event>) {
    forall i :: 0 <= i < |run| && run[i].op.Cleanup? ==> Forgettable(p, run[i].op.maxAge)
  }

  /** What one step does to one key: a call of it spends a token if it is admitted,
      and nothing else changes its level, forgetting a full bucket included. */
  lemma StepLevel(p: Limits, m: Buckets, e: Event, key: string, start: real)
    requires Sane(p) && ValidBucket(p, Lookup(m, key), start) && start <= e.at
    requires e.op.Cleanup? ==> Forgettable(p, e.op.maxAge)
    ensures ValidBucket(p, Lookup(Step(p, m, e), key), e.at)
    ensures Level(p, Lookup(Step(p, m, e), key), e.at)
            == Level(p, Lookup(m, key), e.at)
               - (if e.op == Call(key) && Admits(p, Lookup(m, key), e.at) then 1.0 else 0.0)
  {
    LevelGrows(p, Lookup(m, key), start, e.at);
    match e.op
    case Call(k) => if k == key { AfterValid(p, Lookup(m, key), e.at); }
    case Cleanup(maxAge) =>
      if key in m && e.at - m[key].last > maxAge { AgedIsFull(p, m[key], e.at, maxAge); }
  }

  lemma {:induction false} KeyConserved(p: Limits, m: Buckets, start: real, run: seq<Event>, key: string)
    requires Sane(p) && ValidBucket(p, Lookup(m, key), start) && Ordered(start, run) && CleanupsForgettable(p, run)
    ensures start <= EndOf(start, run)
    ensures ValidBucket(p, Lookup(BucketsAfter(p, m, run), key), EndOf(start, run))
    ensures AdmittedOf(p, m, run, key) as real
            + Level(p, Lookup(BucketsAfter(p, m, run), key), EndOf(start, run))
            <= Level(p, Lookup(m, key), start) + Gain(p, EndOf(start, run) - start)
    decreases |run|
  {
    if run == [] {
      GainAdds(p, 0.0, 0.0);
    } else {
      var e := run[0];
      var end := EndOf(start, run);
      StepLevel(p, m, e, key, start);
      LevelGrows(p, Lookup(m, key), start, e.at);
      KeyConserved(p, Step(p, m, e), e.at, run[1..], key);
      assert end == EndOf(e.at, run[1..]);
      GainAdds(p, end - e.at, e.at - start);
      assert end - start == (end - e.at) + (e.at - start);
    }
  }

  /** In any stretch of any run over any keys, with cleanups in between, each key is
      admitted at most `capacity + rate * T` calls, T being the stretch's length. */
  lemma KeyWindowBound(p: Limits, start: real, before: seq<Event>, t0: real, run: seq<Event>, t1: real, key: string)
    requires Sane(p) && Ordered(start, before) && CleanupsForgettable(p, before) && EndOf(start, before) <= t0
    requires Ordered(t0, run) && CleanupsForgettable(p, run) && EndOf(t0, run) <= t1
    ensures AdmittedOf(p, BucketsAfter(p, map[], before), run, key) as real
            <= p.capacity as real + Gain(p, t1 - t0)
  {
    var m := BucketsAfter(p, map[], before);
    KeyConserved(p, map[], start, before, key);
    LevelGrows(p, Lookup(m, key), EndOf(start, before), t0);
    KeyConserved(p, m, t0, run, key);
    var u := EndOf(t0, run);
    LevelGrows(p, Lookup(BucketsAfter(p, m, run), key), u, u);
    GainAdds(p, t1 - u, u - t0);
    assert t1 - t0 == (t1 - u) + (u - t0);
  }

  // ---- and only then ----

  function Burst(n: nat, at: real): seq<Event> {
    seq(n, _ => Event(at, Call("k")))
  }

  function AllTrue(n: nat): seq<bool> {
    seq(n, _ => true)
  }

  lemma BurstStep(p: Limits, m: Buckets, at: real, k: nat)
    requires Sane(p) && 0 < k <= p.capacity && Level(p, Lookup(m, "k"), at) == k as real
    requires "k" in m ==> ValidBucket(p, Some(m["k"]), at)
    ensures Admits(p, Lookup(m, "k"), at)
    ensures After(p, Lookup(m, "k"), at) == Some(Bucket((k - 1) as real, at))
    ensures Level(p, Some(Bucket((k - 1) as real, at)), at) == (k - 1) as real
    ensures ValidBucket(p, Some(Bucket((k - 1) as real, at)), at)
  {
    AfterValid(p, Lookup(m, "k"), at);
  }

  /** What a burst of at most k calls leaves of k tokens. */
  function Spent(m: Buckets, n: nat, k: nat, at: real): Buckets
    requires n <= k
  {
    if n == 0 then m else m["k" := Bucket((k - n) as real, at)]
  }

  lemma RunCall(p: Limits, m: Buckets, e: Event, later: seq<Event>, left: Bucket)
    requires e.op == Call("k") && Admits(p, Lookup(m, "k"), e.at) && After(p, Lookup(m, "k"), e.at) == Some(left)
    ensures Run(p, m, [e] + later) == [true] + Run(p, m["k" := left], later)
  {
    assert ([e] + later)[1..] == later;
  }

  lemma {:induction false} BurstFromFull(p: Limits, m: Buckets, n: nat, at: real, rest: seq<Event>, k: nat)
    requires Sane(p) && n <= k <= p.capacity && Level(p, Lookup(m, "k"), at) == k as real
    requires "k" in m ==> ValidBucket(p, Some(m["k"]), at)
    ensures Run(p, m, Burst(n, at) + rest) == AllTrue(n) + Run(p, Spent(m, n, k, at), rest)
    decreases n
  {
    if n == 0 {
      assert Burst(n, at) + rest == rest;
    } else {
      var m1, e := m["k" := Bucket((k - 1) as real, at)], Event(at, Call("k"));
      BurstStep(p, m, at, k);
      RunCall(p, m, e, Burst(n - 1, at) + rest, Bucket((k - 1) as real, at));
      BurstFromFull(p, m1, n - 1, at, rest, k - 1);
      assert Spent(m1, n - 1, k - 1, at) == Spent(m, n, k, at);
      BurstJoins(p, m, m1, n, at, rest, Run(p, Spent(m, n, k, at), rest));
    }
  }

  lemma BurstJoins(p: Limits, m: Buckets, m1: Buckets, n: nat, at: real, rest: seq<Event>, tail: seq<bool>)
    requires n > 0 && Run(p, m1, Burst(n - 1, at) + rest) == AllTrue(n - 1) + tail
    requires var e := Event(at, Call("k"));
             Run(p, m, [e] + (Burst(n - 1, at) + rest)) == [true] + Run(p, m1, Burst(n - 1, at) + rest)
    ensures Run(p, m, Burst(n, at) + rest) == AllTrue(n) + tail
  {
    assert Burst(n, at) + rest == [Event(at, Call("k"))] + (Burst(n - 1, at) + rest);
    assert AllTrue(n) + tail == [true] + (AllTrue(n - 1) + tail);
  }

  /** A bucket holding less than `n` tokens refuses some call of a burst of `n`. */
  lemma {:induction false} BurstRefused(p: Limits, m: Buckets, n: nat, at: real)
    requires Sane(p) && Level(p, Lookup(m, "k"), at) < n as real && "k" in m && ValidBucket(p, Some(m["k"]), at)
    ensures false in Run(p, m, Burst(n, at))
    decreases n
  {
    var answer := Admits(p, Lookup(m, "k"), at);
    LevelGrows(p, Lookup(m, "k"), at, at);
    assert n > 0;
    assert Burst(n, at)[1..] == Burst(n - 1, at);
    if answer {
      AfterValid(p, Lookup(m, "k"), at);
      BurstRefused(p, Step(p, m, Burst(n, at)[0]), n - 1, at);
    }
  }

  predicate CleansAt(run: seq<Event>, maxAge: real) {
    forall i :: 0 <= i < |run| && run[i].op.Cleanup? ==> run[i].op.maxAge == maxAge
  }

  /** When an entry can be dropped before it has filled up: spend everything, wait just
      past `maxAge`, clean up, and spend everything again. */
  lemma TwoBursts(p: Limits, maxAge: real) returns (at: real, clean: Event, run: seq<Event>)
    requires Sane(p) && !Forgettable(p, maxAge) && p.capacity > 0
    ensures at >= 0.0 && Gain(p, at) < p.capacity as real && clean == Event(at, Cleanup(maxAge))
    ensures run == Burst(p.capacity, 0.0) + ([clean] + Burst(p.capacity, at))
    ensures Run(p, map[], run) == AllTrue(p.capacity) + AllTrue(p.capacity)
  {
    var n := p.capacity;
    at := if maxAge < 0.0 then 0.0
          else if p.rate == 0.0 then maxAge + 1.0 else (maxAge + n as real / p.rate) / 2.0;
    LateButNotFull(p, maxAge, at);
    clean := Event(at, Cleanup(maxAge));
    run := Burst(n, 0.0) + ([clean] + Burst(n, at));
    var spent := map["k" := Bucket(0.0, 0.0)];
    BurstFromFull(p, map[], n, 0.0, [clean] + Burst(n, at), n);
    assert map[]["k" := Bucket(0.0, 0.0)] == spent;
    assert ([clean] + Burst(n, at))[1..] == Burst(n, at);
    assert Kept(spent, at, maxAge) == map[];
    BurstFromFull(p, map[], n, at, [], n);
    assert Burst(n, at) + [] == Burst(n, at);
    assert Run(p, spent, [clean] + Burst(n, at)) == AllTrue(n);
  }

  /** Such a run is answered differently without the cleanup. */
  lemma EarlyCleanupObservable(p: Limits, maxAge: real) returns (run: seq<Event>)
    requires Sane(p) && !Forgettable(p, maxAge) && p.capacity > 0
    ensures Ordered(0.0, run) && CleansAt(run, maxAge)
    ensures Run(p, map[], run) != Run(p, map[], CallsOnly(run))
  {
    var n := p.capacity;
    var at, clean, both := TwoBursts(p, maxAge);
    run := both;
    BurstsInOrder(p, n, at, clean);
    BurstFromFull(p, map[], n, 0.0, Burst(n, at), n);
    BurstRefused(p, map["k" := Bucket(0.0, 0.0)], n, at);
    assert false in Run(p, map[], CallsOnly(run));
  }

  lemma LateButNotFull(p: Limits, maxAge: real, at: real)
    requires Sane(p) && !Forgettable(p, maxAge) && p.capacity > 0
    requires at == if maxAge < 0.0 then 0.0
                   else if p.rate == 0.0 then maxAge + 1.0 else (maxAge + p.capacity as real / p.rate) / 2.0
    ensures at > maxAge && at >= 0.0 && Gain(p, at) < p.capacity as real
  {
  }

  // ---- the bound per key, for one age of cleanup ----

  /** A run, and the stretch of it from t0 to t1, all cleanups at one age. */
  predicate Stretch(maxAge: real, start: real, before: seq<Event>, t0: real, run: seq<Event>, t1: real) {
    && CleansAt(before, maxAge) && Ordered(start, before) && EndOf(start, before) <= t0
    && CleansAt(run, maxAge) && Ordered(t0, run) && EndOf(t0, run) <= t1
  }

  predicate WithinBound(p: Limits, before: seq<Event>, t0: real, run: seq<Event>, t1: real, key: string) {
    AdmittedOf(p, BucketsAfter(p, map[], before), run, key) as real <= p.capacity as real + Gain(p, t1 - t0)
  }

  /** No stretch of any run that cleans up at this age admits a key more than its
      capacity and the refill of that stretch. */
  ghost predicate BoundKept(p: Limits, maxAge: real) {
    forall start: real, before: seq<Event>, t0: real, run: seq<Event>, t1: real, key: string ::
      Stretch(maxAge, start, before, t0, run, t1) ==> WithinBound(p, before, t0, run, t1, key)
  }

  /** The bound is kept if and only if an entry old enough to be dropped has had time to
      fill up, or no call is ever admitted. */
  lemma KeyWindowBoundIff(p: Limits, maxAge: real)
    requires Sane(p)
    ensures BoundKept(p, maxAge) <==> Forgettable(p, maxAge) || p.capacity == 0
  {
    if Forgettable(p, maxAge) || p.capacity == 0 {
      forall start: real, before: seq<Event>, t0: real, run: seq<Event>, t1: real, key: string |
        Stretch(maxAge, start, before, t0, run, t1)
        ensures WithinBound(p, before, t0, run, t1, key)
      {
        if p.capacity == 0 {
          NoneAdmitted(p, BucketsAfter(p, map[], before), run, key);
          OrderedEnds(t0, run);
          GainAdds(p, t1 - t0, 0.0);
        } else {
          KeyWindowBound(p, start, before, t0, run, t1, key);
        }
      }
    } else {
      var n := p.capacity;
      var at, clean, run := TwoBursts(p, maxAge);
      BurstsInOrder(p, n, at, clean);
      AdmittedAll(p, map[], run);
      AllAdmitted(n, n);
      assert Stretch(maxAge, 0.0, [], 0.0, run, at) && !WithinBound(p, [], 0.0, run, at, "k");
    }
  }

  lemma {:induction false} NoneAdmitted(p: Limits, m: Buckets, run: seq<Event>, key: string)
    requires Sane(p) && p.capacity == 0
    ensures AdmittedOf(p, m, run, key) == 0
    decreases |run|
  {
    if run != [] { NoneAdmitted(p, Step(p, m, run[0]), run[1..], key); }
  }

  lemma {:induction false} OrderedEnds(start: real, run: seq<Event>)
    requires Ordered(start, run)
    ensures start <= EndOf(start, run)
    decreases |run|
  {
    if run != [] {
      OrderedEnds(run[0].at, run[1..]);
      assert EndOf(start, run) == EndOf(run[0].at, run[1..]);
    }
  }

  lemma {:induction false} AdmittedAll(p: Limits, m: Buckets, run: seq<Event>)
    requires forall i :: 0 <= i < |run| && run[i].op.Call? ==> run[i].op.key == "k"
    ensures AdmittedOf(p, m, run, "k") == Admitted(Run(p, m, run))
    decreases |run|
  {
    if run != [] {
      var later := Run(p, Step(p, m, run[0]), run[1..]);
      AdmittedAll(p, Step(p, m, run[0]), run[1..]);
      if run[0].op.Call? { assert Run(p, m, run)[1..] == later; } else { assert Run(p, m, run) == later; }
    }
  }

  lemma {:induction false} AllAdmitted(n: nat, k: nat)
    ensures Admitted(AllTrue(n) + AllTrue(k)) == n + k
    decreases n + k
  {
    if n > 0 {
      AllAdmitted(n - 1, k);
      assert (AllTrue(n) + AllTrue(k))[1..] == AllTrue(n - 1) + AllTrue(k);
    } else if k > 0 {
      AllAdmitted(0, k - 1);
      assert (AllTrue(0) + AllTrue(k))[1..] == AllTrue(0) + AllTrue(k - 1);
    }
  }

  lemma {:induction false} CallsOnlyBurst(n: nat, at: real, rest: seq<Event>)
    ensures CallsOnly(Burst(n, at) + rest) == Burst(n, at) + CallsOnly(rest)
    decreases n
  {
    if n == 0 {
      assert Burst(n, at) + rest == rest;
    } else {
      assert (Burst(n, at) + rest)[1..] == Burst(n - 1, at) + rest;
      CallsOnlyBurst(n - 1, at, rest);
      assert Burst(n, at) == [Event(at, Call("k"))] + Burst(n - 1, at);
    }
  }

  lemma {:induction false} BurstOrdered(n: nat, start: real, at: real, rest: seq<Event>)
    requires start <= at && Ordered(at, rest)
    ensures Ordered(start, Burst(n, at) + rest)
    decreases n
  {
    if n == 0 {
      assert Burst(n, at) + rest == rest;
    } else {
      assert (Burst(n, at) + rest)[1..] == Burst(n - 1, at) + rest;
      BurstOrdered(n - 1, at, at, rest);
    }
  }

  lemma BurstsInOrder(p: Limits, n: nat, at: real, clean: Event)
    requires at >= 0.0 && clean.at == at && clean.op.Cleanup?
    ensures Ordered(0.0, Burst(n, 0.0) + ([clean] + Burst(n, at)))
    ensures CallsOnly(Burst(n, 0.0) + ([clean] + Burst(n, at))) == Burst(n, 0.0) + Burst(n, at)
    ensures EndOf(0.0, Burst(n, 0.0) + ([clean] + Burst(n, at))) == at
  {
    assert Burst(n, at) + [] == Burst(n, at);
    BurstOrdered(n, at, at, []);
    CallsOnlyBurst(n, at, []);
    assert ([clean] + Burst(n, at))[1..] == Burst(n, at);
    BurstOrdered(n, 0.0, 0.0, [clean] + Burst(n, at));
    CallsOnlyBurst(n, 0.0, [clean] + Burst(n, at));
  }

  // ---- the three deployed limiters ----

  const DEFAULT_MAX_AGE := 300.0

  function General(perSecond: nat): Limits {
    Limits(perSecond as real, perSecond * 2)
  }

  const AUTH := Limits(5.0, 10)
  const SSO := Limits(10.0 / 60.0, 5)

  /** With the default cleanup age none of the three can be noticed forgetting. */
  lemma DeployedLimitersForgettable(perSecond: nat)
    ensures General(perSecond).rate == perSecond as real && General(perSecond).capacity == 2 * perSecond
    ensures Sane(General(perSecond)) && Forgettable(General(perSecond), DEFAULT_MAX_AGE)
    ensures Sane(AUTH) && Forgettable(AUTH, DEFAULT_MAX_AGE)
    ensures Sane(SSO) && Forgettable(SSO, DEFAULT_MAX_AGE)
  {
  }

  class TokenBucket {
    const limits: Limits
    var buckets: map<string, Bucket>

    constructor (rate: real, capacity: int)
      ensures limits == Limits(rate, capacity) && buckets == map[]
    {
      limits := Limits(rate, capacity);
      buckets := map[];
    }

    method Allow(key: string, now: real) returns (ok: bool)
      modifies this
      ensures ok == Admits(limits, Lookup(old(buckets), key), now)
      ensures buckets == Step(limits, old(buckets), Event(now, Call(key)))
    {
      var tokens := limits.capacity as real;
      if key in buckets {
        var b := buckets[key];
        var elapsed := now - b.last;
        tokens := Min(limits.capacity as real, b.tokens + Gain(limits, elapsed));
      }
      if tokens >= 1.0 {
        buckets := buckets[key := Bucket(tokens - 1.0, now)];
        return true;
      }
      buckets := buckets[key := Bucket(tokens, now)];
      return false;
    }

    method CleanupStale(now: real, maxAge: real)
      modifies this
      ensures buckets == Step(limits, old(buckets), Event(now, Cleanup(maxAge)))
      ensures forall k :: k in buckets <==> k in old(buckets) && !(now - old(buckets)[k].last > maxAge)
      ensures forall k :: k in buckets ==> buckets[k] == old(buckets)[k]
    {
      var stale := set k | k in buckets && now - buckets[k].last > maxAge;
      var todo := stale;
      while todo != {}
        invariant todo <= stale
        invariant forall k :: k in buckets <==> k in old(buckets) && (k in stale ==> k in todo)
        invariant forall k :: k in buckets ==> buckets[k] == old(buckets)[k]
        decreases |todo|
      {
        var k :| k in todo;
        buckets := buckets - {k};
        todo := todo - {k};
      }
    }
  }
}
