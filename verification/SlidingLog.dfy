/** The per-IP sliding log of the cloud telemetry endpoint: pruned lists answer
    as the full history would, and forgetting an IP is harmless exactly when its
    last request has left the window. */
module SlidingLog {

  const MAX_PER_MINUTE := 120
  const MAX_TRACKED := 50_000

  /** The entries later than `w`, in order. */
  function Later(h: seq<real>, w: real): seq<real> {
    if h == [] then []
    else if h[|h| - 1] > w then Later(h[..|h| - 1], w) + [h[|h| - 1]]
    else Later(h[..|h| - 1], w)
  }

  predicate Accepts(log: seq<real>, now: real) {
    |Later(log, now - 60.0)| < MAX_PER_MINUTE
  }

  /** One request: prune, then append unless the window is full. */
  function Checked(log: seq<real>, now: real): seq<real> {
    var pruned := Later(log, now - 60.0);
    if Accepts(log, now) then pruned + [now] else pruned
  }

  // ---- one IP: requests at the given times ----

  predicate InOrder(times: seq<real>) {
    forall i, j :: 0 <= i < j < |times| ==> times[i] <= times[j]
  }

  function Log(log: seq<real>, times: seq<real>): seq<real> {
    if times == [] then log else Checked(Log(log, times[..|times| - 1]), times[|times| - 1])
  }

  function Answers(log: seq<real>, times: seq<real>): (r: seq<bool>)
    ensures |r| == |times|
  {
    if times == [] then []
    else Answers(log, times[..|times| - 1]) + [Accepts(Log(log, times[..|times| - 1]), times[|times| - 1])]
  }

  /** Every request accepted so far; never pruned. */
  function History(times: seq<real>): seq<real> {
    if times == [] then []
    else
      var front, now := times[..|times| - 1], times[|times| - 1];
      if Accepts(Log([], front), now) then History(front) + [now] else History(front)
  }

  lemma {:induction false} LaterSnoc(h: seq<real>, t: real, w: real)
    ensures Later(h + [t], w) == if t > w then Later(h, w) + [t] else Later(h, w)
  {
  }

  lemma {:induction false} LaterTwice(h: seq<real>, w1: real, w2: real)
    requires w1 <= w2
    ensures Later(Later(h, w1), w2) == Later(h, w2)
    ensures |Later(h, w2)| <= |Later(h, w1)| <= |h|
    decreases |h|
  {
    if h != [] {
      LaterTwice(h[..|h| - 1], w1, w2);
      if h[|h| - 1] > w1 { LaterSnoc(Later(h[..|h| - 1], w1), h[|h| - 1], w2); }
    }
  }

  /** One request keeps a log and a history alike in every window from now on. */
  lemma PruneStep(log: seq<real>, h: seq<real>, now: real, w: real)
    requires now - 60.0 <= w && Later(log, w) == Later(h, w)
    ensures Later(Checked(log, now), w) == Later(if Accepts(log, now) then h + [now] else h, w)
  {
    LaterTwice(log, now - 60.0, w);
    LaterSnoc(Later(log, now - 60.0), now, w);
    LaterSnoc(h, now, w);
  }

  /** The pruned log and the full history show the same window from now on. */
  lemma {:induction false} PruningUnobservable(times: seq<real>, w: real)
    requires InOrder(times) && (times != [] ==> w >= times[|times| - 1] - 60.0)
    ensures Later(Log([], times), w) == Later(History(times), w)
    decreases |times|
  {
    if times != [] {
      var front, now := times[..|times| - 1], times[|times| - 1];
      PruningUnobservable(front, w);
      PruneStep(Log([], front), History(front), now, w);
    }
  }

  /** A request is refused if and only if 120 accepted requests of the whole
      history lie in the last minute. */
  lemma RefusedIffHistoryFull(times: seq<real>, now: real)
    requires InOrder(times) && (times != [] ==> times[|times| - 1] <= now)
    ensures !Accepts(Log([], times), now) <==> |Later(History(times), now - 60.0)| >= MAX_PER_MINUTE
  {
    PruningUnobservable(times, now - 60.0);
  }

  /** The accepted requests in the half-open interval (a, b]. */
  function Between(h: seq<real>, a: real, b: real): seq<real> {
    if h == [] then []
    else if a < h[|h| - 1] <= b then Between(h[..|h| - 1], a, b) + [h[|h| - 1]]
    else Between(h[..|h| - 1], a, b)
  }

  /** Which entries of a log lie in (a, b]. */
  function Inside(h: seq<real>, a: real, b: real): set<nat> {
    set i: nat | i < |h| && a < h[i] <= b
  }

  lemma {:induction false} BetweenCounts(h: seq<real>, a: real, b: real)
    ensures |Between(h, a, b)| == |Inside(h, a, b)|
    decreases |h|
  {
    if h != [] {
      var n := |h| - 1;
      BetweenCounts(h[..n], a, b);
      assert Inside(h, a, b) == Inside(h[..n], a, b) + if a < h[n] <= b then {n} else {};
    }
  }

  lemma {:induction false} BetweenBounded(h: seq<real>, a: real, b: real)
    ensures |Between(h, a, b)| <= |Later(h, a)|
    decreases |h|
  {
    if h != [] { BetweenBounded(h[..|h| - 1], a, b); }
  }

  /** What a log lets through fits every half-open minute, if the log shows the window. */
  lemma OneMoreFits(log: seq<real>, h: seq<real>, now: real, a: real)
    requires Later(log, now - 60.0) == Later(h, now - 60.0) && Accepts(log, now)
    requires |Between(h, a, a + 60.0)| <= MAX_PER_MINUTE
    ensures |Between(h + [now], a, a + 60.0)| <= MAX_PER_MINUTE
  {
    assert (h + [now])[..|h|] == h;
    if a < now <= a + 60.0 {
      LaterTwice(h, now - 60.0, a);
      BetweenBounded(h, a, a + 60.0);
    }
  }

  /** No half-open minute of any run, wherever it starts, admits more than 120. */
  lemma {:induction false} MinuteBound(times: seq<real>, a: real)
    requires InOrder(times)
    ensures |Between(History(times), a, a + 60.0)| <= MAX_PER_MINUTE
    ensures |Inside(History(times), a, a + 60.0)| <= 120
    decreases |times|
  {
    BetweenCounts(History(times), a, a + 60.0);
    if times != [] {
      var front, now := times[..|times| - 1], times[|times| - 1];
      MinuteBound(front, a);
      PruningUnobservable(front, now - 60.0);
      if Accepts(Log([], front), now) { OneMoreFits(Log([], front), History(front), now, a); }
    }
  }

  predicate Sorted(log: seq<real>) {
    InOrder(log)
  }

  lemma {:induction false} LaterSorted(h: seq<real>, w: real)
    requires Sorted(h)
    ensures Sorted(Later(h, w))
    ensures forall i :: 0 <= i < |Later(h, w)| ==> w < Later(h, w)[i] <= h[|h| - 1]
    decreases |h|
  {
    if h != [] {
      var front := h[..|h| - 1];
      assert Sorted(front);
      LaterSorted(front, w);
      if front != [] { assert front[|front| - 1] <= h[|h| - 1]; }
    }
  }

  // ---- forgetting an IP ----

  lemma {:induction false} LaterNone(h: seq<real>, w: real)
    requires forall i :: 0 <= i < |h| ==> h[i] <= w
    ensures Later(h, w) == []
    decreases |h|
  {
    if h != [] { LaterNone(h[..|h| - 1], w); }
  }

  lemma {:induction false} StaleLogAnswersAsNew(log: seq<real>, now: real, times: seq<real>)
    requires Sorted(log) && log != [] && log[|log| - 1] <= now - 60.0
    requires InOrder(times) && (times != [] ==> times[0] >= now)
    ensures Answers(log, times) == Answers([], times) && (times != [] ==> Log(log, times) == Log([], times))
    decreases |times|
  {
    if times != [] {
      var front, t := times[..|times| - 1], times[|times| - 1];
      StaleLogAnswersAsNew(log, now, front);
      if front == [] { LaterNone(log, t - 60.0); }
    }
  }

  function Repeat(n: nat, t: real): seq<real> {
    seq(n, _ => t)
  }

  lemma CheckedRecent(log: seq<real>, now: real)
    requires forall i :: 0 <= i < |log| ==> now - 60.0 < log[i]
    ensures Accepts(log, now) <==> |log| < MAX_PER_MINUTE
    ensures Checked(log, now) == if |log| < MAX_PER_MINUTE then log + [now] else log
  {
    LaterAll(log, now - 60.0);
  }

  lemma RunSnoc(log: seq<real>, times: seq<real>, now: real)
    ensures Log(log, times + [now]) == Checked(Log(log, times), now)
    ensures Answers(log, times + [now]) == Answers(log, times) + [Accepts(Log(log, times), now)]
  {
    assert (times + [now])[..|times|] == times;
  }

  function AllTrue(n: nat): seq<bool> {
    seq(n, _ => true)
  }

  lemma {:induction false} BurstOn(log: seq<real>, now: real, n: nat)
    requires forall i :: 0 <= i < |log| ==> now - 60.0 < log[i]
    requires |log| + n <= MAX_PER_MINUTE
    ensures Log(log, Repeat(n, now)) == log + Repeat(n, now)
    ensures Answers(log, Repeat(n, now)) == AllTrue(n)
    decreases n
  {
    if n == 0 {
      assert log + Repeat(0, now) == log;
    } else {
      assert Repeat(n, now) == Repeat(n - 1, now) + [now] && AllTrue(n) == AllTrue(n - 1) + [true];
      BurstOn(log, now, n - 1);
      RunSnoc(log, Repeat(n - 1, now), now);
      CheckedRecent(log + Repeat(n - 1, now), now);
    }
  }

  lemma {:induction false} LaterAll(h: seq<real>, w: real)
    requires forall i :: 0 <= i < |h| ==> h[i] > w
    ensures Later(h, w) == h
    decreases |h|
  {
    if h != [] {
      LaterAll(h[..|h| - 1], w);
      assert h == h[..|h| - 1] + [h[|h| - 1]];
    }
  }

  lemma {:induction false} FullLogRefuses(log: seq<real>, now: real, n: nat)
    requires forall i :: 0 <= i < |log| ==> now - 60.0 < log[i]
    requires |log| <= MAX_PER_MINUTE < |log| + n
    ensures false in Answers(log, Repeat(n, now))
    decreases n
  {
    assert Repeat(n, now)[..n - 1] == Repeat(n - 1, now);
    if |log| + n - 1 == MAX_PER_MINUTE {
      BurstOn(log, now, n - 1);
      CheckedRecent(log + Repeat(n - 1, now), now);
      assert Answers(log, Repeat(n, now))[n - 1] == false;
    } else {
      FullLogRefuses(log, now, n - 1);
      var k :| 0 <= k < n - 1 && Answers(log, Repeat(n - 1, now))[k] == false;
      assert Answers(log, Repeat(n, now))[k] == false;
    }
  }

  predicate Future(now: real, times: seq<real>) {
    InOrder(times) && (times != [] ==> times[0] >= now)
  }

  /** Evicting an IP at time `now` changes none of its later answers if and only
      if its last accepted request is at least a minute old. */
  lemma EvictionUnobservableIff(log: seq<real>, now: real)
    requires Sorted(log) && log != [] && |log| <= MAX_PER_MINUTE && log[|log| - 1] <= now
    ensures (forall times :: Future(now, times) ==> Answers(log, times) == Answers([], times))
            <==> log[|log| - 1] <= now - 60.0
  {
    if log[|log| - 1] <= now - 60.0 {
      forall times | Future(now, times) ensures Answers(log, times) == Answers([], times) {
        StaleLogAnswersAsNew(log, now, times);
      }
    } else {
      var times := Repeat(MAX_PER_MINUTE, now);
      assert Future(now, times);
      BurstOn([], now, MAX_PER_MINUTE);
      RecentLogRefuses(log, now);
      assert Answers(log, times) != Answers([], times);
    }
  }

  /** Entries that have left the window can be dropped first. */
  lemma {:induction false} PrunedFirst(log: seq<real>, now: real, n: nat)
    requires n > 0
    ensures Log(log, Repeat(n, now)) == Log(Later(log, now - 60.0), Repeat(n, now))
    ensures Answers(log, Repeat(n, now)) == Answers(Later(log, now - 60.0), Repeat(n, now))
    decreases n
  {
    assert Repeat(n, now)[..n - 1] == Repeat(n - 1, now);
    if n == 1 {
      LaterTwice(log, now - 60.0, now - 60.0);
    } else {
      PrunedFirst(log, now, n - 1);
    }
  }

  lemma RecentLogRefuses(log: seq<real>, now: real)
    requires Sorted(log) && log != [] && |log| <= MAX_PER_MINUTE && now - 60.0 < log[|log| - 1] <= now
    ensures false in Answers(log, Repeat(MAX_PER_MINUTE, now))
  {
    var recent := Later(log, now - 60.0);
    LaterTwice(log, now - 60.0, now - 60.0);
    LaterSorted(log, now - 60.0);
    PrunedFirst(log, now, MAX_PER_MINUTE);
    FullLogRefuses(recent, now, MAX_PER_MINUTE);
  }

  // ---- the bounded table ----

  /** The sort key of the eviction: the latest entry, 0 for an empty list. */
  function Newest(log: seq<real>): real {
    if log != [] then log[|log| - 1] else 0.0
  }

  /** An IP whose newest entry is no newer than anyone's. */
  predicate Oldest(table: map<string, seq<real>>, ip: string) {
    ip in table && forall k :: k in table ==> Newest(table[ip]) <= Newest(table[k])
  }

  /** The IP whose last request is longest ago: logs in the table are never empty. */
  lemma OldestIs(table: map<string, seq<real>>, ip: string)
    requires ip in table && forall k :: k in table ==> table[k] != []
    ensures Oldest(table, ip) <==> forall k :: k in table ==> table[ip][|table[ip]| - 1] <= table[k][|table[k]| - 1]
  {
  }

  predicate StoredLog(log: seq<real>, now: real) {
    log != [] && Sorted(log) && |log| <= MAX_PER_MINUTE && log[|log| - 1] <= now
  }

  function LogOf(table: map<string, seq<real>>, ip: string): seq<real> {
    if ip in table then table[ip] else []
  }

  // ---- many IPs in one table ----

  /** One request, with the IPs evicted to make room for it. */
  datatype Hit = Hit(ip: string, now: real, victims: set<string>)

  function Table(hits: seq<Hit>): map<string, seq<real>> {
    if hits == [] then map[]
    else
      var before, h := Table(hits[..|hits| - 1]), hits[|hits| - 1];
      (before - h.victims)[h.ip := Checked(LogOf(before, h.ip), h.now)]
  }

  function TimesOf(hits: seq<Hit>, ip: string): seq<real> {
    if hits == [] then []
    else
      var before, h := TimesOf(hits[..|hits| - 1], ip), hits[|hits| - 1];
      if h.ip == ip then before + [h.now] else before
  }

  /** An IP that is never evicted is limited by its own requests alone. */
  lemma {:induction false} IndependentUnlessEvicted(hits: seq<Hit>, ip: string)
    requires forall i :: 0 <= i < |hits| ==> ip !in hits[i].victims
    ensures LogOf(Table(hits), ip) == Log([], TimesOf(hits, ip))
    decreases |hits|
  {
    if hits != [] {
      var front, h := hits[..|hits| - 1], hits[|hits| - 1];
      IndependentUnlessEvicted(front, ip);
      assert ip !in h.victims;
      if h.ip == ip {
        assert (TimesOf(front, ip) + [h.now])[..|TimesOf(front, ip)|] == TimesOf(front, ip);
      }
    }
  }

  /** The requests of an IP that the table's logs let through; none is ever forgotten. */
  function AcceptedOf(hits: seq<Hit>, ip: string): seq<real> {
    if hits == [] then []
    else
      var front, h := hits[..|hits| - 1], hits[|hits| - 1];
      AcceptedOf(front, ip) + if h.ip == ip && Accepts(LogOf(Table(front), ip), h.now) then [h.now] else []
  }

  predicate Ordered(hits: seq<Hit>) {
    forall i, j :: 0 <= i < j < |hits| ==> hits[i].now <= hits[j].now
  }

  /** Whenever the IP was evicted its last accepted request was a minute old, which
      `EvictionUnobservableIff` shows to be the harmless case. */
  predicate EvictedIdle(hits: seq<Hit>, ip: string) {
    hits == [] ||
    (var front, h := hits[..|hits| - 1], hits[|hits| - 1];
     EvictedIdle(front, ip) && (ip in h.victims ==> Later(LogOf(Table(front), ip), h.now - 60.0) == []))
  }

  lemma LogAfter(hits: seq<Hit>, ip: string)
    requires hits != []
    ensures var front, h := hits[..|hits| - 1], hits[|hits| - 1];
            var log := LogOf(Table(front), ip);
            LogOf(Table(hits), ip) == if h.ip == ip then Checked(log, h.now) else if ip in h.victims then [] else log
  {
  }

  /** The IP's log in the table shows its own accepted requests, from now on. */
  lemma {:induction false} ShowsOwnHistory(hits: seq<Hit>, ip: string, w: real)
    requires Ordered(hits) && EvictedIdle(hits, ip) && (hits != [] ==> w >= hits[|hits| - 1].now - 60.0)
    ensures Later(LogOf(Table(hits), ip), w) == Later(AcceptedOf(hits, ip), w)
    decreases |hits|
  {
    if hits != [] {
      var front, h := hits[..|hits| - 1], hits[|hits| - 1];
      var log, accepted := LogOf(Table(front), ip), AcceptedOf(front, ip);
      LogAfter(hits, ip);
      ShowsOwnHistory(front, ip, w);
      if h.ip == ip {
        PruneStep(log, accepted, h.now, w);
        assert accepted + [] == accepted;
      } else {
        LaterTwice(log, h.now - 60.0, w);
        assert AcceptedOf(hits, ip) == accepted + [] == accepted;
      }
    }
  }

  /** End to end: in any run over the table, the next request of an IP that was only
      evicted when idle is refused if and only if 120 of its accepted requests, none of
      them forgotten, lie in the last minute. */
  lemma RefusedIffOwnHistoryFull(hits: seq<Hit>, ip: string, now: real)
    requires Ordered(hits) && EvictedIdle(hits, ip) && (hits != [] ==> hits[|hits| - 1].now <= now)
    ensures !Accepts(LogOf(Table(hits), ip), now)
            <==> |Later(AcceptedOf(hits, ip), now - 60.0)| >= MAX_PER_MINUTE
  {
    ShowsOwnHistory(hits, ip, now - 60.0);
  }

  /** And no half-open minute of the run admits more than 120 of its requests. */
  lemma {:induction false} IpMinuteBound(hits: seq<Hit>, ip: string, a: real)
    requires Ordered(hits) && EvictedIdle(hits, ip)
    ensures |Between(AcceptedOf(hits, ip), a, a + 60.0)| <= MAX_PER_MINUTE
    ensures |Inside(AcceptedOf(hits, ip), a, a + 60.0)| <= 120
    decreases |hits|
  {
    BetweenCounts(AcceptedOf(hits, ip), a, a + 60.0);
    if hits != [] {
      var front, h := hits[..|hits| - 1], hits[|hits| - 1];
      var log, accepted := LogOf(Table(front), ip), AcceptedOf(front, ip);
      IpMinuteBound(front, ip, a);
      if h.ip == ip && Accepts(log, h.now) {
        ShowsOwnHistory(front, ip, h.now - 60.0);
        OneMoreFits(log, accepted, h.now, a);
      } else {
        assert AcceptedOf(hits, ip) == accepted + [] == accepted;
      }
    }
  }

  class IpLimiter {
    var table: map<string, seq<real>>
    ghost var last: real  // time of the latest request

    constructor ()
      ensures Valid() && table == map[]
    {
      table := map[];
      last := 0.0;
    }

    /** Bounded, and every stored log is non-empty, sorted and no longer than the limit. */
    ghost predicate Valid()
      reads this
    {
      |table| <= MAX_TRACKED && forall ip :: ip in table ==> StoredLog(table[ip], last)
    }

    /** `_check_ip_rate_limit`: a new IP in a full table first evicts one idle for longest. */
    method Check(ip: string, now: real) returns (ok: bool, victim: set<string>)
      requires Valid() && last <= now
      modifies this
      ensures Valid() && last == now
      ensures ok == Accepts(LogOf(old(table), ip), now)
      ensures if ip !in old(table) && |old(table)| == MAX_TRACKED
              then exists v :: victim == {v} && Oldest(old(table), v) else victim == {}
      ensures table == (old(table) - victim)[ip := Checked(LogOf(old(table), ip), now)]
    {
      victim := {};
      if ip !in table && |table| >= MAX_TRACKED {
        var v := EvictOldest();
        victim := {v};
      }
      ok := Record(ip, now);
    }

    method Record(ip: string, now: real) returns (ok: bool)
      requires Valid() && last <= now && (ip in table || |table| < MAX_TRACKED)
      modifies this
      ensures Valid() && last == now
      ensures ok == Accepts(LogOf(old(table), ip), now)
      ensures table == old(table)[ip := Checked(LogOf(old(table), ip), now)]
    {
      var log := if ip in table then table[ip] else [];
      var pruned := Later(log, now - 60.0);
      CheckedStored(log, now);
      ok := |pruned| < MAX_PER_MINUTE;
      table := table[ip := if ok then pruned + [now] else pruned];
      last := now;
    }

    method EvictOldest() returns (v: string)
      requires Valid() && table != map[]
      modifies this`table
      ensures Valid() && Oldest(old(table), v) && table == old(table) - {v} && |table| == |old(table)| - 1
    {
      v :| v in table;
      var todo := table.Keys - {v};
      while todo != {}
        invariant todo <= table.Keys && v in table
        invariant forall k :: k in table && k !in todo ==> Newest(table[v]) <= Newest(table[k])
        decreases |todo|
      {
        var k :| k in todo;
        if Newest(table[k]) < Newest(table[v]) {
          v := k;
        }
        todo := todo - {k};
      }
      assert (table - {v}).Keys == table.Keys - {v};
      table := table - {v};
    }
  }

  lemma CheckedStored(log: seq<real>, now: real)
    requires Sorted(log) && |log| <= MAX_PER_MINUTE && (log != [] ==> log[|log| - 1] <= now)
    ensures StoredLog(Checked(log, now), now)
  {
    LaterSorted(log, now - 60.0);
    LaterTwice(log, now - 60.0, now - 60.0);
  }
}
