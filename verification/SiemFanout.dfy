/** The SIEM fan-out: alerts buffered per tenant, one delivery with its retries
    against a rate limiter that is made anew for it, and the integration cache. */
module SiemFanout {
  import opened Options
  import opened OrderedDict
  import W = FixedWindow

  const CACHE_TTL := 60.0

  // ---- buffering by tenant ----

  /** A Kafka message: an alert under its topic's tenant, or what JSON cannot read. */
  datatype Message = Alert(tenant: string, id: nat) | Malformed

  function Add(d: Dict<seq<Message>>, m: Message): Dict<seq<Message>> {
    if m.Malformed? || m.tenant == "" then d
    else Put(d, m.tenant, (if m.tenant in d.at then d.at[m.tenant] else []) + [m])
  }

  function Buffered(ms: seq<Message>): Dict<seq<Message>> {
    if ms == [] then Empty() else Add(Buffered(ms[..|ms| - 1]), ms[|ms| - 1])
  }

  function AlertsOf(ms: seq<Message>, tenant: string): seq<Message> {
    if ms == [] then []
    else
      var front, m := AlertsOf(ms[..|ms| - 1], tenant), ms[|ms| - 1];
      if m.Alert? && m.tenant == tenant then front + [m] else front
  }

  lemma {:induction false} AlertsAre(ms: seq<Message>, tenant: string, m: Message)
    ensures multiset(AlertsOf(ms, tenant))[m] == if m.Alert? && m.tenant == tenant then multiset(ms)[m] else 0
  {
    if ms != [] {
      AlertsAre(ms[..|ms| - 1], tenant, m);
      assert ms == ms[..|ms| - 1] + [ms[|ms| - 1]];
    }
  }

  /** Each tenant's list is that tenant's alerts, all of them, in order of arrival. */
  lemma {:induction false} BufferPartitions(ms: seq<Message>, tenant: string)
    requires tenant != ""
    ensures Valid(Buffered(ms))
    ensures tenant in Buffered(ms).at <==> AlertsOf(ms, tenant) != []
    ensures tenant in Buffered(ms).at ==> Buffered(ms).at[tenant] == AlertsOf(ms, tenant)
  {
    if ms != [] {
      var front, m := ms[..|ms| - 1], ms[|ms| - 1];
      BufferPartitions(front, tenant);
      if m.Alert? && m.tenant != "" {
        PutValid(Buffered(front), m.tenant, Add(Buffered(front), m).at[m.tenant]);
      }
    }
  }

  // ---- one delivery ----

  /** What `send_batch` does when its rate limit check passes. */
  datatype Reply = Accepted(sent: nat) | Retryable | Fatal | OtherError

  /** `at(k)` is the time of the k-th attempt, `reply(k)` the platform's answer, `limit`
      the limit in force; `made`, `closes`: making and closing the integration do not
      raise. */
  datatype Platform = Platform(
    made: bool, limit: int, created: real, at: nat -> real, reply: nat -> Reply, closes: bool)

  /** Aborted: by an error other than the integration's own. */
  datatype End = Sent(n: nat) | Dropped | Aborted

  datatype Attempting = Attempting(window: W.Window, calls: nat, end: Option<End>)

  datatype Tally = Tally(delivered: int, errors: int)

  function EndOf(r: Reply, last: bool): Option<End> {
    match r
    case Accepted(n) => Some(Sent(n))
    case Fatal => Some(Dropped)
    case OtherError => Some(Aborted)
    case Retryable => if last then Some(Dropped) else None
  }

  /** The k-th attempt: the limiter's refusal is an error that is not retried. */
  function Attempt(s: Attempting, p: Platform, retries: int, count: nat, k: nat): Attempting {
    if s.end.Some? then s
    else
      var window := W.Checked(s.window, p.limit, count, p.at(k));
      if W.Admits(s.window, p.limit, count, p.at(k))
      then Attempting(window, s.calls + 1, EndOf(p.reply(k), k == retries))
      else Attempting(window, s.calls, Some(Dropped))
  }

  function Attempts(p: Platform, retries: int, count: nat, n: nat): Attempting {
    if n == 0 then Attempting(W.Window(p.created, 0), 0, None)
    else Attempt(Attempts(p, retries, count, n - 1), p, retries, count, n)
  }

  function Tries(retries: int): nat {
    if retries < 0 then 0 else retries
  }

  function Counted(t: Tally, end: Option<End>, count: nat): Tally {
    match end
    case None => t
    case Some(Sent(n)) => t.(delivered := t.delivered + n)
    case Some(_) => t.(errors := t.errors + count)
  }

  /** All attempts, then `close`; an abort skips it, and its failure is caught too. */
  function Deliver(p: Platform, retries: int, count: nat, t: Tally): Tally {
    var end := Attempts(p, retries, count, Tries(retries)).end;
    var counted := Counted(t, end, count);
    if !p.made then t.(errors := t.errors + count)
    else if end == Some(Aborted) || p.closes then counted else counted.(errors := counted.errors + count)
  }

  lemma {:induction false} AttemptsEnd(p: Platform, retries: int, count: nat, n: nat)
    requires n <= Tries(retries)
    ensures Attempts(p, retries, count, n).end.None? ==> n == 0 || n < retries
    ensures Attempts(p, retries, count, n).calls <= n
  {
    if n > 0 { AttemptsEnd(p, retries, count, n - 1); }
  }

  // ---- counting a batch once ----

  /** The first n attempts as calls of the limiter. */
  function Tried(p: Platform, count: nat, n: nat): seq<W.Call> {
    if n == 0 then [] else Tried(p, count, n - 1) + [W.Call(p.at(n), count)]
  }

  /** The limiter refuses the k-th attempt, all earlier ones having been made. */
  predicate Refused(p: Platform, count: nat, k: nat)
    requires k > 0
  {
    !W.Admits(W.After(p.created, p.limit, Tried(p, count, k - 1)), p.limit, count, p.at(k))
  }

  /** The k-th attempt leaves nothing but to try again. */
  predicate Passed(p: Platform, count: nat, k: nat)
    requires k > 0
  {
    !Refused(p, count, k) && p.reply(k).Retryable?
  }

  /** The k-th attempt is the last: the first that does not pass, or the last allowed. */
  predicate Decides(p: Platform, retries: int, count: nat, k: nat) {
    && 1 <= k <= retries
    && (forall j :: 1 <= j < k ==> Passed(p, count, j))
    && (k == retries || !Passed(p, count, k))
  }

  function EndAt(p: Platform, retries: int, count: nat, k: nat): Option<End>
    requires k > 0
  {
    if Refused(p, count, k) then Some(Dropped) else EndOf(p.reply(k), k == retries)
  }

  lemma AfterTried(p: Platform, count: nat, n: nat)
    requires n > 0
    ensures W.After(p.created, p.limit, Tried(p, count, n))
            == W.Checked(W.After(p.created, p.limit, Tried(p, count, n - 1)), p.limit, count, p.at(n))
  {
    var calls := Tried(p, count, n);
    assert calls[..|calls| - 1] == Tried(p, count, n - 1);
  }

  lemma NextDecided(p: Platform, retries: int, count: nat, n: nat)
    requires 1 <= n <= retries && Attempts(p, retries, count, n - 1).end.None?
    requires Attempts(p, retries, count, n - 1).window == W.After(p.created, p.limit, Tried(p, count, n - 1))
    requires forall j :: 1 <= j < n ==> Passed(p, count, j)
    ensures var s := Attempts(p, retries, count, n);
            if s.end.None? then
              Passed(p, count, n) && n != retries && s.window == W.After(p.created, p.limit, Tried(p, count, n))
            else Decides(p, retries, count, n) && s.end == EndAt(p, retries, count, n)
  {
    AfterTried(p, count, n);
  }

  lemma {:induction false} AttemptsDecided(p: Platform, retries: int, count: nat, n: nat)
    requires n <= Tries(retries)
    ensures var s := Attempts(p, retries, count, n);
            && (s.end.None? ==>
                  && s.window == W.After(p.created, p.limit, Tried(p, count, n))
                  && forall j :: 1 <= j <= n ==> Passed(p, count, j) && j != retries)
            && (s.end.Some? ==>
                  exists k: nat :: k <= n && Decides(p, retries, count, k) && s.end == EndAt(p, retries, count, k))
  {
    if n > 0 {
      AttemptsDecided(p, retries, count, n - 1);
      var before, s := Attempts(p, retries, count, n - 1), Attempts(p, retries, count, n);
      if before.end.Some? {
        assert s == before;
      } else {
        NextDecided(p, retries, count, n);
      }
    }
  }

  /** One attempt decides, the first that does not pass, and its answer is the end. */
  lemma EndIsDecided(p: Platform, retries: int, count: nat, k: nat)
    requires Decides(p, retries, count, k)
    ensures Attempts(p, retries, count, Tries(retries)).end == EndAt(p, retries, count, k)
  {
    AttemptsEnd(p, retries, count, retries);
    AttemptsDecided(p, retries, count, retries);
    var end := Attempts(p, retries, count, retries).end;
    var j: nat :| Decides(p, retries, count, j) && end == EndAt(p, retries, count, j);
    DecidesOnce(p, retries, count, j, k);
  }

  lemma DecidesOnce(p: Platform, retries: int, count: nat, j: nat, k: nat)
    requires Decides(p, retries, count, j) && Decides(p, retries, count, k)
    ensures j == k
  {
  }

  lemma {:induction false} SomeDecides(p: Platform, retries: int, count: nat)
    requires retries >= 1
    ensures exists k: nat :: Decides(p, retries, count, k)
  {
    AttemptsEnd(p, retries, count, retries);
    AttemptsDecided(p, retries, count, retries);
  }

  /** The batch enters the totals once: with what the platform took of it at the
      deciding attempt, or with its size as errors. */
  ghost predicate CountedOnce(p: Platform, retries: int, count: nat, before: Tally, after: Tally) {
    || after == before.(errors := before.errors + count)
    || (exists k: nat :: Decides(p, retries, count, k) && !Refused(p, count, k) && p.reply(k).Accepted?
                         && after == before.(delivered := before.delivered + p.reply(k).sent))
  }

  /** Closing does not matter after this attempt: the platform raised something else,
      so it is skipped, or the platform took nothing, so its errors are the only ones. */
  predicate CloseIrrelevant(p: Platform, count: nat, k: nat)
    requires k > 0
  {
    !Refused(p, count, k) && (p.reply(k).OtherError? || p.reply(k) == Accepted(0))
  }

  /** A batch is counted exactly once if and only if the integration cannot be made; or
      no attempt is allowed and closing fails; or some are, and closing works or does
      not matter after the attempt that decides. */
  lemma CountedOnceIff(p: Platform, retries: int, count: nat, t: Tally)
    requires count > 0
    ensures CountedOnce(p, retries, count, t, Deliver(p, retries, count, t))
            <==> || !p.made
                 || (retries < 1 && !p.closes)
                 || (retries >= 1
                     && (p.closes || exists k: nat :: Decides(p, retries, count, k) && CloseIrrelevant(p, count, k)))
  {
    if p.made {
      if retries < 1 {
        assert Attempts(p, retries, count, Tries(retries)).end == None;
      } else {
        SomeDecides(p, retries, count);
        var k: nat :| Decides(p, retries, count, k);
        EndIsDecided(p, retries, count, k);
        forall j: nat | Decides(p, retries, count, j) ensures j == k { DecidesOnce(p, retries, count, j, k); }
        DecidedCountedOnce(p, retries, count, t, k);
      }
    }
  }

  lemma DecidedCountedOnce(p: Platform, retries: int, count: nat, t: Tally, k: nat)
    requires count > 0 && p.made && Decides(p, retries, count, k)
    requires Attempts(p, retries, count, Tries(retries)).end == EndAt(p, retries, count, k)
    requires forall j: nat :: Decides(p, retries, count, j) ==> j == k
    ensures CountedOnce(p, retries, count, t, Deliver(p, retries, count, t))
            <==> p.closes || CloseIrrelevant(p, count, k)
  {
    var after := Deliver(p, retries, count, t);
    var accepted := !Refused(p, count, k) && p.reply(k).Accepted?;
    assert CountedOnce(p, retries, count, t, after) <==>
           || after == t.(errors := t.errors + count)
           || (accepted && after == t.(delivered := t.delivered + p.reply(k).sent));
  }

  // ---- retries against the limiter ----

  /** The start of the window the k-th attempt falls into: the times alone decide. */
  function Opened(p: Platform, k: nat): real {
    if k == 0 then p.created
    else if p.at(k) - Opened(p, k - 1) >= 60.0 then p.at(k) else Opened(p, k - 1)
  }

  /** How many attempts up to the k-th, itself included, fall into its window. */
  function InWindow(p: Platform, k: nat): nat {
    if k == 0 then 0
    else if p.at(k) - Opened(p, k - 1) >= 60.0 then 1 else InWindow(p, k - 1) + 1
  }

  function Times(k: nat, count: nat): nat {
    k * count
  }

  lemma OneMore(k: nat, count: nat)
    ensures Times(k + 1, count) == Times(k, count) + count
  {
  }

  lemma TimesGrows(a: nat, b: nat, count: nat)
    ensures a <= b ==> Times(a, count) <= Times(b, count)
  {
    if a <= b { assert b * count == a * count + (b - a) * count; }
  }

  /** Every attempt of one delivery, failed or not, uses up the batch's size again in
      the window it falls into; one that the limiter refuses uses up nothing. */
  lemma {:induction false} AttemptsUseUpLimit(p: Platform, retries: int, count: nat, n: nat)
    ensures var s := Attempts(p, retries, count, n);
            && (s.end.None? ==> s.calls == n)
            && s.window.count <= W.Cap(p.limit)
            && (|| s.window == W.Window(Opened(p, s.calls), Times(InWindow(p, s.calls), count))
                || (s.end == Some(Dropped)
                    && s.window == W.Window(Opened(p, s.calls + 1), Times(InWindow(p, s.calls + 1) - 1, count))))
            && (s.end.None? ==> s.window == W.Window(Opened(p, n), Times(InWindow(p, n), count)))
  {
    if n > 0 {
      AttemptsUseUpLimit(p, retries, count, n - 1);
      OneMore(InWindow(p, n - 1), count);
      OneMore(0, count);
    }
  }

  ghost predicate AlwaysRetryable(p: Platform) {
    forall k: nat :: p.reply(k).Retryable?
  }

  /** The first n attempts fit the limit, the attempts of each window together. */
  predicate WindowsFit(p: Platform, count: nat, n: nat) {
    forall k: nat :: 1 <= k <= n ==> Times(InWindow(p, k), count) <= p.limit
  }

  lemma FitsNext(p: Platform, retries: int, count: nat, n: nat)
    requires n > 0
    ensures WindowsFit(p, count, n) <==> WindowsFit(p, count, n - 1) && Times(InWindow(p, n), count) <= p.limit
    ensures var before := Attempts(p, retries, count, n - 1);
            before.end.None? ==>
              && before.calls == n - 1
              && (W.Admits(before.window, p.limit, count, p.at(n)) <==> Times(InWindow(p, n), count) <= p.limit)
  {
    AttemptsUseUpLimit(p, retries, count, n - 1);
    OneMore(InWindow(p, n - 1), count);
    OneMore(0, count);
  }

  /** Against a platform that keeps failing, a delivery makes all its retries if and
      only if those of each window fit the limit together; otherwise its own limiter
      ends it at the first attempt that does not. */
  lemma {:induction false} RetriesCutByLimit(p: Platform, retries: int, count: nat, n: nat)
    requires AlwaysRetryable(p) && n <= Tries(retries)
    ensures var s := Attempts(p, retries, count, n);
            && (s.calls == n <==> WindowsFit(p, count, n))
            && (s.calls == n && (n == 0 || n < retries) ==> s.end.None?)
            && (s.calls < n ==> s.end == Some(Dropped) && WindowsFit(p, count, s.calls)
                                && Times(InWindow(p, s.calls + 1), count) > p.limit)
  {
    if n > 0 {
      RetriesCutByLimit(p, retries, count, n - 1);
      AttemptsEnd(p, retries, count, n - 1);
      FitsNext(p, retries, count, n);
    }
  }

  // ---- deliveries against each other ----

  /** Consumers deliver independently of each other, each with a limiter of its own. */
  datatype Delivery = Delivery(p: Platform, count: nat)

  /** The pause after the k-th attempt: 2^k seconds, at most 30. */
  function Pause(k: nat): real {
    if k == 0 then 1.0 else if 2.0 * Pause(k - 1) > 30.0 then 30.0 else 2.0 * Pause(k - 1)
  }

  /** 2, 4, 8, 16, and then 30 seconds each. */
  lemma {:induction false} PauseIs(k: nat)
    ensures Pause(1) == 2.0 && Pause(2) == 4.0 && Pause(3) == 8.0 && Pause(4) == 16.0
    ensures k >= 5 ==> Pause(k) == 30.0
  {
    assert Pause(0) == 1.0;
    if k > 5 { PauseIs(k - 1); }
  }

  ghost predicate Timed(p: Platform, retries: int) {
    && (retries >= 1 ==> p.created <= p.at(1))
    && forall k: nat :: 1 <= k < retries ==> p.at(k) + Pause(k) <= p.at(k + 1)
  }

  /** The k-th attempt is made, and its delivery's limiter lets it through. */
  predicate Passes(d: Delivery, retries: int, k: nat)
    requires k > 0
  {
    var before := Attempts(d.p, retries, d.count, k - 1);
    d.p.made && before.end.None? && W.Admits(before.window, d.p.limit, d.count, d.p.at(k))
  }

  predicate In(p: Platform, k: nat, a: real, b: real) {
    a <= p.at(k) <= b
  }

  /** Units the first n attempts bring to the platform in [a, b], failed ones included. */
  function SentBy(d: Delivery, retries: int, n: nat, a: real, b: real): nat {
    if n == 0 then 0
    else SentBy(d, retries, n - 1, a, b) + if In(d.p, n, a, b) && Passes(d, retries, n) then d.count else 0
  }

  function SentIn(ds: seq<Delivery>, retries: int, a: real, b: real): nat {
    if ds == [] then 0
    else SentIn(ds[..|ds| - 1], retries, a, b) + SentBy(ds[|ds| - 1], retries, Tries(retries), a, b)
  }

  predicate Attempted(p: Platform, retries: int, a: real, b: real) {
    exists k: nat :: 1 <= k <= retries && In(p, k, a, b)
  }

  /** The attempts that lie in [a, b] share one window of the delivery's limiter. */
  predicate OneWindow(p: Platform, retries: int, a: real, b: real) {
    forall j: nat, k: nat :: 1 <= j <= k <= retries && In(p, j, a, b) && In(p, k, a, b) ==> Opened(p, j) == Opened(p, k)
  }

  /** What the schedule of a delivery lets through in [a, b] at most. */
  function Allowed(p: Platform, retries: int, a: real, b: real): nat {
    if !Attempted(p, retries, a, b) then 0
    else if OneWindow(p, retries, a, b) then W.Cap(p.limit)
    else 2 * W.Cap(p.limit)
  }

  function AllowedIn(ds: seq<Delivery>, retries: int, a: real, b: real): nat {
    if ds == [] then 0
    else AllowedIn(ds[..|ds| - 1], retries, a, b) + Allowed(ds[|ds| - 1].p, retries, a, b)
  }

  lemma {:induction false} TimesRise(p: Platform, retries: int, j: nat, k: nat)
    requires Timed(p, retries) && 1 <= j <= k <= retries
    ensures p.created <= p.at(j) <= p.at(k)
    decreases k
  {
    PauseBounded(k - 1);
    if j < k { TimesRise(p, retries, j, k - 1); } else if k > 1 { TimesRise(p, retries, 1, k - 1); }
  }

  lemma {:induction false} PauseBounded(k: nat)
    ensures 0.0 <= Pause(k) <= 30.0
  {
    if k > 0 { PauseBounded(k - 1); }
  }

  lemma {:induction false} OpenedRises(p: Platform, j: nat, k: nat)
    requires j <= k
    ensures Opened(p, j) <= Opened(p, k)
  {
    if j < k { OpenedRises(p, j, k - 1); }
  }

  /** What passes in [a, b] in one window never exceeds that window's count. */
  lemma {:induction false} OneWindowBound(d: Delivery, retries: int, n: nat, a: real, b: real)
    requires OneWindow(d.p, retries, a, b) && n <= Tries(retries)
    ensures var s, sent := Attempts(d.p, retries, d.count, n), SentBy(d, retries, n, a, b);
            && sent <= W.Cap(d.p.limit)
            && (s.end.None? ==> forall j: nat :: 1 <= j <= n && In(d.p, j, a, b) && Opened(d.p, j) == Opened(d.p, n)
                                  ==> sent <= s.window.count)
            && (!d.p.made || (forall j: nat :: 1 <= j <= n ==> !In(d.p, j, a, b)) ==> sent == 0)
  {
    if n > 0 {
      OneWindowBound(d, retries, n - 1, a, b);
      AttemptsUseUpLimit(d.p, retries, d.count, n - 1);
      forall j: nat | 1 <= j < n && In(d.p, j, a, b) && (In(d.p, n, a, b) || Opened(d.p, j) == Opened(d.p, n))
        ensures Opened(d.p, j) == Opened(d.p, n - 1) == Opened(d.p, n)
      {
        OpenedRises(d.p, j, n - 1);
        OpenedRises(d.p, n - 1, n);
      }
    }
  }

  /** Every attempt that passes is one of the limiter's admitted calls. */
  lemma {:induction false} PassedAreAdmitted(d: Delivery, retries: int, n: nat, a: real, b: real)
    requires n <= Tries(retries)
    ensures SentBy(d, retries, n, a, b) <= W.AdmittedIn(d.p.created, d.p.limit, Tried(d.p, d.count, n), a, b)
  {
    if n > 0 {
      PassedAreAdmitted(d, retries, n - 1, a, b);
      AttemptsDecided(d.p, retries, d.count, n - 1);
      var calls := Tried(d.p, d.count, n);
      assert calls[..|calls| - 1] == Tried(d.p, d.count, n - 1);
    }
  }

  lemma {:induction false} TriedInOrder(p: Platform, retries: int, count: nat, n: nat)
    requires Timed(p, retries) && n <= Tries(retries)
    ensures |Tried(p, count, n)| == n && W.InOrder(p.created, Tried(p, count, n))
    ensures forall i :: 0 <= i < n ==> Tried(p, count, n)[i].now == p.at(i + 1)
  {
    if n > 0 {
      TriedInOrder(p, retries, count, n - 1);
      forall j | 1 <= j <= n ensures p.created <= p.at(j) <= p.at(n) { TimesRise(p, retries, j, n); }
    }
  }

  /** A minute admits at most what the schedule of each delivery allows: its limit if
      its attempts in that minute share a window, and twice its limit otherwise. */
  lemma {:induction false} FreshBound(ds: seq<Delivery>, retries: int, a: real)
    requires forall i :: 0 <= i < |ds| ==> Timed(ds[i].p, retries)
    ensures SentIn(ds, retries, a, a + 60.0) <= AllowedIn(ds, retries, a, a + 60.0)
  {
    if ds != [] {
      var d, n := ds[|ds| - 1], Tries(retries);
      FreshBound(ds[..|ds| - 1], retries, a);
      if OneWindow(d.p, retries, a, a + 60.0) {
        OneWindowBound(d, retries, n, a, a + 60.0);
      } else {
        PassedAreAdmitted(d, retries, n, a, a + 60.0);
        TriedInOrder(d.p, retries, d.count, n);
        W.TwiceTheLimit(d.p.created, d.p.limit, Tried(d.p, d.count, n), a);
      }
    }
  }

  /** Deliveries of one integration's limit, if asked each with its attempts in the
      minute from `a` in one window. */
  ghost predicate Scheduled(ds: seq<Delivery>, n: nat, limit: int, retries: int, single: bool, a: real) {
    && |ds| == n
    && forall i :: 0 <= i < n ==>
         && ds[i].p.limit == limit && Timed(ds[i].p, retries)
         && (single ==> OneWindow(ds[i].p, retries, a, a + 60.0))
  }

  /** An attempt at 0 and the next after `gap` seconds, with a full batch. */
  function Spaced(limit: nat, gap: real): Delivery {
    Delivery(Platform(true, limit, 0.0, k => (k - 1) as real * gap, k => if k == 1 then Retryable else Accepted(limit), true),
             limit)
  }

  lemma SpacedTimed(limit: nat, gap: real, retries: int)
    requires gap >= 60.0
    ensures var p := Spaced(limit, gap).p;
            && Timed(p, retries)
            && (gap > 60.0 ==> OneWindow(p, retries, 0.0, 60.0))
            && (retries >= 1 ==> In(p, 1, 0.0, 60.0))
  {
    var p := Spaced(limit, gap).p;
    forall k: nat | 1 <= k < retries ensures p.at(k) + Pause(k) <= p.at(k + 1) {
      PauseBounded(k);
      assert k as real * gap == (k - 1) as real * gap + gap;
    }
    if gap > 60.0 {
      forall k: nat | 1 < k <= retries ensures !In(p, k, 0.0, 60.0) {
        assert p.at(k) == (k - 2) as real * gap + gap;
      }
    }
  }

  /** It sends its batch once in the first minute, or twice when the next attempt
      comes just as the limiter's window is over. */
  lemma {:induction false} SpacedSends(limit: nat, gap: real, retries: int, n: nat)
    requires gap >= 60.0 && 1 <= n <= retries
    ensures SentBy(Spaced(limit, gap), retries, n, 0.0, 60.0) == if n > 1 && gap == 60.0 then 2 * limit else limit
    ensures n > 1 ==> Attempts(Spaced(limit, gap).p, retries, limit, n).end.Some?
  {
    var d := Spaced(limit, gap);
    assert Attempts(d.p, retries, limit, 0) == Attempting(W.Window(0.0, 0), 0, None);
    assert d.p.at(1) == 0.0 && d.p.at(2) == gap;
    if n == 1 {
      assert SentBy(d, retries, 0, 0.0, 60.0) == 0;
    } else {
      SpacedSends(limit, gap, retries, n - 1);
      if n == 2 {
        var s := Attempts(d.p, retries, limit, 1);
        assert s == Attempting(W.Window(0.0, limit), 1, None);
      }
    }
  }

  /** Both bounds are reached, for every number of deliveries and whatever the limit. */
  lemma {:induction false} FreshBoundReached(n: nat, limit: nat, retries: int, single: bool)
    returns (ds: seq<Delivery>)
    requires retries >= 1
    ensures Scheduled(ds, n, limit, retries, single, 0.0)
    ensures SentIn(ds, retries, 0.0, 60.0) == Times(n, if single || retries == 1 then limit else 2 * limit)
  {
    if n == 0 {
      ds := [];
    } else {
      var fewer := FreshBoundReached(n - 1, limit, retries, single);
      var gap := if single then 100.0 else 60.0;
      ds := fewer + [Spaced(limit, gap)];
      assert ds[..n - 1] == fewer;
      SpacedTimed(limit, gap, retries);
      SpacedSends(limit, gap, retries, retries);
      OneMore(n - 1, if single || retries == 1 then limit else 2 * limit);
    }
  }

  /** No minute of n deliveries, whatever their times, sizes and answers, brings more
      than the limit. */
  ghost predicate LimitKept(n: nat, limit: int, retries: int, single: bool) {
    forall ds: seq<Delivery>, a: real :: Scheduled(ds, n, limit, retries, single, a)
      ==> SentIn(ds, retries, a, a + 60.0) <= W.Cap(limit)
  }

  /** The limit is kept by all n deliveries if and only if nothing may be sent at all, or
      there is at most one of them and its attempts within a minute share a window,
      because schedules are so restricted or because it never tries again. */
  lemma LimitKeptIff(n: nat, limit: int, retries: int, single: bool)
    ensures LimitKept(n, limit, retries, single)
            <==> limit <= 0 || retries < 1 || n == 0 || (n == 1 && (single || retries == 1))
  {
    if limit <= 0 || retries < 1 || n == 0 || (n == 1 && (single || retries == 1)) {
      forall ds: seq<Delivery>, a: real | Scheduled(ds, n, limit, retries, single, a)
        ensures SentIn(ds, retries, a, a + 60.0) <= W.Cap(limit)
      {
        FreshBound(ds, retries, a);
        AllowedAtMost(ds, retries, a, W.Cap(limit));
      }
    } else {
      var ds := FreshBoundReached(n, limit, retries, single);
      if n >= 2 { TimesGrows(2, n, if single || retries == 1 then limit else 2 * limit); }
      assert SentIn(ds, retries, 0.0, 0.0 + 60.0) > W.Cap(limit);
    }
  }

  lemma {:induction false} AllowedAtMost(ds: seq<Delivery>, retries: int, a: real, cap: nat)
    requires forall i :: 0 <= i < |ds| ==> W.Cap(ds[i].p.limit) == cap
    requires cap == 0 || retries < 1 || |ds| == 0
             || (|ds| == 1 && (retries == 1 || OneWindow(ds[0].p, retries, a, a + 60.0)))
    ensures AllowedIn(ds, retries, a, a + 60.0) <= cap
  {
    if ds != [] {
      AllowedAtMost(ds[..|ds| - 1], retries, a, cap);
      if |ds| == 1 { assert AllowedIn(ds[..0], retries, a, a + 60.0) == 0; }
    }
  }

  /** So for any amount there is a minute in which more is admitted. */
  lemma NoBoundPerMinute(limit: nat, retries: int, bound: nat) returns (ds: seq<Delivery>)
    requires limit >= 1 && retries >= 1
    ensures Scheduled(ds, bound, limit, retries, true, 0.0) && SentIn(ds, retries, 0.0, 60.0) >= bound
  {
    ds := FreshBoundReached(bound, limit, retries, true);
    assert bound * limit >= bound;
  }

  // ---- the integration cache ----

  datatype Cached = Cached(integrations: seq<string>, at: real)

  /** A lookup; `fetched` is what the database would say, None if it fails. */
  datatype Lookup = Lookup(tenant: string, now: real, fetched: Option<seq<string>>)

  type Cache = map<string, Cached>

  predicate Hit(c: Cache, l: Lookup) {
    l.tenant in c && l.now - c[l.tenant].at < CACHE_TTL
  }

  function Answer(c: Cache, l: Lookup): seq<string> {
    if Hit(c, l) then c[l.tenant].integrations
    else if l.fetched.Some? then l.fetched.value
    else if l.tenant in c then c[l.tenant].integrations
    else []
  }

  function Looked(c: Cache, l: Lookup): Cache {
    if !Hit(c, l) && l.fetched.Some? then c[l.tenant := Cached(l.fetched.value, l.now)] else c
  }

  function CacheAfter(run: seq<Lookup>): Cache {
    if run == [] then map[] else Looked(CacheAfter(run[..|run| - 1]), run[|run| - 1])
  }

  function Own(run: seq<Lookup>, tenant: string): seq<Lookup> {
    if run == [] then []
    else
      var front, l := Own(run[..|run| - 1], tenant), run[|run| - 1];
      if l.tenant == tenant then front + [l] else front
  }

  lemma {:induction false} OwnIs(run: seq<Lookup>, tenant: string, l: Lookup)
    ensures multiset(Own(run, tenant))[l] == if l.tenant == tenant then multiset(run)[l] else 0
  {
    if run != [] {
      OwnIs(run[..|run| - 1], tenant, l);
      assert run == run[..|run| - 1] + [run[|run| - 1]];
    }
  }

  predicate InTime(run: seq<Lookup>) {
    forall i, j :: 0 <= i < j < |run| ==> run[i].now <= run[j].now
  }

  /** Whenever the database could be read, something is cached, and it is less than 60 s
      older than that. */
  lemma {:induction false} CacheIsYoung(run: seq<Lookup>, i: nat)
    requires i < |run| && run[i].fetched.Some? && InTime(run)
    ensures var c, tenant := CacheAfter(run), run[i].tenant;
            tenant in c && run[i].now - c[tenant].at < 60.0
    decreases |run|
  {
    if i < |run| - 1 {
      assert run[i].now <= run[|run| - 1].now;
      CacheIsYoung(run[..|run| - 1], i);
    }
  }

  /** What a lookup answers: what is cached if that is less than 60 s old, else what the
      database says, else what is cached however old, else nothing. */
  lemma AnswerIs(run: seq<Lookup>, l: Lookup)
    ensures var c, answer := CacheAfter(run), Answer(CacheAfter(run), l);
            && (l.tenant in c && l.now - c[l.tenant].at < 60.0 ==> answer == c[l.tenant].integrations)
            && (l.tenant !in c || l.now - c[l.tenant].at >= 60.0 ==>
                  && (l.fetched.Some? ==> answer == l.fetched.value)
                  && (l.fetched.None? && l.tenant in c ==> answer == c[l.tenant].integrations)
                  && (l.fetched.None? && l.tenant !in c ==> answer == []))
  {
  }

  /** A tenant's answers depend on its own lookups alone. */
  lemma {:induction false} CacheIsolatesTenants(run: seq<Lookup>, l: Lookup)
    ensures var mixed, own := CacheAfter(run), CacheAfter(Own(run, l.tenant));
            && (l.tenant in mixed <==> l.tenant in own)
            && (l.tenant in mixed ==> mixed[l.tenant] == own[l.tenant])
            && Answer(mixed, l) == Answer(own, l)
  {
    if run != [] {
      var front, last := run[..|run| - 1], run[|run| - 1];
      CacheIsolatesTenants(front, l);
      if last.tenant == l.tenant {
        assert (Own(front, l.tenant) + [last])[..|Own(front, l.tenant)|] == Own(front, l.tenant);
      }
    }
  }

  /** What a cached answer is: a successful read of this very tenant, and on a hit
      one that is less than 60 s old. */
  lemma {:induction false} CachedIsSuccessfulRead(run: seq<Lookup>, tenant: string) returns (i: nat)
    requires tenant in CacheAfter(run)
    ensures i < |run| && run[i].tenant == tenant && run[i].fetched == Some(CacheAfter(run)[tenant].integrations)
    ensures CacheAfter(run)[tenant].at == run[i].now
    ensures forall now: real :: Hit(CacheAfter(run), Lookup(tenant, now, None)) ==> now - run[i].now < CACHE_TTL
  {
    var front, last := run[..|run| - 1], run[|run| - 1];
    if !Hit(CacheAfter(front), last) && last.fetched.Some? && last.tenant == tenant {
      i := |run| - 1;
    } else {
      i := CachedIsSuccessfulRead(front, tenant);
    }
  }

  class SIEMFanoutConsumer {
    const maxRetries: int
    var buffer: Dict<seq<Message>>
    var cache: Cache
    var alertsDelivered: int
    var deliveryErrors: int

    constructor (maxRetries: int)
      ensures this.maxRetries == maxRetries && buffer == Empty() && cache == map[] && Totals() == Tally(0, 0)
    {
      this.maxRetries, buffer, cache := maxRetries, Empty(), map[];
      alertsDelivered, deliveryErrors := 0, 0;
    }

    function Totals(): Tally
      reads this
    {
      Tally(alertsDelivered, deliveryErrors)
    }

    method BufferAlert(m: Message, ghost earlier: seq<Message>)
      requires buffer == Buffered(earlier)
      modifies this`buffer
      ensures buffer == Buffered(earlier + [m])
    {
      assert (earlier + [m])[..|earlier|] == earlier;
      if m.Malformed? || m.tenant == "" { return; }
      if m.tenant !in buffer.at { buffer := Put(buffer, m.tenant, []); }
      buffer := Put(buffer, m.tenant, buffer.at[m.tenant] + [m]);
    }

    method SendToIntegration(p: Platform, count: nat)
      modifies this`alertsDelivered, this`deliveryErrors
      ensures Totals() == Deliver(p, maxRetries, count, old(Totals()))
    {
      if !p.made {
        deliveryErrors := deliveryErrors + count;
        return;
      }
      var integration := new W.SIEMIntegration(p.limit, p.limit, p.created);
      var n, done, aborted := 0, false, false;
      ghost var s := Attempts(p, maxRetries, count, 0);
      while n < maxRetries && !done
        invariant 0 <= n <= Tries(maxRetries)
        invariant s == Attempts(p, maxRetries, count, n) && integration.rateLimit == p.limit
        invariant integration.State() == s.window && fresh(integration)
        invariant done == s.end.Some? && aborted == (s.end == Some(Aborted))
        invariant Totals() == Counted(old(Totals()), s.end, count)
        decreases maxRetries - n
      {
        n := n + 1;
        s := Attempt(s, p, maxRetries, count, n);
        var allowed := integration.CheckRateLimit(count, p.at(n));
        if !allowed {
          deliveryErrors, done := deliveryErrors + count, true;
        } else {
          match p.reply(n)
          case Accepted(sent) => alertsDelivered, done := alertsDelivered + sent, true;
          case OtherError => deliveryErrors, done, aborted := deliveryErrors + count, true, true;
          case Fatal => deliveryErrors, done := deliveryErrors + count, true;
          case Retryable => if n == maxRetries { deliveryErrors, done := deliveryErrors + count, true; }
        }
      }
      EndedStays(p, maxRetries, count, n);
      if !aborted && !p.closes { deliveryErrors := deliveryErrors + count; }
    }

    method GetIntegrations(l: Lookup) returns (integrations: seq<string>)
      modifies this`cache
      ensures integrations == Answer(old(cache), l) && cache == Looked(old(cache), l)
    {
      if l.tenant in cache && l.now - cache[l.tenant].at < CACHE_TTL {
        return cache[l.tenant].integrations;
      }
      match l.fetched
      case Some(result) =>
        cache := cache[l.tenant := Cached(result, l.now)];
        integrations := result;
      case None =>
        integrations := if l.tenant in cache then cache[l.tenant].integrations else [];
    }
  }

  lemma {:induction false} EndedStays(p: Platform, retries: int, count: nat, n: nat)
    requires n <= Tries(retries) && (n < Tries(retries) ==> Attempts(p, retries, count, n).end.Some?)
    ensures Attempts(p, retries, count, Tries(retries)) == Attempts(p, retries, count, n)
    decreases Tries(retries) - n
  {
    if n < Tries(retries) { EndedStays(p, retries, count, n + 1); }
  }
}
