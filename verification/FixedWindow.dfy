/** The fixed-window limiters of the SIEM integrations and the notification channels. */
module FixedWindow {

  datatype Window = Window(start: real, count: int)

  function Current(w: Window, now: real): Window {
    if now - w.start >= 60.0 then Window(now, 0) else w
  }

  predicate Admits(w: Window, limit: int, n: nat, now: real) {
    Current(w, now).count + n <= limit
  }

  function Checked(w: Window, limit: int, n: nat, now: real): Window {
    var c := Current(w, now);
    if Admits(w, limit, n, now) then Window(c.start, c.count + n) else c
  }

  datatype Call = Call(now: real, units: nat)

  predicate InOrder(start: real, calls: seq<Call>) {
    && (forall i, j :: 0 <= i < j < |calls| ==> calls[i].now <= calls[j].now)
    && (forall i :: 0 <= i < |calls| ==> start <= calls[i].now)
  }

  /** The window after a run of a limiter created at `start`. */
  function After(start: real, limit: int, calls: seq<Call>): Window {
    if calls == [] then Window(start, 0)
    else
      var c := calls[|calls| - 1];
      Checked(After(start, limit, calls[..|calls| - 1]), limit, c.units, c.now)
  }

  /** Units admitted at times in the closed interval [a, b]. */
  function AdmittedIn(start: real, limit: int, calls: seq<Call>, a: real, b: real): nat {
    if calls == [] then 0
    else
      var front, c := calls[..|calls| - 1], calls[|calls| - 1];
      AdmittedIn(start, limit, front, a, b)
      + if a <= c.now <= b && Admits(After(start, limit, front), limit, c.units, c.now) then c.units else 0
  }

  function Cap(limit: int): nat {
    if limit > 0 then limit else 0
  }

  function LastCall(start: real, calls: seq<Call>): real {
    if calls == [] then start else calls[|calls| - 1].now
  }

  /** What a minute starting at `a` has used up, seen from the current window `w`. */
  predicate MinuteState(w: Window, limit: int, last: real, used: nat, a: real) {
    && 0 <= w.count <= Cap(limit)
    && w.start <= last < w.start + 60.0
    && used <= 2 * Cap(limit)
    && (last < a ==> used == 0)
    && (w.start <= a ==> used <= w.count)
    && (a < w.start <= a + 60.0 ==> used <= Cap(limit) + w.count)
  }

  lemma MinuteStep(w: Window, limit: int, last: real, used: nat, a: real, c: Call)
    requires MinuteState(w, limit, last, used, a) && last <= c.now
    ensures var ok := a <= c.now <= a + 60.0 && Admits(w, limit, c.units, c.now);
            MinuteState(Checked(w, limit, c.units, c.now), limit, c.now, used + (if ok then c.units else 0), a)
  {
  }

  lemma {:induction false} MinuteInvariant(start: real, limit: int, calls: seq<Call>, a: real)
    requires InOrder(start, calls)
    ensures MinuteState(After(start, limit, calls), limit, LastCall(start, calls),
                        AdmittedIn(start, limit, calls, a, a + 60.0), a)
    decreases |calls|
  {
    if calls != [] {
      var front, c := calls[..|calls| - 1], calls[|calls| - 1];
      MinuteInvariant(start, limit, front, a);
      MinuteStep(After(start, limit, front), limit, LastCall(start, front),
                 AdmittedIn(start, limit, front, a, a + 60.0), a, c);
    }
  }

  /** No minute of any run, closed at both ends, admits more than twice the limit. */
  lemma TwiceTheLimit(start: real, limit: int, calls: seq<Call>, a: real)
    requires InOrder(start, calls)
    ensures AdmittedIn(start, limit, calls, a, a + 60.0) <= 2 * Cap(limit)
  {
    MinuteInvariant(start, limit, calls, a);
  }

  /** The bound is reached: a full batch just before the reset, another just after. */
  lemma TwiceTheLimitReached(start: real, limit: nat) returns (calls: seq<Call>)
    ensures InOrder(start, calls)
    ensures AdmittedIn(start, limit, calls, start + 59.0, start + 119.0) == 2 * limit
  {
    var c1, c2 := Call(start + 59.0, limit), Call(start + 60.0, limit);
    calls := [c1, c2];
    assert calls[..1] == [c1] && [c1][..0] == [];
    assert After(start, limit, []) == Window(start, 0);
    assert After(start, limit, [c1]) == Checked(Window(start, 0), limit, limit, start + 59.0) == Window(start, limit);
    assert AdmittedIn(start, limit, [], start + 59.0, start + 119.0) == 0;
    assert AdmittedIn(start, limit, [c1], start + 59.0, start + 119.0) == limit;
  }

  /** Between two resets the count is exactly what was admitted, never above the limit. */
  lemma {:induction false} CountIsAdmittedSinceReset(start: real, limit: int, calls: seq<Call>)
    requires InOrder(start, calls)
    ensures var w := After(start, limit, calls);
            w.count == AdmittedIn(start, limit, calls, w.start, LastCall(start, calls)) && w.count <= Cap(limit)
    decreases |calls|
  {
    if calls != [] {
      var front, c := calls[..|calls| - 1], calls[|calls| - 1];
      CountIsAdmittedSinceReset(start, limit, front);
      MinuteInvariant(start, limit, front, c.now);
      var w := After(start, limit, front);
      if c.now - w.start >= 60.0 {
        NothingAdmittedAfter(start, limit, front, c.now);
      } else {
        UpperEndIrrelevant(start, limit, front, w.start, LastCall(start, front), c.now);
      }
    }
  }

  lemma {:induction false} NothingAdmittedAfter(start: real, limit: int, calls: seq<Call>, a: real)
    requires InOrder(start, calls) && LastCall(start, calls) < a
    ensures AdmittedIn(start, limit, calls, a, a) == 0
    decreases |calls|
  {
    if calls != [] {
      var front := calls[..|calls| - 1];
      if front != [] { assert calls[|front| - 1].now <= calls[|front|].now; }
      if front == [] {
        assert AdmittedIn(start, limit, front, a, a) == 0;
      } else {
        NothingAdmittedAfter(start, limit, front, a);
      }
    }
  }

  lemma {:induction false} UpperEndIrrelevant(start: real, limit: int, calls: seq<Call>, a: real, b1: real, b2: real)
    requires InOrder(start, calls) && LastCall(start, calls) <= b1 <= b2
    ensures AdmittedIn(start, limit, calls, a, b1) == AdmittedIn(start, limit, calls, a, b2)
    decreases |calls|
  {
    if calls != [] {
      var front := calls[..|calls| - 1];
      if front != [] { assert calls[|front| - 1].now <= calls[|front|].now; }
      if front != [] { UpperEndIrrelevant(start, limit, front, a, b1, b2); }
    }
  }

  class SIEMIntegration {
    const rateLimit: int
    var windowStart: real
    var windowCount: int

    /** A missing or zero configured limit falls back to the default. */
    constructor (configured: int, default_: int, now: real)
      ensures State() == Window(now, 0) && rateLimit == (if configured != 0 then configured else default_)
    {
      rateLimit := if configured != 0 then configured else default_;
      windowStart, windowCount := now, 0;
    }

    function State(): Window
      reads this
    {
      Window(windowStart, windowCount)
    }

    method CheckRateLimit(count: nat, now: real) returns (ok: bool)
      modifies this
      ensures ok == Admits(old(State()), rateLimit, count, now)
      ensures State() == Checked(old(State()), rateLimit, count, now)
    {
      if now - windowStart >= 60.0 {
        windowStart, windowCount := now, 0;
      }
      if windowCount + count > rateLimit { return false; }
      windowCount := windowCount + count;
      return true;
    }
  }

  class NotificationChannel {
    const rateLimit: int
    var windowStart: real
    var windowCount: int

    constructor (configured: int, default_: int, now: real)
      ensures State() == Window(now, 0) && rateLimit == (if configured != 0 then configured else default_)
    {
      rateLimit := if configured != 0 then configured else default_;
      windowStart, windowCount := now, 0;
    }

    function State(): Window
      reads this
    {
      Window(windowStart, windowCount)
    }

    /** Step for step the integration's limiter at count 1. */
    method CheckRateLimit(now: real) returns (ok: bool)
      modifies this
      ensures ok == Admits(old(State()), rateLimit, 1, now)
      ensures State() == Checked(old(State()), rateLimit, 1, now)
    {
      if now - windowStart >= 60.0 {
        windowStart, windowCount := now, 0;
      }
      if windowCount >= rateLimit { return false; }
      windowCount := windowCount + 1;
      return true;
    }
  }
}
