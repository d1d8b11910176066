/** Policy schedules: reading "HH:MM-HH:MM TZ", the weekend modes, and what a
    window covers. */
module Schedule {
  import opened Options
  import opened Text

  const DAY := 1440

  /** Empty strings stand for missing or empty entries. */
  datatype Schedule = Schedule(weekend: string, activeHours: string)

  datatype Moment = Moment(weekday: nat, minute: nat)

  datatype Hours = Always | Window(start: nat, end: nat) | IndexError

  // ---- reading the hours ----

  predicate IsSpace(c: char) {
    c == ' ' || 9 <= c as int <= 13 || 28 <= c as int <= 31
  }

  predicate IsDigit(c: char) {
    '0' <= c <= '9'
  }

  function Digit(c: char): nat
    requires IsDigit(c)
  {
    c as int - '0' as int
  }

  function StripLeft(s: string): string {
    if s != "" && IsSpace(s[0]) then StripLeft(s[1..]) else s
  }

  function StripRight(s: string): string {
    if s != "" && IsSpace(s[|s| - 1]) then StripRight(s[..|s| - 1]) else s
  }

  function Strip(s: string): string {
    StripLeft(StripRight(s))
  }

  function ParseHhMm(s: string): Option<nat> {
    var t := Strip(s);
    if |t| == 5 && IsDigit(t[0]) && IsDigit(t[1]) && t[2] == ':' && IsDigit(t[3]) && IsDigit(t[4]) then
      var hh, mm := 10 * Digit(t[0]) + Digit(t[1]), 10 * Digit(t[3]) + Digit(t[4]);
      if hh > 23 || mm > 59 then None else Some(60 * hh + mm)
    else None
  }

  function Dash(): char -> bool {
    c => c == '-'
  }

  function Space(): char -> bool {
    c => IsSpace(c)
  }

  /** IndexError: there is no first word to take. */
  function ParseHours(active: string): Hours {
    if active == "" then Always
    else
      var parts := Split(Strip(active), Dash());
      if |parts| != 2 then Always
      else
        var tail := Strip(parts[1]);
        if tail == "" then IndexError
        else
          var start, end := ParseHhMm(Strip(parts[0])), ParseHhMm(Split(tail, Space())[0]);
          if start.None? || end.None? then Always else Window(start.value, end.value)
  }

  predicate InWindow(start: nat, end: nat, minute: nat) {
    if start <= end then start <= minute <= end else minute >= start || minute <= end
  }

  /** None: the check raises. */
  function Within(schedule: Option<Schedule>, now: Moment): Option<bool> {
    match schedule
    case None => Some(true)
    case Some(s) =>
      if now.weekday >= 5 && s.weekend == "suppress" then Some(false)
      else if now.weekday >= 5 && s.weekend == "alert" then Some(true)
      else
        match ParseHours(s.activeHours)
        case Always => Some(true)
        case Window(start, end) => Some(InWindow(start, end, now.minute))
        case IndexError => None
  }

  // ---- printing, and reading back ----

  function Print2(n: nat): string
    requires n < 100
  {
    [('0' as int + n / 10) as char, ('0' as int + n % 10) as char]
  }

  function PrintHhMm(minute: nat): (s: string)
    requires minute < DAY
    ensures |s| == 5
  {
    Print2(minute / 60) + ":" + Print2(minute % 60)
  }

  predicate Zone(zone: string) {
    zone == "" || (zone[0] == ' ' && !IsSpace(zone[|zone| - 1]) && '-' !in zone)
  }

  predicate Clock(s: string) {
    |s| == 5 && forall i :: 0 <= i < 5 ==> IsDigit(s[i]) || s[i] == ':'
  }

  lemma PrintedFacts(minute: nat)
    requires minute < DAY
    ensures ParseHhMm(PrintHhMm(minute)) == Some(minute)
    ensures Clock(PrintHhMm(minute))
  {
  }

  lemma Print2Is(c: char, d: char)
    requires IsDigit(c) && IsDigit(d)
    ensures 10 * Digit(c) + Digit(d) < 100 && Print2(10 * Digit(c) + Digit(d)) == [c, d]
  {
  }

  lemma DigitsPrint(t: string, minute: nat)
    requires |t| == 5 && IsDigit(t[0]) && IsDigit(t[1]) && t[2] == ':' && IsDigit(t[3]) && IsDigit(t[4])
    requires var hh, mm := 10 * Digit(t[0]) + Digit(t[1]), 10 * Digit(t[3]) + Digit(t[4]);
             hh < 24 && mm < 60 && minute == 60 * hh + mm
    ensures minute < DAY && PrintHhMm(minute) == t
  {
    var hh, mm := 10 * Digit(t[0]) + Digit(t[1]), 10 * Digit(t[3]) + Digit(t[4]);
    assert minute / 60 == hh && minute % 60 == mm;
    Print2Is(t[0], t[1]);
    Print2Is(t[3], t[4]);
    assert t == [t[0], t[1]] + ":" + [t[3], t[4]];
  }

  /** What reads as a time is exactly what is printed for one, with white space around it. */
  lemma ReadsIff(s: string, minute: nat)
    ensures ParseHhMm(s) == Some(minute) <==> minute < 1440 && Strip(s) == PrintHhMm(minute)
  {
    if minute < 1440 && Strip(s) == PrintHhMm(minute) {
      PrintedFacts(minute);
      PrintedStrips(minute);
    }
    if ParseHhMm(s) == Some(minute) {
      DigitsPrint(Strip(s), minute);
    }
  }

  lemma PrintedStrips(minute: nat)
    requires minute < DAY
    ensures Strip(PrintHhMm(minute)) == PrintHhMm(minute)
  {
  }

  lemma SplitsAtDash(a: string, rest: string)
    requires Clock(a) && '-' !in rest
    ensures Split(a + "-" + rest, Dash()) == [a, rest]
  {
    var s := a + "-" + rest;
    SplitAt(s, Dash(), 5);
    assert s[..5] == a && s[6..] == rest;
    SplitNot(rest, Dash());
  }

  lemma ClockZone(b: string, zone: string)
    requires Clock(b) && Zone(zone)
    ensures '-' !in b + zone && Strip(b + zone) == b + zone
  {
  }

  lemma WholeStrips(a: string, rest: string)
    requires Clock(a) && |rest| > 0 && !IsSpace(rest[|rest| - 1])
    ensures Strip(a + "-" + rest) == a + "-" + rest && Strip(a) == a
  {
  }

  /** Any window, printed with or without a time zone, is read back as itself. */
  lemma HoursRoundTrip(start: nat, end: nat, zone: string)
    requires start < DAY && end < DAY && Zone(zone)
    ensures ParseHours(PrintHhMm(start) + "-" + (PrintHhMm(end) + zone)) == Window(start, end)
  {
    var a, b := PrintHhMm(start), PrintHhMm(end);
    PrintedFacts(start);
    PrintedFacts(end);
    ClockZone(b, zone);
    WholeStrips(a, b + zone);
    SplitsAtDash(a, b + zone);
    FirstWord(b, zone);
  }

  lemma FirstWord(b: string, zone: string)
    requires Clock(b) && Zone(zone)
    ensures Split(b + zone, Space())[0] == b
  {
    var s := b + zone;
    if zone == "" {
      assert s == b;
      SplitNot(s, Space());
    } else {
      SplitAt(s, Space(), 5);
    }
  }

  /** The hours cannot be read at all if and only if there is exactly one dash and
      nothing but white space after it. */
  lemma {:induction false} RaisesIff(active: string)
    ensures ParseHours(active) == IndexError <==>
            var t := Strip(active);
            t != "" && t[|t| - 1] == '-' && '-' !in t[..|t| - 1]
  {
    var t := Strip(active);
    var i := IndexOf(t, Dash());
    if active == "" { assert t == ""; }
    StrippedEnds(active);
    if i < |t| {
      var rest := t[i + 1..];
      var k := IndexOf(rest, Dash());
      if k == |rest| {
        SplitNot(rest, Dash()) by { forall c | c in rest ensures !Dash()(c) { } }
        assert Split(t, Dash()) == [t[..i], rest];
        if rest != "" {
          assert rest[|rest| - 1] == t[|t| - 1];
          KeepsLast(rest);
        }
      } else {
        assert |Split(t, Dash())| > 2;
        assert t[..|t| - 1][i] == '-' by { assert i + 1 + k < |t|; }
      }
    } else if t != "" {
      assert t[|t| - 1] != '-';
    }
  }

  lemma {:induction false} KeepsLast(s: string)
    requires s != "" && !IsSpace(s[|s| - 1])
    ensures Strip(s) != ""
    decreases |s|
  {
    if IsSpace(s[0]) { KeepsLast(s[1..]); }
  }

  lemma StrippedEnds(s: string)
    ensures Strip(s) != "" ==> !IsSpace(Strip(s)[|Strip(s)| - 1])
  {
    StripRightEnds(s);
    StripLeftKeepsEnd(StripRight(s));
  }

  lemma {:induction false} StripRightEnds(s: string)
    ensures var t := StripRight(s); t != "" ==> !IsSpace(t[|t| - 1])
    decreases |s|
  {
    if s != "" && IsSpace(s[|s| - 1]) { StripRightEnds(s[..|s| - 1]); }
  }

  lemma {:induction false} StripLeftKeepsEnd(s: string)
    requires s != "" ==> !IsSpace(s[|s| - 1])
    ensures var t := StripLeft(s); t != "" ==> !IsSpace(t[|t| - 1])
    decreases |s|
  {
    if s != "" && IsSpace(s[0]) { StripLeftKeepsEnd(s[1..]); }
  }

  /** `t` is `s` without the white space at its ends. */
  lemma StripIs(s: string) returns (a: string, b: string)
    ensures s == a + Strip(s) + b
    ensures (forall c :: c in a || c in b ==> c as int in {9, 10, 11, 12, 13, 28, 29, 30, 31, 32})
    ensures Strip(s) != "" ==>
              && Strip(s)[0] as int !in {9, 10, 11, 12, 13, 28, 29, 30, 31, 32}
              && Strip(s)[|Strip(s)| - 1] as int !in {9, 10, 11, 12, 13, 28, 29, 30, 31, 32}
  {
    b := StripRightIs(s);
    a := StripLeftIs(StripRight(s));
    StrippedEnds(s);
  }

  lemma {:induction false} StripRightIs(s: string) returns (b: string)
    ensures s == StripRight(s) + b && forall c :: c in b ==> IsSpace(c)
    decreases |s|
  {
    b := "";
    if s != "" && IsSpace(s[|s| - 1]) {
      var more := StripRightIs(s[..|s| - 1]);
      b := more + [s[|s| - 1]];
      assert s == s[..|s| - 1] + [s[|s| - 1]];
    }
  }

  lemma {:induction false} StripLeftIs(s: string) returns (a: string)
    ensures s == a + StripLeft(s) && forall c :: c in a ==> IsSpace(c)
    ensures StripLeft(s) != "" ==> !IsSpace(StripLeft(s)[0])
    decreases |s|
  {
    a := "";
    if s != "" && IsSpace(s[0]) {
      var more := StripLeftIs(s[1..]);
      a := [s[0]] + more;
      assert s == [s[0]] + s[1..];
    }
  }

  // ---- when a policy sleeps ----

  /** Outside the schedule: on a weekend that is suppressed, or, unless it is one that only
      alerts, outside the window that the hours give, overnight windows included. A schedule
      that is missing, has no hours or malformed ones is never outside. */
  lemma OutsideIff(schedule: Option<Schedule>, now: Moment)
    ensures Within(schedule, now) == Some(false) <==>
            && schedule.Some?
            && var s, weekend := schedule.value, now.weekday == 5 || now.weekday == 6 || now.weekday > 6;
               || (weekend && s.weekend == "suppress")
               || (!(weekend && s.weekend == "alert")
                   && match ParseHours(s.activeHours)
                      case Window(start, end) =>
                        if start <= end then now.minute < start || end < now.minute
                        else end < now.minute < start
                      case _ => false)
    ensures Within(schedule, now) == None <==>
            && schedule.Some? && ParseHours(schedule.value.activeHours) == IndexError
            && (now.weekday < 5 || (schedule.value.weekend != "suppress" && schedule.value.weekend != "alert"))
  {
  }

  // ---- what a window covers ----

  /** A window and the one with its ends swapped cover the day and share exactly
      the two ends. */
  lemma SwappedWindowsCover(start: nat, end: nat, minute: nat)
    requires start < DAY && end < DAY && minute < DAY && start != end
    ensures InWindow(start, end, minute) || InWindow(end, start, minute)
    ensures InWindow(start, end, minute) && InWindow(end, start, minute) <==> minute == start || minute == end
  {
  }

  function ActiveBefore(start: nat, end: nat, m: nat): nat {
    if m == 0 then 0 else ActiveBefore(start, end, m - 1) + if InWindow(start, end, m - 1) then 1 else 0
  }

  lemma {:induction false} ActiveBeforeIs(start: nat, end: nat, m: nat)
    requires start < DAY && end < DAY && m <= DAY
    ensures ActiveBefore(start, end, m) ==
            if start <= end then Clip(m - start, end - start + 1)
            else Clip(m, end + 1) + Clip(m - start, DAY - start)
  {
    if m > 0 { ActiveBeforeIs(start, end, m - 1); }
  }

  function Clip(n: int, hi: nat): nat {
    if n < 0 then 0 else if n > hi then hi else n
  }

  /** A window is active for ((end - start) mod 1440) + 1 minutes of the day. */
  lemma ActiveMinutes(start: nat, end: nat)
    requires start < DAY && end < DAY
    ensures ActiveBefore(start, end, DAY) == (end - start) % DAY + 1
  {
    ActiveBeforeIs(start, end, DAY);
  }
}
