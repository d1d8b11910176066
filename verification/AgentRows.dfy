/** The agents table under upserts and touches, seen one row at a time: upserts merge into
    the first, the last and the latest known values, touches only move the activity fields,
    and the list of touches a batch makes names each agent once with its latest timestamp. */
module AgentRows {
  import opened Options

  datatype Agent = Agent(tenant: string, framework: Option<string>, exePath: Option<string>, pid: Option<int>,
                         sensor: Option<string>, status: string, firstSeen: int, lastSeen: int, updatedAt: int)

  datatype Upsert = Upsert(paid: string, tenant: string, framework: Option<string>, exePath: Option<string>,
                           pid: Option<int>, sensor: Option<string>, ts: int)

  datatype Touch = Touch(paid: string, ts: int)

  type Agents = map<string, Agent>

  /** `agent_ts`, in its insertion order: the latest timestamp seen for each agent. */
  function Noted(seen: seq<Touch>, paid: string, ts: int): seq<Touch> {
    if seen == [] then [Touch(paid, ts)]
    else if seen[0].paid == paid then [Touch(paid, if ts > seen[0].ts then ts else seen[0].ts)] + seen[1..]
    else [seen[0]] + Noted(seen[1..], paid, ts)
  }

  function Coalesce<T>(new_: Option<T>, old_: Option<T>): Option<T> {
    if new_.Some? then new_ else old_
  }

  /** INSERT ... ON CONFLICT (paid) DO UPDATE, seen from the one row it touches. */
  function Upserted(row: Option<Agent>, u: Upsert): Agent {
    match row
    case None => Agent(u.tenant, u.framework, u.exePath, u.pid, u.sensor, "active", u.ts, u.ts, u.ts)
    case Some(a) =>
      a.(lastSeen := u.ts, updatedAt := u.ts, pid := Coalesce(u.pid, a.pid), exePath := Coalesce(u.exePath, a.exePath),
         framework := Coalesce(u.framework, a.framework), sensor := Coalesce(u.sensor, a.sensor), status := "active")
  }

  /** UPDATE agents SET last_seen = GREATEST(...), status = CASE ..., updated_at = $1 */
  function Touched(a: Agent, ts: int): Agent {
    a.(lastSeen := if a.lastSeen < ts then ts else a.lastSeen,
       status := if a.status == "stale" || a.status == "offline" then "active" else a.status,
       updatedAt := ts)
  }

  function Lookup(t: Agents, paid: string): Option<Agent> {
    if paid in t then Some(t[paid]) else None
  }

  function UpsertAll(t: Agents, us: seq<Upsert>): Agents {
    if us == [] then t
    else
      var before, u := UpsertAll(t, us[..|us| - 1]), us[|us| - 1];
      before[u.paid := Upserted(Lookup(before, u.paid), u)]
  }

  function TouchAll(t: Agents, ms: seq<Touch>): Agents {
    if ms == [] then t
    else
      var before, m := TouchAll(t, ms[..|ms| - 1]), ms[|ms| - 1];
      if m.paid in before then before[m.paid := Touched(before[m.paid], m.ts)] else before
  }

  function UpsertsFor(us: seq<Upsert>, paid: string): seq<Upsert> {
    if us == [] then []
    else
      var before := UpsertsFor(us[..|us| - 1], paid);
      if us[|us| - 1].paid == paid then before + [us[|us| - 1]] else before
  }

  function LastSome<T>(us: seq<Upsert>, field: Upsert -> Option<T>, otherwise: Option<T>): Option<T> {
    if us == [] then otherwise
    else Coalesce(field(us[|us| - 1]), LastSome(us[..|us| - 1], field, otherwise))
  }

  function FrameworkOf(u: Upsert): Option<string> { u.framework }
  function ExePathOf(u: Upsert): Option<string> { u.exePath }
  function PidOf(u: Upsert): Option<int> { u.pid }
  function SensorOf(u: Upsert): Option<string> { u.sensor }

  /** What a run of upserts leaves in one agent's row: creation fields of the
      first, activity fields of the last, and the latest known value of the rest. */
  function Merged(row: Option<Agent>, us: seq<Upsert>): Option<Agent> {
    if us == [] then row
    else
      var last := us[|us| - 1];
      Some(Agent(
        if row.Some? then row.value.tenant else us[0].tenant,
        LastSome(us, FrameworkOf, if row.Some? then row.value.framework else None),
        LastSome(us, ExePathOf, if row.Some? then row.value.exePath else None),
        LastSome(us, PidOf, if row.Some? then row.value.pid else None),
        LastSome(us, SensorOf, if row.Some? then row.value.sensor else None),
        "active",
        if row.Some? then row.value.firstSeen else us[0].ts,
        last.ts, last.ts))
  }

  lemma LastSomeOne<T>(us: seq<Upsert>, u: Upsert, field: Upsert -> Option<T>, d: Option<T>)
    ensures LastSome(us + [u], field, d) == Coalesce(field(u), LastSome(us, field, d))
  {
  }

  lemma MergedOne(row: Option<Agent>, us: seq<Upsert>, u: Upsert)
    ensures Merged(row, us + [u]) == Some(Upserted(Merged(row, us), u))
  {
    LastSomeOne(us, u, FrameworkOf, if row.Some? then row.value.framework else None);
    LastSomeOne(us, u, ExePathOf, if row.Some? then row.value.exePath else None);
    LastSomeOne(us, u, PidOf, if row.Some? then row.value.pid else None);
    LastSomeOne(us, u, SensorOf, if row.Some? then row.value.sensor else None);
    if us == [] { assert us + [u] == [u]; }
  }

  lemma {:induction false} UpsertAllRow(t: Agents, us: seq<Upsert>, paid: string)
    ensures Lookup(UpsertAll(t, us), paid) == Merged(Lookup(t, paid), UpsertsFor(us, paid))
    decreases |us|
  {
    if us != [] {
      var front := us[..|us| - 1];
      UpsertAllRow(t, front, paid);
      if us[|us| - 1].paid == paid {
        MergedOne(Lookup(t, paid), UpsertsFor(front, paid), us[|us| - 1]);
      }
    }
  }

  lemma {:induction false} LastSomeAgain<T>(us: seq<Upsert>, field: Upsert -> Option<T>, d: Option<T>)
    ensures LastSome(us, field, LastSome(us, field, d)) == LastSome(us, field, d)
    ensures LastSome(us, field, d) == Coalesce(LastSome(us, field, None), d)
    decreases |us|
  {
    if us != [] {
      LastSomeAgain(us[..|us| - 1], field, d);
      LastSomeAgain(us[..|us| - 1], field, LastSome(us, field, d));
    }
  }

  /** Merging again into the outcome, or into it after touches, gives the same row. */
  lemma MergedAgain(row: Option<Agent>, us: seq<Upsert>, later: Option<Agent>)
    requires us != []
    requires var once := Merged(row, us).value;
             later.Some? && later.value.(status := "active", lastSeen := once.lastSeen, updatedAt := once.updatedAt) == once
    ensures Merged(later, us) == Merged(row, us)
  {
    var r := if row.Some? then row.value.framework else None;
    LastSomeAgain(us, FrameworkOf, r);
    var x := if row.Some? then row.value.exePath else None;
    LastSomeAgain(us, ExePathOf, x);
    var p := if row.Some? then row.value.pid else None;
    LastSomeAgain(us, PidOf, p);
    var s := if row.Some? then row.value.sensor else None;
    LastSomeAgain(us, SensorOf, s);
  }

  /** What a run of touches leaves in one row. */
  function TouchedBy(row: Option<Agent>, ms: seq<Touch>, paid: string): Option<Agent> {
    if ms == [] then row
    else
      var before := TouchedBy(row, ms[..|ms| - 1], paid);
      var m := ms[|ms| - 1];
      if m.paid == paid && before.Some? then Some(Touched(before.value, m.ts)) else before
  }

  lemma {:induction false} TouchAllRow(t: Agents, ms: seq<Touch>, paid: string)
    ensures Lookup(TouchAll(t, ms), paid) == TouchedBy(Lookup(t, paid), ms, paid)
    decreases |ms|
  {
    if ms != [] {
      TouchAllRow(t, ms[..|ms| - 1], paid);
    }
  }

  predicate MentionedIn(ms: seq<Touch>, paid: string) {
    exists i :: 0 <= i < |ms| && ms[i].paid == paid
  }

  /** Touches bound `last_seen` from below by each of their timestamps and change
      nothing but the activity fields. */
  lemma {:induction false} TouchedByBounds(row: Option<Agent>, ms: seq<Touch>, paid: string)
    requires row.Some?
    ensures TouchedBy(row, ms, paid).Some?
    ensures var a := TouchedBy(row, ms, paid).value;
            && a.(status := row.value.status, lastSeen := row.value.lastSeen, updatedAt := row.value.updatedAt) == row.value
            && a.lastSeen >= row.value.lastSeen
            && (forall i :: 0 <= i < |ms| && ms[i].paid == paid ==> ms[i].ts <= a.lastSeen)
            && (!MentionedIn(ms, paid) ==> a == row.value)
            && (MentionedIn(ms, paid) ==> a.status != "stale" && a.status != "offline")
            && (row.value.status == "active" ==> a.status == "active")
    decreases |ms|
  {
    if ms != [] {
      var front := ms[..|ms| - 1];
      TouchedByBounds(row, front, paid);
      forall i | 0 <= i < |ms| && ms[i].paid == paid
        ensures ms[i].ts <= TouchedBy(row, ms, paid).value.lastSeen
      {
        if i < |front| { assert front[i] == ms[i]; }
      }
      if MentionedIn(front, paid) {
        var i :| 0 <= i < |front| && front[i].paid == paid;
        assert ms[i].paid == paid;
      }
      if MentionedIn(ms, paid) {
        var i :| 0 <= i < |ms| && ms[i].paid == paid;
        assert i == |front| || front[i].paid == paid;
      }
    }
  }

  /** Touching a row that already has all these timestamps only rewrites `updated_at`. */
  lemma {:induction false} TouchedByAgain(row: Option<Agent>, ms: seq<Touch>, paid: string)
    requires row.Some?
    requires forall i :: 0 <= i < |ms| && ms[i].paid == paid ==> ms[i].ts <= row.value.lastSeen
    requires MentionedIn(ms, paid) ==> row.value.status != "stale" && row.value.status != "offline"
    ensures TouchedBy(row, ms, paid).Some?
    ensures TouchedBy(row, ms, paid).value.(updatedAt := row.value.updatedAt) == row.value
    decreases |ms|
  {
    if ms != [] {
      var front := ms[..|ms| - 1];
      if MentionedIn(front, paid) {
        var i :| 0 <= i < |front| && front[i].paid == paid;
        assert ms[i].paid == paid;
      }
      if ms[|ms| - 1].paid == paid { assert MentionedIn(ms, paid); }
      forall i | 0 <= i < |front| && front[i].paid == paid ensures front[i].ts <= row.value.lastSeen {
        assert front[i] == ms[i];
      }
      TouchedByAgain(row, front, paid);
    }
  }

  lemma {:induction false} TouchedByUpdatedAt(r1: Option<Agent>, r2: Option<Agent>, ms: seq<Touch>, paid: string)
    requires r1.Some? && r2.Some? && MentionedIn(ms, paid)
    ensures TouchedBy(r1, ms, paid).Some? && TouchedBy(r2, ms, paid).Some?
    ensures TouchedBy(r1, ms, paid).value.updatedAt == TouchedBy(r2, ms, paid).value.updatedAt
    decreases |ms|
  {
    TouchedByBounds(r1, ms, paid);
    TouchedByBounds(r2, ms, paid);
    var front := ms[..|ms| - 1];
    TouchedByBounds(r1, front, paid);
    TouchedByBounds(r2, front, paid);
    if ms[|ms| - 1].paid != paid {
      var i :| 0 <= i < |ms| && ms[i].paid == paid;
      assert front[i].paid == paid;
      TouchedByUpdatedAt(r1, r2, front, paid);
    }
  }

  /** Touching twice is touching once. */
  lemma TouchedByTwice(row: Option<Agent>, ms: seq<Touch>, paid: string)
    ensures TouchedBy(TouchedBy(row, ms, paid), ms, paid) == TouchedBy(row, ms, paid)
  {
    if row.Some? {
      TouchedByBounds(row, ms, paid);
      var once := TouchedBy(row, ms, paid);
      TouchedByAgain(once, ms, paid);
      TouchedByBounds(once, ms, paid);
      if MentionedIn(ms, paid) { TouchedByUpdatedAt(row, once, ms, paid); }
    } else {
      TouchedByNone(ms, paid);
    }
  }

  lemma {:induction false} TouchedByNone(ms: seq<Touch>, paid: string)
    ensures TouchedBy(None, ms, paid) == None
    decreases |ms|
  {
    if ms != [] { TouchedByNone(ms[..|ms| - 1], paid); }
  }

  /** The two agent phases, run twice in a row, are idempotent on every row. */
  lemma AgentRowTwice(row: Option<Agent>, us: seq<Upsert>, ms: seq<Touch>, paid: string)
    ensures var once := TouchedBy(Merged(row, us), ms, paid);
            TouchedBy(Merged(once, us), ms, paid) == once
  {
    if us == [] {
      TouchedByTwice(row, ms, paid);
    } else {
      TouchedByBounds(Merged(row, us), ms, paid);
      MergedAgain(row, us, TouchedBy(Merged(row, us), ms, paid));
    }
  }

  lemma SameRowsSameTable(t: Agents, u: Agents)
    requires forall paid :: Lookup(t, paid) == Lookup(u, paid)
    ensures t == u
  {
    forall paid | paid in t ensures paid in u && t[paid] == u[paid] { assert Lookup(t, paid) == Lookup(u, paid); }
    forall paid | paid in u ensures paid in t { assert Lookup(t, paid) == Lookup(u, paid); }
  }

  lemma {:induction false} UpsertAllAppend(t: Agents, xs: seq<Upsert>, ys: seq<Upsert>)
    ensures UpsertAll(t, xs + ys) == UpsertAll(UpsertAll(t, xs), ys)
    decreases |ys|
  {
    if ys == [] { assert xs + ys == xs; }
    else {
      assert (xs + ys)[..|xs + ys| - 1] == xs + ys[..|ys| - 1];
      UpsertAllAppend(t, xs, ys[..|ys| - 1]);
    }
  }

  lemma {:induction false} TouchAllAppend(t: Agents, xs: seq<Touch>, ys: seq<Touch>)
    ensures TouchAll(t, xs + ys) == TouchAll(TouchAll(t, xs), ys)
    decreases |ys|
  {
    if ys == [] { assert xs + ys == xs; }
    else {
      assert (xs + ys)[..|xs + ys| - 1] == xs + ys[..|ys| - 1];
      TouchAllAppend(t, xs, ys[..|ys| - 1]);
    }
  }

  predicate Unique(ms: seq<Touch>) {
    forall i, j :: 0 <= i < j < |ms| ==> ms[i].paid != ms[j].paid
  }

  /** `paid` is touched, and only at `ts` or later. */
  predicate TouchedFrom(ms: seq<Touch>, paid: string, ts: int) {
    MentionedIn(ms, paid) && forall i :: 0 <= i < |ms| && ms[i].paid == paid ==> ms[i].ts >= ts
  }

  lemma {:induction false} NotedUnique(seen: seq<Touch>, paid: string, ts: int)
    requires Unique(seen)
    ensures Unique(Noted(seen, paid, ts)) && TouchedFrom(Noted(seen, paid, ts), paid, ts)
    ensures forall m :: m in Noted(seen, paid, ts) ==> m.paid == paid || m in seen
  {
    var now := Noted(seen, paid, ts);
    if seen == [] || seen[0].paid == paid {
      assert now[0].paid == paid && now[0].ts >= ts;
      if seen != [] { assert seen == [seen[0]] + seen[1..]; }
    } else {
      NotedUnique(seen[1..], paid, ts);
      var later := Noted(seen[1..], paid, ts);
      assert now == [seen[0]] + later;
      var i :| 0 <= i < |later| && later[i].paid == paid;
      assert now[i + 1].paid == paid;
      forall m | m in later ensures m.paid != seen[0].paid {
        if m in seen[1..] { var k :| 0 <= k < |seen[1..]| && seen[1..][k] == m; assert seen[k + 1] == m; }
      }
    }
  }

  lemma {:induction false} NotedKeeps(seen: seq<Touch>, paid: string, ts: int, other: string, from: int)
    requires TouchedFrom(seen, other, from)
    ensures TouchedFrom(Noted(seen, paid, ts), other, from)
  {
    var now := Noted(seen, paid, ts);
    if seen[0].paid == paid {
      var i :| 0 <= i < |seen| && seen[i].paid == other;
      assert now[i].paid == other;
    } else {
      var later := Noted(seen[1..], paid, ts);
      assert now == [seen[0]] + later;
      if MentionedIn(seen[1..], other) {
        NotedKeeps(seen[1..], paid, ts, other, from);
        var i :| 0 <= i < |later| && later[i].paid == other;
        assert now[i + 1].paid == other;
      } else {
        NotedOther(seen[1..], paid, ts, other);
        assert now[0].paid == other;
      }
    }
  }

  lemma {:induction false} NotedOther(seen: seq<Touch>, paid: string, ts: int, other: string)
    requires !MentionedIn(seen, other)
    ensures forall i :: 0 <= i < |Noted(seen, paid, ts)| ==>
              Noted(seen, paid, ts)[i].paid == other ==> paid == other && Noted(seen, paid, ts)[i].ts >= ts
  {
    if seen != [] && seen[0].paid != paid {
      NotedOther(seen[1..], paid, ts, other);
    }
  }

  lemma {:induction false} TouchedByAtLeast(row: Option<Agent>, ms: seq<Touch>, paid: string, ts: int)
    requires row.Some? && TouchedFrom(ms, paid, ts)
    ensures TouchedBy(row, ms, paid).Some? && TouchedBy(row, ms, paid).value.updatedAt >= ts
    decreases |ms|
  {
    var front := ms[..|ms| - 1];
    TouchedByBounds(row, front, paid);
    if ms[|ms| - 1].paid != paid {
      var i :| 0 <= i < |ms| && ms[i].paid == paid;
      assert front[i].paid == paid;
      TouchedByAtLeast(row, front, paid, ts);
    }
  }
}
