/** What a batch leaves in the two tables, column by column and event by event. */
module StoredColumns {
  import opened AgentRows
  import opened Options
  import opened PgWriter

  // ---- the events table ----

  predicate LowerCased(x: string, s: string) {
    |x| == |s| && forall i :: 0 <= i < |s| ==> x[i] == if 'A' <= s[i] <= 'Z' then (s[i] as int + 32) as char else s[i]
  }

  predicate SeverityColumn(x: string, e: Record) {
    if e.eventType == "AGENT_DISCOVERED" then x == "medium"
    else if e.eventType == "AGENT_TERMINATED" then x == "high"
    else LowerCased(x, if e.severity.Some? then e.severity.value else "info")
  }

  /** The event's own timestamp, or the clock's when it cannot be parsed. */
  predicate TimeColumn(x: int, e: Record, now: int) {
    match e.stamp
    case Parsed(t) => x == t
    case Unparseable => x == now
  }

  /** The row says what the event says. */
  predicate Tells(r: Row, e: Record, now: int) {
    && e.id == Some(r.id) && r.tenant == e.tenant && r.agent == e.agent && r.sensor == e.sensor
    && r.eventType == e.eventType && SeverityColumn(r.severity, e) && TimeColumn(r.ts, e, now)
    && r.payload == e
  }

  lemma RowTells(e: Record, now: int)
    requires e.id.Some?
    ensures Tells(RowOf(e, now), e, now)
  {
  }

  /** Two rows that tell one event agree. */
  lemma TellsOnce(r: Row, r': Row, e: Record, now: int)
    requires Tells(r, e, now) && Tells(r', e, now)
    ensures r == r'
  {
    assert r.severity == r'.severity;
  }

  lemma {:induction false} RowsTell(events: seq<Record>, clock: Clock, n: nat, k: nat) returns (i: nat)
    requires n <= |events| && k < |RowsOf(events, clock, n)|
    ensures i < n && Tells(RowsOf(events, clock, n)[k], events[i], clock(Inserting, i))
  {
    if k < |RowsOf(events, clock, n - 1)| {
      i := RowsTell(events, clock, n - 1, k);
    } else {
      i := n - 1;
    }
  }

  /** Every new row is that of an event of the batch, each column the event's field. */
  lemma NewRowTells(db: Db, events: seq<Record>, clock: Clock, key: Key) returns (i: nat)
    requires key in Process(db, events, clock).events && key !in db.events
    ensures i < |events| && Tells(Process(db, events, clock).events[key], events[i], clock(Inserting, i))
    ensures events[i].id == Some(key.0) && TimeColumn(key.1, events[i], clock(Inserting, i))
  {
    var rows := RowsOf(events, clock, |events|);
    var k := FirstWins(db.events, rows, key);
    i := RowsTell(events, clock, |events|, k);
  }

  /** And every event with an id has one under its id and timestamp, unless there was one
      before; those stay as they were. */
  lemma EventHasRow(db: Db, events: seq<Record>, clock: Clock, i: nat, t: int)
    requires i < |events| && events[i].id.Some? && TimeColumn(t, events[i], clock(Inserting, i))
    ensures (events[i].id.value, t) in Process(db, events, clock).events
    ensures forall key :: key in db.events ==>
              key in Process(db, events, clock).events && Process(db, events, clock).events[key] == db.events[key]
  {
    var rows := RowsOf(events, clock, |events|);
    RowPresent(events, clock, i, |events|);
    InsertAllKeeps(db.events, rows);
    var r := RowOf(events[i], clock(Inserting, i));
    var k :| 0 <= k < |rows| && rows[k] == r;
    assert KeyOf(rows[k]) == (events[i].id.value, t);
  }

  // ---- the agents table: discoveries ----

  /** The event discovers this agent. */
  predicate Announces(e: Record, paid: string) {
    && e.id.Some? && e.eventType == "AGENT_DISCOVERED" && e.tenant.Some?
    && (if e.lifecycle.paid.Some? then e.lifecycle.paid.value == paid else e.agent == Some(paid))
  }

  /** What the last discovery among the first n events that knows this field says, or else
      what was there before. */
  function Latest<T>(events: seq<Record>, n: nat, paid: string, field: Record -> Option<T>, before: Option<T>): Option<T>
    requires n <= |events|
  {
    if n == 0 then before
    else if Announces(events[n - 1], paid) && field(events[n - 1]).Some? then field(events[n - 1])
    else Latest(events, n - 1, paid, field, before)
  }

  /** The k-th event discovers the agent and knows the field, and no later discovery does. */
  predicate KnownLast<T>(events: seq<Record>, n: nat, paid: string, field: Record -> Option<T>, k: nat)
    requires k < n <= |events|
  {
    && Announces(events[k], paid) && field(events[k]).Some?
    && forall j :: k < j < n && Announces(events[j], paid) ==> field(events[j]).None?
  }

  lemma {:induction false} LatestIs<T>(events: seq<Record>, n: nat, paid: string, field: Record -> Option<T>,
                                       before: Option<T>, k: nat)
    requires n <= |events|
    ensures k < n && KnownLast(events, n, paid, field, k) ==> Latest(events, n, paid, field, before) == field(events[k])
    ensures (forall j :: 0 <= j < n && Announces(events[j], paid) ==> field(events[j]).None?)
            ==> Latest(events, n, paid, field, before) == before
  {
    if n > 0 { LatestIs(events, n - 1, paid, field, before, k); }
  }

  function Framework(e: Record): Option<string> { e.lifecycle.framework }
  function ExePath(e: Record): Option<string> { e.lifecycle.exePath }
  function Pid(e: Record): Option<int> { e.lifecycle.pid }
  function Sensor(e: Record): Option<string> { e.sensor }

  /** What the upserts of one agent among the first n events are. */
  lemma {:induction false} DiscoveryNext(events: seq<Record>, clock: Clock, paid: string, n: nat)
    requires 0 < n <= |events|
    ensures Discovers(events[n - 1]) && PaidOf(events[n - 1]).value == paid <==> Announces(events[n - 1], paid)
    ensures UpsertsFor(UpsertsOf(events, clock, n), paid)
            == UpsertsFor(UpsertsOf(events, clock, n - 1), paid)
               + if Announces(events[n - 1], paid) then [UpsertOf(events[n - 1], clock(Upserting, n - 1))] else []
  {
    var before, e := UpsertsOf(events, clock, n - 1), events[n - 1];
    if Discovers(e) {
      var us := UpsertsOf(events, clock, n);
      assert us == before + [UpsertOf(e, clock(Upserting, n - 1))] && us[..|us| - 1] == before;
    }
    assert UpsertsFor(before, paid) + [] == UpsertsFor(before, paid);
  }

  predicate FirstDiscovery(events: seq<Record>, paid: string, i: nat) {
    i < |events| && Announces(events[i], paid) && forall j :: 0 <= j < i ==> !Announces(events[j], paid)
  }

  predicate LastDiscovery(events: seq<Record>, n: nat, paid: string, i: nat)
    requires n <= |events|
  {
    i < n && Announces(events[i], paid) && forall j :: i < j < n ==> !Announces(events[j], paid)
  }

  /** Created by the first of the discoveries if it is new, seen at the last. */
  predicate Dated(a: Agent, row: Option<Agent>, events: seq<Record>, clock: Clock, paid: string, n: nat,
                  first: nat, last: nat)
    requires n <= |events|
  {
    && FirstDiscovery(events, paid, first) && LastDiscovery(events, n, paid, last)
    && (if row.Some? then a.tenant == row.value.tenant && a.firstSeen == row.value.firstSeen
        else Some(a.tenant) == events[first].tenant && TimeColumn(a.firstSeen, events[first], clock(Upserting, first)))
    && TimeColumn(a.lastSeen, events[last], clock(Upserting, last)) && a.updatedAt == a.lastSeen
    && a.status == "active"
  }

  /** An agent after the discoveries among the first n events: each known field the latest known. */
  predicate Discovered(a: Agent, row: Option<Agent>, events: seq<Record>, clock: Clock, paid: string, n: nat,
                       first: nat, last: nat)
    requires n <= |events|
  {
    Dated(a, row, events, clock, paid, n, first, last) && KnownFields(a, row, events, paid, n)
  }

  predicate KnownFields(a: Agent, row: Option<Agent>, events: seq<Record>, paid: string, n: nat)
    requires n <= |events|
  {
    && a.framework == Latest(events, n, paid, Framework, if row.Some? then row.value.framework else None)
    && a.exePath == Latest(events, n, paid, ExePath, if row.Some? then row.value.exePath else None)
    && a.pid == Latest(events, n, paid, Pid, if row.Some? then row.value.pid else None)
    && a.sensor == Latest(events, n, paid, Sensor, if row.Some? then row.value.sensor else None)
  }

  predicate NeverAnnounced(events: seq<Record>, n: nat, paid: string)
    requires n <= |events|
  {
    forall i :: 0 <= i < n ==> !Announces(events[i], paid)
  }

  lemma KnownFieldsNext(a: Agent, row: Option<Agent>, events: seq<Record>, paid: string, n: nat, u: Upsert)
    requires 0 < n <= |events| && Announces(events[n - 1], paid)
    requires u.framework == events[n - 1].lifecycle.framework && u.exePath == events[n - 1].lifecycle.exePath
    requires u.pid == events[n - 1].lifecycle.pid && u.sensor == events[n - 1].sensor
    requires KnownFields(a, row, events, paid, n - 1)
    ensures KnownFields(Upserted(Some(a), u), row, events, paid, n)
  {
  }

  lemma KnownFieldsKeep(a: Agent, row: Option<Agent>, events: seq<Record>, paid: string, n: nat)
    requires 0 < n <= |events| && !Announces(events[n - 1], paid) && KnownFields(a, row, events, paid, n - 1)
    ensures KnownFields(a, row, events, paid, n)
  {
  }

  lemma {:induction false} NothingKnownYet<T>(events: seq<Record>, n: nat, paid: string, field: Record -> Option<T>,
                                              before: Option<T>)
    requires n <= |events| && NeverAnnounced(events, n, paid)
    ensures Latest(events, n, paid, field, before) == before
  {
    if n > 0 { NothingKnownYet(events, n - 1, paid, field, before); }
  }

  /** The first discovery fills a row in, or creates it. */
  lemma FirstKnownFields(row: Option<Agent>, events: seq<Record>, paid: string, n: nat, u: Upsert)
    requires 0 < n <= |events| && NeverAnnounced(events, n - 1, paid) && Announces(events[n - 1], paid)
    requires u.framework == events[n - 1].lifecycle.framework && u.exePath == events[n - 1].lifecycle.exePath
    requires u.pid == events[n - 1].lifecycle.pid && u.sensor == events[n - 1].sensor
    ensures KnownFields(Upserted(row, u), row, events, paid, n)
  {
    NothingKnownYet(events, n - 1, paid, Framework, if row.Some? then row.value.framework else None);
    NothingKnownYet(events, n - 1, paid, ExePath, if row.Some? then row.value.exePath else None);
    NothingKnownYet(events, n - 1, paid, Pid, if row.Some? then row.value.pid else None);
    NothingKnownYet(events, n - 1, paid, Sensor, if row.Some? then row.value.sensor else None);
  }

  lemma FirstDiscovered(row: Option<Agent>, events: seq<Record>, clock: Clock, paid: string, n: nat)
    requires 0 < n <= |events| && NeverAnnounced(events, n - 1, paid) && Announces(events[n - 1], paid)
    ensures var u := UpsertOf(events[n - 1], clock(Upserting, n - 1));
            Discovered(Upserted(row, u), row, events, clock, paid, n, n - 1, n - 1)
  {
    FirstKnownFields(row, events, paid, n, UpsertOf(events[n - 1], clock(Upserting, n - 1)));
  }

  lemma NextDiscovered(a: Agent, row: Option<Agent>, events: seq<Record>, clock: Clock, paid: string, n: nat,
                       first: nat, last: nat)
    requires 0 < n <= |events| && Discovered(a, row, events, clock, paid, n - 1, first, last)
    requires Announces(events[n - 1], paid)
    ensures var u := UpsertOf(events[n - 1], clock(Upserting, n - 1));
            Discovered(Upserted(Some(a), u), row, events, clock, paid, n, first, n - 1)
  {
    KnownFieldsNext(a, row, events, paid, n, UpsertOf(events[n - 1], clock(Upserting, n - 1)));
  }

  lemma StillDated(a: Agent, row: Option<Agent>, events: seq<Record>, clock: Clock, paid: string, n: nat,
                   first: nat, last: nat)
    requires 0 < n <= |events| && Dated(a, row, events, clock, paid, n - 1, first, last)
    requires !Announces(events[n - 1], paid)
    ensures Dated(a, row, events, clock, paid, n, first, last)
  {
  }

  /** What the discoveries among the first n events leave of a row. */
  predicate Leaves(a: Option<Agent>, row: Option<Agent>, events: seq<Record>, clock: Clock, paid: string, n: nat,
                         first: nat, last: nat)
    requires n <= |events|
  {
    if NeverAnnounced(events, n, paid) then a == row
    else a.Some? && Discovered(a.value, row, events, clock, paid, n, first, last)
  }

  lemma OneMoreEvent(a: Option<Agent>, row: Option<Agent>, events: seq<Record>, clock: Clock, paid: string, n: nat,
                     first: nat, last: nat) returns (first': nat, last': nat)
    requires 0 < n <= |events| && Leaves(a, row, events, clock, paid, n - 1, first, last)
    ensures if Announces(events[n - 1], paid) then
              Leaves(Some(Upserted(a, UpsertOf(events[n - 1], clock(Upserting, n - 1)))), row, events, clock, paid, n, first', last')
            else Leaves(a, row, events, clock, paid, n, first', last')
  {
    first', last' := first, last;
    if Announces(events[n - 1], paid) {
      last' := n - 1;
      if NeverAnnounced(events, n - 1, paid) {
        first' := n - 1;
        FirstDiscovered(row, events, clock, paid, n);
      } else {
        NextDiscovered(a.value, row, events, clock, paid, n, first, last);
      }
    } else if !NeverAnnounced(events, n - 1, paid) {
      StillDated(a.value, row, events, clock, paid, n, first, last);
      KnownFieldsKeep(a.value, row, events, paid, n);
    }
  }

  lemma {:induction false} DiscoveredSoFar(row: Option<Agent>, events: seq<Record>, clock: Clock, paid: string, n: nat)
    returns (first: nat, last: nat)
    requires n <= |events|
    ensures Leaves(Merged(row, UpsertsFor(UpsertsOf(events, clock, n), paid)), row, events, clock, paid, n, first, last)
  {
    first, last := 0, 0;
    if n > 0 {
      first, last := DiscoveredSoFar(row, events, clock, paid, n - 1);
      var us := UpsertsFor(UpsertsOf(events, clock, n - 1), paid);
      DiscoveryNext(events, clock, paid, n);
      first, last := OneMoreEvent(Merged(row, us), row, events, clock, paid, n, first, last);
      if Announces(events[n - 1], paid) {
        MergedOne(row, us, UpsertOf(events[n - 1], clock(Upserting, n - 1)));
      } else {
        assert us + [] == us;
      }
    }
  }

  // ---- the agents table: activity ----

  predicate Mentions(events: seq<Record>, paid: string) {
    exists i :: 0 <= i < |events| && events[i].agent == Some(paid)
  }

  /** `x` is the latest time of an event of this agent. */
  ghost predicate LatestSeen(x: int, events: seq<Record>, clock: Clock, paid: string) {
    && (exists i :: 0 <= i < |events| && events[i].agent == Some(paid) && TimeColumn(x, events[i], clock(Touching, i)))
    && forall i, t: int ::
         0 <= i < |events| && events[i].agent == Some(paid) && TimeColumn(t, events[i], clock(Touching, i)) ==> t <= x
  }

  lemma {:induction false} NotedFrom(seen: seq<Touch>, paid: string, ts: int, k: nat)
    requires k < |Noted(seen, paid, ts)|
    ensures Noted(seen, paid, ts)[k] in seen || Noted(seen, paid, ts)[k] == Touch(paid, ts)
    decreases |seen|
  {
    if seen != [] && seen[0].paid != paid && k > 0 {
      NotedFrom(seen[1..], paid, ts, k - 1);
    }
  }

  lemma {:induction false} TouchSource(events: seq<Record>, clock: Clock, n: nat, k: nat) returns (i: nat)
    requires n <= |events| && k < |TouchesOf(events, clock, n)|
    ensures var m := TouchesOf(events, clock, n)[k];
            i < n && events[i].agent == Some(m.paid) && TimeColumn(m.ts, events[i], clock(Touching, i))
  {
    var before, e, m := TouchesOf(events, clock, n - 1), events[n - 1], TouchesOf(events, clock, n)[k];
    if e.agent.Some? { NotedFrom(before, e.agent.value, StampOf(e.stamp, clock(Touching, n - 1)), k); }
    if m in before {
      var j :| 0 <= j < |before| && before[j] == m;
      i := TouchSource(events, clock, n - 1, j);
    } else {
      i := n - 1;
    }
  }

  lemma {:induction false} TouchedOnce(row: Agent, ms: seq<Touch>, paid: string, k: nat)
    requires Unique(ms) && k < |ms| && ms[k].paid == paid
    ensures TouchedBy(Some(row), ms, paid) == Some(Touched(row, ms[k].ts))
    decreases |ms|
  {
    var front := ms[..|ms| - 1];
    if k < |front| {
      assert front[k] == ms[k];
      TouchedOnce(row, front, paid, k);
    } else {
      assert forall i :: 0 <= i < |front| ==> front[i] == ms[i];
      TouchedByBounds(Some(row), front, paid);
    }
  }

  /** The list of touches has the latest time of each agent that the events mention. */
  lemma TouchIsLatest(events: seq<Record>, clock: Clock, paid: string) returns (k: nat)
    ensures var ms := TouchesOf(events, clock, |events|);
            && Unique(ms) && (MentionedIn(ms, paid) <==> Mentions(events, paid))
            && (Mentions(events, paid) ==> k < |ms| && ms[k].paid == paid && LatestSeen(ms[k].ts, events, clock, paid))
  {
    var ms := TouchesOf(events, clock, |events|);
    TouchesReach(events, clock, 0, |events|);
    k := 0;
    if Mentions(events, paid) {
      var i :| 0 <= i < |events| && events[i].agent == Some(paid);
      TouchesReach(events, clock, i, |events|);
      k :| 0 <= k < |ms| && ms[k].paid == paid;
      var from := TouchSource(events, clock, |events|, k);
      forall j, t: int | 0 <= j < |events| && events[j].agent == Some(paid) && TimeColumn(t, events[j], clock(Touching, j))
        ensures t <= ms[k].ts
      {
        TouchesReach(events, clock, j, |events|);
      }
    } else if MentionedIn(ms, paid) {
      var j :| 0 <= j < |ms| && ms[j].paid == paid;
      var from := TouchSource(events, clock, |events|, j);
    }
  }

  /** An agent as the events of it leave it: seen at their latest time or later, and back
      to active from stale or offline. */
  predicate Seen(a: Agent, before: Agent, x: int) {
    && a.lastSeen == (if before.lastSeen < x then x else before.lastSeen) && a.updatedAt == x
    && a.status == (if before.status == "stale" || before.status == "offline" then "active" else before.status)
    && a.tenant == before.tenant && a.framework == before.framework && a.exePath == before.exePath
    && a.pid == before.pid && a.sensor == before.sensor && a.firstSeen == before.firstSeen
  }

  /** Every agent after a batch with something to insert: there if it was there or is
      discovered, as its discoveries leave it, and then seen at its latest event. */
  lemma AgentColumns(db: Db, events: seq<Record>, clock: Clock, paid: string)
    returns (mid: Option<Agent>, first: nat, last: nat, x: int)
    requires exists i :: 0 <= i < |events| && events[i].id.Some?
    ensures if NeverAnnounced(events, |events|, paid) then mid == Lookup(db.agents, paid)
            else mid.Some?
                 && Discovered(mid.value, Lookup(db.agents, paid), events, clock, paid, |events|, first, last)
    ensures var t := Process(db, events, clock).agents;
            && (paid in t <==> mid.Some?)
            && (paid in t && !Mentions(events, paid) ==> t[paid] == mid.value)
            && (paid in t && Mentions(events, paid) ==> LatestSeen(x, events, clock, paid) && Seen(t[paid], mid.value, x))
  {
    var us, ms := UpsertsOf(events, clock, |events|), TouchesOf(events, clock, |events|);
    var i :| 0 <= i < |events| && events[i].id.Some?;
    RowPresent(events, clock, i, |events|);
    UpsertAllRow(db.agents, us, paid);
    TouchAllRow(UpsertAll(db.agents, us), ms, paid);
    mid := Merged(Lookup(db.agents, paid), UpsertsFor(us, paid));
    first, last := DiscoveredSoFar(Lookup(db.agents, paid), events, clock, paid, |events|);
    var k := TouchIsLatest(events, clock, paid);
    x := 0;
    if mid.None? {
      TouchedByNone(ms, paid);
    } else if Mentions(events, paid) {
      x := ms[k].ts;
      TouchedOnce(mid.value, ms, paid, k);
    } else {
      TouchedByBounds(mid, ms, paid);
    }
  }

  /** Without an event to insert nothing is written at all. */
  lemma NothingToInsert(db: Db, events: seq<Record>, clock: Clock)
    requires forall i :: 0 <= i < |events| ==> events[i].id.None?
    ensures Process(db, events, clock) == db
  {
    NoIdsNoRows(events, clock, |events|);
  }
}
