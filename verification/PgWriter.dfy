/** The Postgres writer: one batch becomes a list of statements, and running
    that list again, whole or in part, changes nothing. */
module PgWriter {
  import opened AgentRows
  import opened Options

  /** `Unparseable` timestamps are replaced by the clock at the moment of parsing. */
  datatype Stamp = Parsed(t: int) | Unparseable

  datatype Lifecycle = Lifecycle(paid: Option<string>, framework: Option<string>,
                                 exePath: Option<string>, pid: Option<int>)

  /** The fields the writer reads; a missing or empty value is None. */
  datatype Record = Record(
    id: Option<string>, eventType: string, severity: Option<string>,
    tenant: Option<string>, agent: Option<string>, sensor: Option<string>,
    stamp: Stamp, lifecycle: Lifecycle)

  datatype Row = Row(id: string, tenant: Option<string>, agent: Option<string>, sensor: Option<string>,
                     eventType: string, severity: string, ts: int, payload: Record)

  type Key = (string, int)
  type Events = map<Key, Row>

  datatype Phase = Inserting | Upserting | Touching
  /** What the clock says when a timestamp of the i-th event is parsed in each phase. */
  type Clock = (Phase, nat) -> int

  // ---- building the statements ----

  function StampOf(s: Stamp, now: int): int {
    if s.Parsed? then s.t else now
  }

  function Lower(s: string): string {
    seq(|s|, i requires 0 <= i < |s| => if 'A' <= s[i] <= 'Z' then s[i] - 'A' + 'a' else s[i])
  }

  function SeverityOf(e: Record): string {
    if e.eventType == "AGENT_DISCOVERED" then "medium"
    else if e.eventType == "AGENT_TERMINATED" then "high"
    else Lower(if e.severity.Some? then e.severity.value else "info")
  }

  function RowOf(e: Record, now: int): Row
    requires e.id.Some?
  {
    Row(e.id.value, e.tenant, e.agent, e.sensor, e.eventType, SeverityOf(e), StampOf(e.stamp, now), e)
  }

  function KeyOf(r: Row): Key {
    (r.id, r.ts)
  }

  function RowsOf(events: seq<Record>, clock: Clock, n: nat): seq<Row>
    requires n <= |events|
  {
    if n == 0 then []
    else
      var before := RowsOf(events, clock, n - 1);
      if events[n - 1].id.Some? then before + [RowOf(events[n - 1], clock(Inserting, n - 1))] else before
  }

  /** Whose agent record an AGENT_DISCOVERED event upserts, if any. */
  function PaidOf(e: Record): Option<string> {
    if e.lifecycle.paid.Some? then e.lifecycle.paid else e.agent
  }

  predicate Discovers(e: Record) {
    e.id.Some? && e.eventType == "AGENT_DISCOVERED" && PaidOf(e).Some? && e.tenant.Some?
  }

  function UpsertOf(e: Record, now: int): Upsert
    requires Discovers(e)
  {
    Upsert(PaidOf(e).value, e.tenant.value, e.lifecycle.framework, e.lifecycle.exePath,
           e.lifecycle.pid, e.sensor, StampOf(e.stamp, now))
  }

  function UpsertsOf(events: seq<Record>, clock: Clock, n: nat): seq<Upsert>
    requires n <= |events|
  {
    if n == 0 then []
    else
      var before := UpsertsOf(events, clock, n - 1);
      if Discovers(events[n - 1]) then before + [UpsertOf(events[n - 1], clock(Upserting, n - 1))] else before
  }

  function TouchesOf(events: seq<Record>, clock: Clock, n: nat): seq<Touch>
    requires n <= |events|
  {
    if n == 0 then []
    else
      var before := TouchesOf(events, clock, n - 1);
      var e := events[n - 1];
      if e.agent.Some? then Noted(before, e.agent.value, StampOf(e.stamp, clock(Touching, n - 1))) else before
  }

  // ---- running the statements ----

  /** INSERT ... ON CONFLICT (id, timestamp) DO NOTHING */
  function Insert(t: Events, r: Row): Events {
    if KeyOf(r) in t then t else t[KeyOf(r) := r]
  }

  function InsertAll(t: Events, rows: seq<Row>): Events {
    if rows == [] then t else Insert(InsertAll(t, rows[..|rows| - 1]), rows[|rows| - 1])
  }

  datatype Db = Db(events: Events, agents: Agents)

  /** A whole batch, as `process_batch` leaves the two tables. */
  function Process(db: Db, events: seq<Record>, clock: Clock): Db {
    var rows := RowsOf(events, clock, |events|);
    if rows == [] then db
    else Db(InsertAll(db.events, rows),
            TouchAll(UpsertAll(db.agents, UpsertsOf(events, clock, |events|)), TouchesOf(events, clock, |events|)))
  }

  /** A batch that failed part way: `i` rows, `j` upserts and `k` touches got
      through; nothing is upserted before all rows are in, and so on. */
  predicate IsProgress(events: seq<Record>, clock: Clock, i: nat, j: nat, k: nat) {
    var rows, us := RowsOf(events, clock, |events|), UpsertsOf(events, clock, |events|);
    var ms := TouchesOf(events, clock, |events|);
    && i <= |rows| && j <= |us| && k <= |ms|
    && (j > 0 || k > 0 ==> i == |rows|) && (k > 0 ==> j == |us|)
    && (rows == [] ==> k == 0)
  }

  function Partial(db: Db, events: seq<Record>, clock: Clock, i: nat, j: nat, k: nat): Db
    requires IsProgress(events, clock, i, j, k)
  {
    Db(InsertAll(db.events, RowsOf(events, clock, |events|)[..i]),
       TouchAll(UpsertAll(db.agents, UpsertsOf(events, clock, |events|)[..j]), TouchesOf(events, clock, |events|)[..k]))
  }

  // ---- the events table: first wins ----

  lemma {:induction false} InsertAllAppend(t: Events, xs: seq<Row>, ys: seq<Row>)
    ensures InsertAll(t, xs + ys) == InsertAll(InsertAll(t, xs), ys)
    decreases |ys|
  {
    if ys == [] {
      assert xs + ys == xs;
    } else {
      assert (xs + ys)[..|xs + ys| - 1] == xs + ys[..|ys| - 1];
      InsertAllAppend(t, xs, ys[..|ys| - 1]);
    }
  }

  /** The table only grows and holds every inserted key. */
  lemma {:induction false} InsertAllKeeps(t: Events, rows: seq<Row>)
    ensures forall key :: key in t ==> key in InsertAll(t, rows) && InsertAll(t, rows)[key] == t[key]
    ensures forall i :: 0 <= i < |rows| ==> KeyOf(rows[i]) in InsertAll(t, rows)
    decreases |rows|
  {
    if rows != [] {
      var front := rows[..|rows| - 1];
      InsertAllKeeps(t, front);
      forall i | 0 <= i < |rows| ensures KeyOf(rows[i]) in InsertAll(t, rows) {
        if i < |front| { assert rows[i] == front[i]; }
      }
    }
  }

  /** A new key holds the first row inserted under it. */
  lemma {:induction false} FirstWins(t: Events, rows: seq<Row>, key: Key) returns (i: nat)
    requires key in InsertAll(t, rows) && key !in t
    ensures i < |rows| && KeyOf(rows[i]) == key && InsertAll(t, rows)[key] == rows[i]
    ensures forall j :: 0 <= j < i ==> KeyOf(rows[j]) != key
    decreases |rows|
  {
    var front := rows[..|rows| - 1];
    if key in InsertAll(t, front) {
      i := FirstWins(t, front, key);
      assert forall j :: 0 <= j < |front| ==> rows[j] == front[j];
    } else {
      i := |rows| - 1;
      InsertAllKeeps(t, front);
      forall j | 0 <= j < i ensures KeyOf(rows[j]) != key { assert rows[j] == front[j]; }
    }
  }

  lemma {:induction false} InsertAllPresent(t: Events, rows: seq<Row>)
    requires forall i :: 0 <= i < |rows| ==> KeyOf(rows[i]) in t
    ensures InsertAll(t, rows) == t
    decreases |rows|
  {
    if rows != [] {
      var front := rows[..|rows| - 1];
      forall i | 0 <= i < |front| ensures KeyOf(front[i]) in t { assert front[i] == rows[i]; }
      InsertAllPresent(t, front);
    }
  }

  /** Inserting part of the rows and then all of them is inserting them all. */
  lemma InsertPrefixAbsorbed(t: Events, rows: seq<Row>, i: nat)
    requires i <= |rows|
    ensures InsertAll(InsertAll(t, rows[..i]), rows) == InsertAll(t, rows)
  {
    var once := InsertAll(t, rows[..i]);
    InsertAllKeeps(t, rows[..i]);
    InsertAllPresent(once, rows[..i]);
    InsertAllAppend(once, rows[..i], rows[i..]);
    InsertAllAppend(t, rows[..i], rows[i..]);
    assert rows == rows[..i] + rows[i..];
  }

  // ---- the agents table ----

  lemma AgentsTwice(t: Agents, us: seq<Upsert>, ms: seq<Touch>)
    ensures var once := TouchAll(UpsertAll(t, us), ms);
            TouchAll(UpsertAll(once, us), ms) == once
  {
    var once := TouchAll(UpsertAll(t, us), ms);
    forall paid
      ensures Lookup(TouchAll(UpsertAll(once, us), ms), paid) == Lookup(once, paid)
    {
      UpsertAllRow(t, us, paid);
      TouchAllRow(UpsertAll(t, us), ms, paid);
      UpsertAllRow(once, us, paid);
      TouchAllRow(UpsertAll(once, us), ms, paid);
      AgentRowTwice(Lookup(t, paid), UpsertsFor(us, paid), ms, paid);
    }
    SameRowsSameTable(TouchAll(UpsertAll(once, us), ms), once);
  }

  lemma UpsertPrefixAbsorbed(t: Agents, us: seq<Upsert>, more: seq<Upsert>)
    ensures UpsertAll(UpsertAll(t, us), us + more) == UpsertAll(t, us + more)
  {
    AgentsTwice(t, us, []);
    UpsertAllAppend(UpsertAll(t, us), us, more);
    UpsertAllAppend(t, us, more);
  }

  lemma TouchPrefixAbsorbed(t: Agents, us: seq<Upsert>, ms: seq<Touch>, more: seq<Touch>)
    ensures var part := TouchAll(UpsertAll(t, us), ms);
            TouchAll(UpsertAll(part, us), ms + more) == TouchAll(UpsertAll(t, us), ms + more)
  {
    var part := TouchAll(UpsertAll(t, us), ms);
    AgentsTwice(t, us, ms);
    TouchAllAppend(UpsertAll(part, us), ms, more);
    TouchAllAppend(UpsertAll(t, us), ms, more);
  }

  /** Running a prefix of the agent statements first changes nothing. */
  lemma AgentPrefixAbsorbed(t: Agents, us: seq<Upsert>, ms: seq<Touch>, j: nat, k: nat)
    requires j <= |us| && k <= |ms| && (k > 0 ==> j == |us|)
    ensures TouchAll(UpsertAll(TouchAll(UpsertAll(t, us[..j]), ms[..k]), us), ms) == TouchAll(UpsertAll(t, us), ms)
  {
    if k == 0 {
      assert us == us[..j] + us[j..] && ms[..k] == [];
      UpsertPrefixAbsorbed(t, us[..j], us[j..]);
    } else {
      assert us[..j] == us && ms == ms[..k] + ms[k..];
      TouchPrefixAbsorbed(t, us, ms[..k], ms[k..]);
    }
  }

  // ---- redelivery and retries are absorbed ----

  /** The timestamps that get into a statement parse: those of events with an id,
      which are inserted, and of events with an agent, which touch it. */
  predicate UsedStampsParse(events: seq<Record>) {
    forall i :: 0 <= i < |events| && (events[i].id.Some? || events[i].agent.Some?) ==> events[i].stamp.Parsed?
  }

  lemma {:induction false} StatementsIgnoreClock(events: seq<Record>, c1: Clock, c2: Clock, n: nat)
    requires n <= |events| && UsedStampsParse(events)
    ensures RowsOf(events, c1, n) == RowsOf(events, c2, n)
    ensures UpsertsOf(events, c1, n) == UpsertsOf(events, c2, n)
    ensures TouchesOf(events, c1, n) == TouchesOf(events, c2, n)
  {
    if n > 0 { StatementsIgnoreClock(events, c1, c2, n - 1); }
  }

  /** An attempt that got any part of the way, then a complete one at any later
      time, leave both tables as the complete one alone. */
  lemma FailedAttemptAbsorbed(db: Db, events: seq<Record>, c1: Clock, c2: Clock, i: nat, j: nat, k: nat)
    requires UsedStampsParse(events) && IsProgress(events, c1, i, j, k)
    ensures Process(Partial(db, events, c1, i, j, k), events, c2) == Process(db, events, c2)
  {
    StatementsIgnoreClock(events, c1, c2, |events|);
    var us, ms := UpsertsOf(events, c1, |events|), TouchesOf(events, c1, |events|);
    InsertPrefixAbsorbed(db.events, RowsOf(events, c1, |events|), i);
    AgentPrefixAbsorbed(db.agents, us, ms, j, k);
    if RowsOf(events, c1, |events|) == [] {
      NoRowsNoUpserts(events, c1, |events|);
    }
  }

  lemma {:induction false} NoRowsNoUpserts(events: seq<Record>, clock: Clock, n: nat)
    requires n <= |events| && RowsOf(events, clock, n) == []
    ensures UpsertsOf(events, clock, n) == []
  {
    if n > 0 { NoRowsNoUpserts(events, clock, n - 1); }
  }

  /** Redelivering a whole batch is absorbed. */
  lemma RedeliveryAbsorbed(db: Db, events: seq<Record>, c1: Clock, c2: Clock)
    requires UsedStampsParse(events)
    ensures Process(Process(db, events, c1), events, c2) == Process(db, events, c1)
  {
    StatementsIgnoreClock(events, c1, c2, |events|);
    var rows, us, ms := RowsOf(events, c1, |events|), UpsertsOf(events, c1, |events|), TouchesOf(events, c1, |events|);
    assert rows[..|rows|] == rows;
    InsertPrefixAbsorbed(db.events, rows, |rows|);
    AgentsTwice(db.agents, us, ms);
  }

  // ---- exactly when the events table absorbs a redelivery ----

  predicate KeyedStampsParse(events: seq<Record>) {
    forall i :: 0 <= i < |events| && events[i].id.Some? ==> events[i].stamp.Parsed?
  }

  lemma {:induction false} FreshReading(keys: set<Key>, id: string) returns (t: int)
    ensures forall t' :: t' >= t ==> (id, t') !in keys
    decreases |keys|
  {
    t := 0;
    if keys != {} {
      var k :| k in keys;
      t := FreshReading(keys - {k}, id);
      if t <= k.1 { t := k.1 + 1; }
      forall t' | t' >= t ensures (id, t') !in keys { assert (id, t') !in keys - {k}; }
    }
  }

  lemma {:induction false} RowPresent(events: seq<Record>, clock: Clock, i: nat, n: nat)
    requires i < n <= |events| && events[i].id.Some?
    ensures RowOf(events[i], clock(Inserting, i)) in RowsOf(events, clock, n)
  {
    if i < n - 1 { RowPresent(events, clock, i, n - 1); }
  }

  lemma {:induction false} RowsIgnoreClock(events: seq<Record>, c1: Clock, c2: Clock, n: nat)
    requires n <= |events| && KeyedStampsParse(events)
    ensures RowsOf(events, c1, n) == RowsOf(events, c2, n)
  {
    if n > 0 { RowsIgnoreClock(events, c1, c2, n - 1); }
  }

  /** The events table absorbs a redelivery at whatever time it comes if and only
      if every event with an id has a timestamp that parses; one that does not
      is stored again under a new key each time. */
  lemma AbsorbedIffStampsParse(db: Db, events: seq<Record>, c1: Clock)
    ensures (forall c2: Clock :: Process(Process(db, events, c1), events, c2).events == Process(db, events, c1).events)
            <==> KeyedStampsParse(events)
  {
    var once := Process(db, events, c1);
    if KeyedStampsParse(events) {
      forall c2: Clock
        ensures Process(once, events, c2).events == once.events
      {
        RowsIgnoreClock(events, c1, c2, |events|);
        var rows := RowsOf(events, c1, |events|);
        assert rows[..|rows|] == rows;
        InsertPrefixAbsorbed(db.events, rows, |rows|);
      }
    } else {
      var i :| 0 <= i < |events| && events[i].id.Some? && !events[i].stamp.Parsed?;
      var t := FreshReading(once.events.Keys, events[i].id.value);
      var c2: Clock := (p, n) => t;
      RowPresent(events, c2, i, |events|);
      var rows := RowsOf(events, c2, |events|);
      InsertAllKeeps(once.events, rows);
      var r := RowOf(events[i], t);
      var at :| 0 <= at < |rows| && rows[at] == r;
      assert KeyOf(r) in Process(once, events, c2).events && KeyOf(r) !in once.events;
    }
  }

  // ---- exactly when a batch is idempotent ----

  predicate NoIds(events: seq<Record>) {
    forall i :: 0 <= i < |events| ==> events[i].id.None?
  }

  lemma {:induction false} NoIdsNoRows(events: seq<Record>, clock: Clock, n: nat)
    requires n <= |events| && NoIds(events)
    ensures RowsOf(events, clock, n) == []
  {
    if n > 0 { NoIdsNoRows(events, clock, n - 1); }
  }

  lemma {:induction false} TouchesReach(events: seq<Record>, clock: Clock, i: nat, n: nat)
    requires n <= |events|
    ensures Unique(TouchesOf(events, clock, n))
    ensures i < n && events[i].agent.Some? ==>
              TouchedFrom(TouchesOf(events, clock, n), events[i].agent.value, StampOf(events[i].stamp, clock(Touching, i)))
  {
    if n > 0 {
      TouchesReach(events, clock, i, n - 1);
      var before, e := TouchesOf(events, clock, n - 1), events[n - 1];
      if e.agent.Some? {
        var ts := StampOf(e.stamp, clock(Touching, n - 1));
        NotedUnique(before, e.agent.value, ts);
        if i < n - 1 && events[i].agent.Some? {
          NotedKeeps(before, e.agent.value, ts, events[i].agent.value, StampOf(events[i].stamp, clock(Touching, i)));
        }
      }
    }
  }

  /** A known agent is updated no earlier than any of the batch's events of it. */
  lemma UpdatedAtLeast(db: Db, events: seq<Record>, clock: Clock, i: nat)
    requires i < |events| && events[i].agent.Some? && events[i].agent.value in db.agents && !NoIds(events)
    ensures var paid, t := events[i].agent.value, Process(db, events, clock).agents;
            paid in t && t[paid].updatedAt >= StampOf(events[i].stamp, clock(Touching, i))
  {
    var paid, us := events[i].agent.value, UpsertsOf(events, clock, |events|);
    var ms := TouchesOf(events, clock, |events|);
    var k :| 0 <= k < |events| && events[k].id.Some?;
    RowPresent(events, clock, k, |events|);
    UpsertAllRow(db.agents, us, paid);
    TouchAllRow(UpsertAll(db.agents, us), ms, paid);
    TouchesReach(events, clock, i, |events|);
    TouchedByAtLeast(Lookup(UpsertAll(db.agents, us), paid), ms, paid, StampOf(events[i].stamp, clock(Touching, i)));
  }

  /** Whatever the tables hold and whenever it comes, a second delivery of the batch
      changes neither of them. */
  ghost predicate Idempotent(events: seq<Record>) {
    forall db: Db, c1: Clock, c2: Clock ::
      Process(Process(db, events, c1), events, c2) == Process(db, events, c1)
  }

  /** A batch is idempotent if and only if it has no event with an id, in which case
      nothing is written, or the timestamps of its events with an id and of those
      with an agent all parse. */
  lemma IdempotentIff(events: seq<Record>)
    ensures Idempotent(events) <==> NoIds(events) || UsedStampsParse(events)
  {
    if NoIds(events) || UsedStampsParse(events) {
      forall db: Db, c1: Clock, c2: Clock
        ensures Process(Process(db, events, c1), events, c2) == Process(db, events, c1)
      {
        if NoIds(events) {
          NoIdsNoRows(events, c1, |events|);
          NoIdsNoRows(events, c2, |events|);
        } else {
          RedeliveryAbsorbed(db, events, c1, c2);
        }
      }
    } else {
      var i :| 0 <= i < |events| && (events[i].id.Some? || events[i].agent.Some?) && !events[i].stamp.Parsed?;
      NotIdempotent(events, i);
    }
  }

  lemma NotIdempotent(events: seq<Record>, i: nat)
    requires i < |events| && (events[i].id.Some? || events[i].agent.Some?) && !events[i].stamp.Parsed?
    requires !NoIds(events)
    ensures !Idempotent(events)
  {
    var c1: Clock := (p, n) => 0;
    if events[i].id.Some? {
      AbsorbedIffStampsParse(Db(map[], map[]), events, c1);
    } else {
      var paid := events[i].agent.value;
      var db := Db(map[], map[paid := Agent("", None, None, None, None, "active", 0, 0, 0)]);
      UpdatedAtLeast(db, events, c1, i);
      var once := Process(db, events, c1);
      var later := once.agents[paid].updatedAt + 1;
      var c2: Clock := (p, n) => later;
      UpdatedAtLeast(once, events, c2, i);
      assert Process(once, events, c2) != once;
    }
  }
}
