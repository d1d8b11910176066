/** Several batches of the Postgres writer, and deliveries that start over. */
module Replays {
  import opened AgentRows
  import opened Options
  import opened PgWriter

  // ---- one agent under any mix of its statements ----

  datatype Statement = Put(u: Upsert) | Mark(m: Touch)

  function Ran1(t: Agents, x: Statement): Agents {
    match x
    case Put(u) => t[u.paid := Upserted(Lookup(t, u.paid), u)]
    case Mark(m) => if m.paid in t then t[m.paid := Touched(t[m.paid], m.ts)] else t
  }

  function Ran(t: Agents, xs: seq<Statement>): Agents {
    if xs == [] then t else Ran1(Ran(t, xs[..|xs| - 1]), xs[|xs| - 1])
  }

  function UpsertsIn(xs: seq<Statement>, paid: string): seq<Upsert> {
    if xs == [] then []
    else
      var before, x := UpsertsIn(xs[..|xs| - 1], paid), xs[|xs| - 1];
      if x.Put? && x.u.paid == paid then before + [x.u] else before
  }

  /** The touches since the last upsert of this agent. */
  function TouchesSince(xs: seq<Statement>, paid: string): seq<Touch> {
    if xs == [] then []
    else
      var before, x := TouchesSince(xs[..|xs| - 1], paid), xs[|xs| - 1];
      match x
      case Put(u) => if u.paid == paid then [] else before
      case Mark(m) => before + [m]
  }

  lemma UpsertForgetsTouches(row: Option<Agent>, us: seq<Upsert>, ms: seq<Touch>, paid: string, u: Upsert)
    ensures Some(Upserted(TouchedBy(Merged(row, us), ms, paid), u)) == Merged(row, us + [u])
  {
    MergedOne(row, us, u);
    if Merged(row, us).Some? { TouchedByBounds(Merged(row, us), ms, paid); } else { TouchedByNone(ms, paid); }
  }

  lemma TouchedBySnoc(row: Option<Agent>, ms: seq<Touch>, m: Touch, paid: string)
    ensures var before := TouchedBy(row, ms, paid);
            TouchedBy(row, ms + [m], paid)
            == if m.paid == paid && before.Some? then Some(Touched(before.value, m.ts)) else before
  {
    assert (ms + [m])[..|ms|] == ms;
  }

  /** An agent's row after any mix of statements: all its upserts merged, then touched by
      what came after the last of them. */
  lemma {:induction false} RanRow(t: Agents, xs: seq<Statement>, paid: string)
    ensures Lookup(Ran(t, xs), paid)
            == TouchedBy(Merged(Lookup(t, paid), UpsertsIn(xs, paid)), TouchesSince(xs, paid), paid)
    decreases |xs|
  {
    if xs != [] {
      var front, row := xs[..|xs| - 1], Lookup(t, paid);
      var us, ms := UpsertsIn(front, paid), TouchesSince(front, paid);
      RanRow(t, front, paid);
      match xs[|xs| - 1]
      case Put(u) => if u.paid == paid { UpsertForgetsTouches(row, us, ms, paid, u); }
      case Mark(m) => TouchedBySnoc(Merged(row, us), ms, m, paid);
    }
  }

  /** Any list of statements run twice is that list run once. */
  lemma RanTwice(t: Agents, xs: seq<Statement>)
    ensures Ran(Ran(t, xs), xs) == Ran(t, xs)
  {
    forall paid ensures Lookup(Ran(Ran(t, xs), xs), paid) == Lookup(Ran(t, xs), paid) {
      RanRow(t, xs, paid);
      RanRow(Ran(t, xs), xs, paid);
      AgentRowTwice(Lookup(t, paid), UpsertsIn(xs, paid), TouchesSince(xs, paid), paid);
    }
    SameRowsSameTable(Ran(Ran(t, xs), xs), Ran(t, xs));
  }

  lemma {:induction false} RanAppend(t: Agents, xs: seq<Statement>, ys: seq<Statement>)
    ensures Ran(t, xs + ys) == Ran(Ran(t, xs), ys)
    decreases |ys|
  {
    if ys == [] {
      assert xs + ys == xs;
    } else {
      assert (xs + ys)[..|xs + ys| - 1] == xs + ys[..|ys| - 1];
      RanAppend(t, xs, ys[..|ys| - 1]);
    }
  }

  /** Stopping anywhere and starting over, then going on, is running the list once. */
  lemma RanPrefixAbsorbed(t: Agents, xs: seq<Statement>, ys: seq<Statement>)
    ensures Ran(Ran(t, xs), xs + ys) == Ran(t, xs + ys)
  {
    RanTwice(t, xs);
    RanAppend(Ran(t, xs), xs, ys);
    RanAppend(t, xs, ys);
  }

  // ---- the statements of batches ----

  datatype Batch = Batch(events: seq<Record>, clock: Clock)

  function Rows(b: Batch): seq<Row> {
    RowsOf(b.events, b.clock, |b.events|)
  }

  function UpsertStatements(us: seq<Upsert>): seq<Statement> {
    seq(|us|, i requires 0 <= i < |us| => Put(us[i]))
  }

  function TouchStatements(ms: seq<Touch>): seq<Statement> {
    seq(|ms|, i requires 0 <= i < |ms| => Mark(ms[i]))
  }

  /** What a batch does to the agents: nothing without a row to insert. */
  function AgentStatements(b: Batch): seq<Statement> {
    if Rows(b) == [] then []
    else UpsertStatements(UpsertsOf(b.events, b.clock, |b.events|))
         + TouchStatements(TouchesOf(b.events, b.clock, |b.events|))
  }

  lemma {:induction false} RanUpserts(t: Agents, us: seq<Upsert>)
    ensures Ran(t, UpsertStatements(us)) == UpsertAll(t, us)
    decreases |us|
  {
    if us != [] {
      RanUpserts(t, us[..|us| - 1]);
      assert UpsertStatements(us)[..|us| - 1] == UpsertStatements(us[..|us| - 1]);
    }
  }

  lemma {:induction false} RanTouches(t: Agents, ms: seq<Touch>)
    ensures Ran(t, TouchStatements(ms)) == TouchAll(t, ms)
    decreases |ms|
  {
    if ms != [] {
      RanTouches(t, ms[..|ms| - 1]);
      assert TouchStatements(ms)[..|ms| - 1] == TouchStatements(ms[..|ms| - 1]);
    }
  }

  lemma RanPhases(t: Agents, us: seq<Upsert>, ms: seq<Touch>)
    ensures Ran(t, UpsertStatements(us) + TouchStatements(ms)) == TouchAll(UpsertAll(t, us), ms)
  {
    RanAppend(t, UpsertStatements(us), TouchStatements(ms));
    RanUpserts(t, us);
    RanTouches(UpsertAll(t, us), ms);
  }

  function ProcessAll(db: Db, bs: seq<Batch>): Db {
    if bs == [] then db
    else Process(ProcessAll(db, bs[..|bs| - 1]), bs[|bs| - 1].events, bs[|bs| - 1].clock)
  }

  function AllRows(bs: seq<Batch>): seq<Row> {
    if bs == [] then [] else AllRows(bs[..|bs| - 1]) + Rows(bs[|bs| - 1])
  }

  function AllStatements(bs: seq<Batch>): seq<Statement> {
    if bs == [] then [] else AllStatements(bs[..|bs| - 1]) + AgentStatements(bs[|bs| - 1])
  }

  /** Batches are the concatenation of their statements, table by table. */
  lemma {:induction false} ProcessIsStatements(db: Db, bs: seq<Batch>)
    ensures ProcessAll(db, bs) == Db(InsertAll(db.events, AllRows(bs)), Ran(db.agents, AllStatements(bs)))
    decreases |bs|
  {
    if bs != [] {
      var front, b := bs[..|bs| - 1], bs[|bs| - 1];
      var before := ProcessAll(db, front);
      ProcessIsStatements(db, front);
      InsertAllAppend(db.events, AllRows(front), Rows(b));
      RanAppend(db.agents, AllStatements(front), AgentStatements(b));
      RanPhases(before.agents, UpsertsOf(b.events, b.clock, |b.events|), TouchesOf(b.events, b.clock, |b.events|));
    }
  }

  // ---- deliveries that start over ----

  /** The same batches, cut at the same places, at other times. */
  predicate SameBatches(xs: seq<Batch>, ys: seq<Batch>) {
    |xs| == |ys| && forall i :: 0 <= i < |xs| ==> xs[i].events == ys[i].events && UsedStampsParse(xs[i].events)
  }

  lemma {:induction false} SameStatements(xs: seq<Batch>, ys: seq<Batch>)
    requires SameBatches(xs, ys)
    ensures AllRows(xs) == AllRows(ys) && AllStatements(xs) == AllStatements(ys)
    decreases |xs|
  {
    if xs != [] {
      var x, y := xs[|xs| - 1], ys[|ys| - 1];
      SameStatements(xs[..|xs| - 1], ys[..|ys| - 1]);
      StatementsIgnoreClock(x.events, x.clock, y.clock, |x.events|);
    }
  }

  /** Any number of batches delivered again, in order and cut at the same places, leave
      both tables as the first delivery did. */
  lemma BatchesRedelivered(db: Db, xs: seq<Batch>, ys: seq<Batch>)
    requires SameBatches(xs, ys)
    ensures ProcessAll(ProcessAll(db, xs), ys) == ProcessAll(db, xs)
  {
    SameStatements(xs, ys);
    ProcessIsStatements(db, xs);
    ProcessIsStatements(ProcessAll(db, xs), ys);
    var rows := AllRows(xs);
    assert rows[..|rows|] == rows;
    InsertPrefixAbsorbed(db.events, rows, |rows|);
    RanTwice(db.agents, AllStatements(xs));
  }

  lemma PartialIsPrefix(db: Db, b: Batch, i: nat, j: nat, k: nat)
    requires IsProgress(b.events, b.clock, i, j, k)
    ensures exists n: nat :: n <= |AgentStatements(b)|
              && Partial(db, b.events, b.clock, i, j, k)
                 == Db(InsertAll(db.events, Rows(b)[..i]), Ran(db.agents, AgentStatements(b)[..n]))
  {
    var us, ms := UpsertsOf(b.events, b.clock, |b.events|), TouchesOf(b.events, b.clock, |b.events|);
    RanPhases(db.agents, us[..j], ms[..k]);
    if Rows(b) == [] {
      NoRowsNoUpserts(b.events, b.clock, |b.events|);
      assert AgentStatements(b)[..0] == UpsertStatements(us[..j]) + TouchStatements(ms[..k]);
    } else {
      assert AgentStatements(b)[..j + k] == UpsertStatements(us[..j]) + TouchStatements(ms[..k]);
    }
  }

  lemma CutConcat<T>(xs: seq<T>, ys: seq<T>, n: nat)
    requires n <= |ys|
    ensures xs + ys[..n] == (xs + ys)[..|xs| + n]
    ensures xs + ys == (xs + ys[..n]) + ys[n..]
  {
  }

  lemma RowsReplayed(t: Events, done: seq<Row>, next: seq<Row>, i: nat)
    requires i <= |next|
    ensures InsertAll(InsertAll(InsertAll(t, done), next[..i]), done + next) == InsertAll(t, done + next)
  {
    var all, part := done + next, next[..i];
    CutConcat(done, next, i);
    InsertAllAppend(t, done, part);
    InsertPrefixAbsorbed(t, all, |done| + i);
  }

  lemma StatementsReplayed(t: Agents, done: seq<Statement>, next: seq<Statement>, n: nat)
    requires n <= |next|
    ensures Ran(Ran(Ran(t, done), next[..n]), done + next) == Ran(t, done + next)
  {
    var all, part := done + next, next[..n];
    CutConcat(done, next, n);
    RanAppend(t, done, part);
    RanPrefixAbsorbed(t, done + part, next[n..]);
  }

  lemma AllSnoc(xs: seq<Batch>, b: Batch)
    ensures AllRows(xs + [b]) == AllRows(xs) + Rows(b)
    ensures AllStatements(xs + [b]) == AllStatements(xs) + AgentStatements(b)
  {
    assert (xs + [b])[..|xs|] == xs;
  }

  /** At-least-once delivery: batches `xs`, the next one up to any statement, then all of
      them again and on to the end of the next one, is each of them once. */
  lemma ReplayAbsorbed(db: Db, xs: seq<Batch>, ys: seq<Batch>, b: Batch, again: Batch, i: nat, j: nat, k: nat)
    requires SameBatches(xs + [b], ys + [again]) && IsProgress(b.events, b.clock, i, j, k)
    ensures ProcessAll(Partial(ProcessAll(db, xs), b.events, b.clock, i, j, k), ys + [again])
            == ProcessAll(db, xs + [b])
  {
    var stopped := ProcessAll(db, xs);
    var part := Partial(stopped, b.events, b.clock, i, j, k);
    PartialIsPrefix(stopped, b, i, j, k);
    var n: nat :| n <= |AgentStatements(b)|
      && part == Db(InsertAll(stopped.events, Rows(b)[..i]), Ran(stopped.agents, AgentStatements(b)[..n]));
    ProcessIsStatements(db, xs);
    ProcessIsStatements(db, xs + [b]);
    ProcessIsStatements(part, ys + [again]);
    SameStatements(xs + [b], ys + [again]);
    AllSnoc(xs, b);
    RowsReplayed(db.events, AllRows(xs), Rows(b), i);
    StatementsReplayed(db.agents, AllStatements(xs), AgentStatements(b), n);
  }

  /** A batch with one upsert and one touch, both of one agent. */
  lemma {:induction false} SeenAfter(db: Db, events: seq<Record>, clock: Clock, u: Upsert, m: Touch)
    requires RowsOf(events, clock, |events|) != [] && u.paid == m.paid
    requires UpsertsOf(events, clock, |events|) == [u] && TouchesOf(events, clock, |events|) == [m]
    ensures var t := Process(db, events, clock).agents;
            u.paid in t && t[u.paid].lastSeen == if u.ts < m.ts then m.ts else u.ts
  {
    assert [u][..0] == [] && [m][..0] == [];
    var t := UpsertAll(db.agents, [u]);
    assert UpsertAll(db.agents, []) == db.agents && TouchAll(t, []) == t;
  }

  lemma ProcessTwo(db: Db, b1: Batch, b2: Batch)
    ensures ProcessAll(db, [b1]) == Process(db, b1.events, b1.clock)
    ensures ProcessAll(db, [b1, b2]) == Process(Process(db, b1.events, b1.clock), b2.events, b2.clock)
  {
    assert [b1][..0] == [] && [b1, b2][..1] == [b1];
    assert ProcessAll(db, []) == db;
  }

  /** `y` announces the agent that the earlier event `x` is about, with an older timestamp. */
  predicate AnnouncedLate(x: Record, y: Record) {
    && x.id.Some? && x.agent.Some? && x.stamp.Parsed? && !Discovers(x)
    && Discovers(y) && PaidOf(y) == y.agent == x.agent && y.stamp.Parsed? && y.stamp.t < x.stamp.t
  }

  lemma AloneStatements(x: Record, y: Record, clock: Clock)
    requires AnnouncedLate(x, y)
    ensures RowsOf([y], clock, 1) != [] && UpsertsOf([y], clock, 1) == [UpsertOf(y, 0)]
    ensures TouchesOf([y], clock, 1) == [Touch(y.agent.value, y.stamp.t)]
  {
    assert RowsOf([y], clock, 0) == [] && UpsertsOf([y], clock, 0) == [] && TouchesOf([y], clock, 0) == [];
  }

  lemma TogetherStatements(x: Record, y: Record, clock: Clock)
    requires AnnouncedLate(x, y)
    ensures RowsOf([x, y], clock, 2) != [] && UpsertsOf([x, y], clock, 2) == [UpsertOf(y, 0)]
    ensures TouchesOf([x, y], clock, 2) == [Touch(x.agent.value, x.stamp.t)]
  {
    var both := [x, y];
    assert UpsertsOf(both, clock, 0) == [] && UpsertsOf(both, clock, 1) == [];
    assert TouchesOf(both, clock, 0) == [] && TouchesOf(both, clock, 1) == [Touch(x.agent.value, x.stamp.t)];
  }

  /** Cut at other places a replay is not absorbed: in one batch the upsert of an agent
      runs before the touch of an earlier event of it, in two batches after it. */
  lemma RecutNotAbsorbed(db: Db, x: Record, y: Record, clock: Clock)
    requires AnnouncedLate(x, y)
    ensures UsedStampsParse([x, y])
    ensures var once := ProcessAll(db, [Batch([x, y], clock)]);
            ProcessAll(once, [Batch([x], clock), Batch([y], clock)]) != once
  {
    var both, first, second := Batch([x, y], clock), Batch([x], clock), Batch([y], clock);
    var once, u, a := Process(db, [x, y], clock), UpsertOf(y, 0), x.agent.value;
    TogetherStatements(x, y, clock);
    SeenAfter(db, [x, y], clock, u, Touch(a, x.stamp.t));
    AloneStatements(x, y, clock);
    SeenAfter(Process(once, [x], clock), [y], clock, u, Touch(a, y.stamp.t));
    ProcessTwo(db, both, second);
    ProcessTwo(once, first, second);
  }
}
