/** The protocol and the Postgres writer together: at-least-once delivery into
    a first-wins table stores each message exactly once. */
module ExactlyOnce {
  import opened Decoding
  import opened DeliveryProtocol
  import opened Options
  import P = PgWriter
  import C = StoredColumns

  // ---- entries say what was read ----

  predicate ReadFrom(s: State, e: Entry) {
    && e.src.offset < |LogOf(s, e.src.partition)|
    && Classify(LogOf(s, e.src.partition)[e.src.offset]) == Accepted(e.event)
  }

  ghost predicate AllRead(s: State, b: seq<Entry>) {
    forall i :: 0 <= i < |b| ==> ReadFrom(s, b[i])
  }

  ghost predicate Truthful(s: State) {
    && AllRead(s, s.buffer)
    && (s.flight.Flight? ==> AllRead(s, s.flight.batch))
    && (forall d :: 0 <= d < |s.fate.deliveries| ==> AllRead(s, s.fate.deliveries[d]))
  }

  /** The history credits exactly the sources of the stored batches. */
  ghost predicate Credited(s: State) {
    forall src :: src in s.fate.handled ==>
      exists d :: 0 <= d < |s.fate.deliveries| && src in Sources(s.fate.deliveries[d])
  }

  lemma LogOnlyGrows(cfg: Config, s: State, a: Action, e: Entry)
    requires Enabled(cfg, s, a) && ReadFrom(s, e)
    ensures ReadFrom(Apply(cfg, s, a), e)
  {
    if a.Produce? {
      var t := Apply(cfg, s, a);
      assert |LogOf(s, e.src.partition)| <= |LogOf(t, e.src.partition)|;
    } else {
      assert Apply(cfg, s, a).broker.log == s.broker.log;
    }
  }

  lemma LogOnlyGrowsAll(cfg: Config, s: State, a: Action, b: seq<Entry>)
    requires Enabled(cfg, s, a) && AllRead(s, b)
    ensures AllRead(Apply(cfg, s, a), b)
  {
    forall i | 0 <= i < |b| ensures ReadFrom(Apply(cfg, s, a), b[i]) { LogOnlyGrows(cfg, s, a, b[i]); }
  }

  /** What a step can put in the buffer, in flight or in the history. */
  lemma StepMoves(cfg: Config, s: State, a: Action)
    requires Enabled(cfg, s, a)
    ensures var t := Apply(cfg, s, a);
            && (a.Read? || ((t.buffer == s.buffer || t.buffer == [])
                            && (t.flight.Flight? ==> t.flight.batch == s.buffer || (s.flight.Flight? && t.flight.batch == s.flight.batch))))
            && ((t.fate.deliveries == s.fate.deliveries && t.fate.handled == s.fate.handled)
                || (a == Attempt(true) && t.fate.deliveries == s.fate.deliveries + [s.flight.batch]
                    && t.fate.handled == s.fate.handled + Sources(s.flight.batch)))
  {
    if a.Read? {
      var o := At(s.broker.position, a.partition);
      ReceivedMoves(cfg, s, a.partition, a.flushDue, Classify(LogOf(s, a.partition)[o]));
    }
  }

  lemma ReceivedMoves(cfg: Config, s: State, p: string, due: bool, verdict: Verdict)
    ensures var t := Received(cfg, s, p, due, verdict);
            var src := Source(p, At(s.broker.position, p));
            && t.fate.deliveries == s.fate.deliveries && t.fate.handled == s.fate.handled
            && (t.buffer == s.buffer || t.buffer == []
                || (verdict.Accepted? && t.buffer == s.buffer + [Entry(src, verdict.event)]))
            && (t.flight == s.flight
                || (verdict.Accepted? && t.flight == Flight(s.buffer + [Entry(src, verdict.event)], 0, 0)))
  {
  }

  lemma StepKeepsTruthful(cfg: Config, s: State, a: Action)
    requires Truthful(s) && Enabled(cfg, s, a)
    ensures Truthful(Apply(cfg, s, a))
  {
    var t := Apply(cfg, s, a);
    StepMoves(cfg, s, a);
    LogOnlyGrowsAll(cfg, s, a, s.buffer);
    if s.flight.Flight? { LogOnlyGrowsAll(cfg, s, a, s.flight.batch); }
    forall d | 0 <= d < |t.fate.deliveries|
      ensures AllRead(t, t.fate.deliveries[d])
    {
      if d < |s.fate.deliveries| { LogOnlyGrowsAll(cfg, s, a, s.fate.deliveries[d]); }
    }
    if a.Read? {
      var o := At(s.broker.position, a.partition);
      var verdict := Classify(LogOf(s, a.partition)[o]);
      ReceivedMoves(cfg, s, a.partition, a.flushDue, verdict);
      if verdict.Accepted? {
        var e := Entry(Source(a.partition, o), verdict.event);
        LogOnlyGrows(cfg, s, a, e);
        assert AllRead(t, s.buffer + [e]);
      }
    }
  }

  lemma StepKeepsCredited(cfg: Config, s: State, a: Action)
    requires Credited(s) && Enabled(cfg, s, a)
    ensures Credited(Apply(cfg, s, a))
  {
    StepMoves(cfg, s, a);
    var t := Apply(cfg, s, a);
    forall src | src in t.fate.handled
      ensures exists d :: 0 <= d < |t.fate.deliveries| && src in Sources(t.fate.deliveries[d])
    {
      if src in s.fate.handled {
        var d :| 0 <= d < |s.fate.deliveries| && src in Sources(s.fate.deliveries[d]);
        assert t.fate.deliveries[d] == s.fate.deliveries[d];
      } else {
        assert t.fate.deliveries[|s.fate.deliveries|] == s.flight.batch;
      }
    }
  }

  lemma {:induction false} RunKeepsHistory(cfg: Config, s: State, acts: seq<Action>)
    requires Truthful(s) && Credited(s) && Exec(cfg, s, acts).Some?
    ensures Truthful(Exec(cfg, s, acts).value) && Credited(Exec(cfg, s, acts).value)
    decreases |acts|
  {
    if acts != [] {
      StepKeepsTruthful(cfg, s, acts[0]);
      StepKeepsCredited(cfg, s, acts[0]);
      RunKeepsHistory(cfg, Apply(cfg, s, acts[0]), acts[1..]);
    }
  }

  // ---- the events table after all the writes of a run ----

  type View = Event -> P.Record

  /** One row sent to the database, and the clock when its timestamp was parsed. */
  datatype Write = Write(entry: Entry, now: int)

  function RowFor(view: View, w: Write): P.Row
    requires view(w.entry.event).id.Some?
  {
    P.RowOf(view(w.entry.event), w.now)
  }

  function RowsFor(view: View, writes: seq<Write>): seq<P.Row> {
    if writes == [] then []
    else
      var before := RowsFor(view, writes[..|writes| - 1]);
      var w := writes[|writes| - 1];
      if view(w.entry.event).id.Some? then before + [RowFor(view, w)] else before
  }

  lemma {:induction false} RowForPresent(view: View, writes: seq<Write>, i: nat)
    requires i < |writes| && view(writes[i].entry.event).id.Some?
    ensures RowFor(view, writes[i]) in RowsFor(view, writes)
    decreases |writes|
  {
    if i < |writes| - 1 { RowForPresent(view, writes[..|writes| - 1], i); }
  }

  lemma {:induction false} RowForSource(view: View, writes: seq<Write>, k: nat) returns (i: nat)
    requires k < |RowsFor(view, writes)|
    ensures i < |writes| && view(writes[i].entry.event).id.Some? && RowsFor(view, writes)[k] == RowFor(view, writes[i])
    decreases |writes|
  {
    var front := writes[..|writes| - 1];
    if k < |RowsFor(view, front)| {
      i := RowForSource(view, front, k);
    } else {
      i := |writes| - 1;
    }
  }

  predicate Sends(w: Write, e: Entry) {
    w.entry == e
  }

  /** The rows sent in a run: every stored batch, and whatever failed attempts
      got through, in any order and any number of times. */
  ghost predicate WritesOf(t: State, writes: seq<Write>) {
    && (forall i :: 0 <= i < |writes| ==> ReadFrom(t, writes[i].entry))
    && (forall d, i :: 0 <= d < |t.fate.deliveries| && 0 <= i < |t.fate.deliveries[d]| ==>
          exists k :: 0 <= k < |writes| && Sends(writes[k], t.fate.deliveries[d][i]))
  }

  function EventAt(t: State, src: Source): Event {
    var log := LogOf(t, src.partition);
    if src.offset < |log| then
      var v := Classify(log[src.offset]);
      if v.Accepted? then v.event else Null
    else Null
  }

  /** Every message read with an id has a timestamp that parses, and two different
      messages never claim the same (id, timestamp) with different contents. */
  ghost predicate WellKeyed(t: State, view: View) {
    && (forall p, o :: 0 <= o < |LogOf(t, p)| && view(EventAt(t, Source(p, o))).id.Some? ==>
          view(EventAt(t, Source(p, o))).stamp.Parsed?)
    && (forall p1, o1, p2, o2 ::
          0 <= o1 < |LogOf(t, p1)| && 0 <= o2 < |LogOf(t, p2)| ==>
            var e1, e2 := view(EventAt(t, Source(p1, o1))), view(EventAt(t, Source(p2, o2)));
            e1.id.Some? && e1.id == e2.id && e1.stamp == e2.stamp ==> e1 == e2)
  }

  /** The table has a row under the event's id and timestamp, and it says what the event says. */
  predicate HasItsRow(table: P.Events, e: P.Record) {
    && e.id.Some? && e.stamp.Parsed?
    && (e.id.value, e.stamp.t) in table && C.Tells(table[(e.id.value, e.stamp.t)], e, 0)
  }

  /** From an empty table, through any run with any crashes and redeliveries:
      every handled message with an id has its own row, whole and unaltered. */
  lemma StoredExactlyOnce(cfg: Config, s: State, acts: seq<Action>, view: View, writes: seq<Write>, src: Source)
    requires Init(s) && s.buffer == [] && s.fate.handled == {} && Exec(cfg, s, acts).Some?
    requires var t := Exec(cfg, s, acts).value;
             WritesOf(t, writes) && WellKeyed(t, view) && src in t.fate.handled
    ensures var t := Exec(cfg, s, acts).value;
            var e := view(EventAt(t, src));
            e.id.Some? ==> HasItsRow(P.InsertAll(map[], RowsFor(view, writes)), e)
  {
    RunKeepsHistory(cfg, s, acts);
    var t := Exec(cfg, s, acts).value;
    var d :| 0 <= d < |t.fate.deliveries| && src in Sources(t.fate.deliveries[d]);
    var i :| 0 <= i < |t.fate.deliveries[d]| && t.fate.deliveries[d][i].src == src;
    var entry := t.fate.deliveries[d][i];
    assert ReadFrom(t, entry) && entry.event == EventAt(t, src);
    if view(entry.event).id.Some? {
      var k :| 0 <= k < |writes| && Sends(writes[k], entry);
      RowForPresent(view, writes, k);
      TableHolds(t, view, writes, k);
      assert t == Exec(cfg, s, acts).value && view(entry.event).stamp.Parsed?;
      C.RowTells(view(entry.event), writes[k].now);
    }
  }

  lemma {:induction false} TableHolds(t: State, view: View, writes: seq<Write>, k: nat)
    requires WritesOf(t, writes) && WellKeyed(t, view)
    requires k < |writes| && view(writes[k].entry.event).id.Some?
    ensures var table, row := P.InsertAll(map[], RowsFor(view, writes)), RowFor(view, writes[k]);
            P.KeyOf(row) in table && table[P.KeyOf(row)] == row
  {
    var rows, row := RowsFor(view, writes), RowFor(view, writes[k]);
    RowForPresent(view, writes, k);
    P.InsertAllKeeps(map[], rows);
    var at :| 0 <= at < |rows| && rows[at] == row;
    assert P.KeyOf(rows[at]) in P.InsertAll(map[], rows);
    var first := P.FirstWins(map[], rows, P.KeyOf(row));
    var from := RowForSource(view, writes, first);
    var one, other := writes[k].entry, writes[from].entry;
    assert ReadFrom(t, one) && ReadFrom(t, other);
    assert EventAt(t, one.src) == one.event && EventAt(t, other.src) == other.event;
  }

  /** And the table holds nothing else: each of its rows is the row of some message read. */
  lemma NothingInvented(t: State, view: View, writes: seq<Write>, key: P.Key) returns (src: Source)
    requires WritesOf(t, writes) && WellKeyed(t, view) && key in P.InsertAll(map[], RowsFor(view, writes))
    ensures src.offset < |LogOf(t, src.partition)| && view(EventAt(t, src)).id.Some?
    ensures var e := view(EventAt(t, src));
            && e.stamp == P.Parsed(key.1) && e.id.value == key.0
            && C.Tells(P.InsertAll(map[], RowsFor(view, writes))[key], e, 0)
  {
    var rows := RowsFor(view, writes);
    var first := P.FirstWins(map[], rows, key);
    var from := RowForSource(view, writes, first);
    assert ReadFrom(t, writes[from].entry);
    src := writes[from].entry.src;
    C.RowTells(view(EventAt(t, src)), writes[from].now);
  }

  /** Put together: below the committed offset, a message with an id is in the
      events table unless the decoder refused it or it went to the dead-letter queue. */
  lemma CommittedIsStored(cfg: Config, s: State, acts: seq<Action>, view: View, writes: seq<Write>, src: Source)
    requires Init(s) && s.fate.handled == {} && Exec(cfg, s, acts).Some?
    requires var t := Exec(cfg, s, acts).value;
             WritesOf(t, writes) && WellKeyed(t, view) && Below(t.broker.committed, src)
    ensures var t := Exec(cfg, s, acts).value;
            var e := view(EventAt(t, src));
            || src in t.fate.refused || src in t.fate.acked || src in t.fate.unacked || e.id.None?
            || HasItsRow(P.InsertAll(map[], RowsFor(view, writes)), e)
  {
    CommitNeverOvertakes(cfg, s, acts, src);
    var t := Exec(cfg, s, acts).value;
    if src in t.fate.handled { StoredExactlyOnce(cfg, s, acts, view, writes, src); }
  }
}
