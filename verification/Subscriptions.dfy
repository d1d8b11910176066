/** The event subscription: polling by the key (created_at, id), a hundred rows at
    a time, over any interleaving of polls and inserts; and the bounded alert
    queue that drops its oldest entry. */
module Subscriptions {
  import opened KeyedRows

  const PAGE := 100
  const QUEUE_SIZE := 256

  /** An empty string asks for everything. */
  datatype Filter = Filter(tenant: int, severity: string, kind: string, agent: string)

  predicate Matches(f: Filter, e: Event) {
    && e.tenant == f.tenant
    && (f.severity == "" || e.severity == f.severity)
    && (f.kind == "" || e.kind == f.kind)
    && (f.agent == "" || e.agent == f.agent)
  }

  // ---- the query ----

  function Matching(f: Filter): Event -> bool {
    e => Matches(f, e)
  }

  function Wanted(f: Filter, c: Cursor): Event -> bool {
    e => Matches(f, e) && Less(c, e.key)
  }

  /** The matching rows above the cursor, in key order. */
  function Pending(f: Filter, table: seq<Event>, c: Cursor): seq<Event> {
    Sort(Select(table, Wanted(f, c)))
  }

  function Page(f: Filter, table: seq<Event>, c: Cursor): seq<Event> {
    var p := Pending(f, table, c);
    if |p| <= PAGE then p else p[..PAGE]
  }

  function LastKey(page: seq<Event>, c: Cursor): Cursor {
    if page == [] then c else page[|page| - 1].key
  }

  // ---- one poll ----

  /** The page ends between two rows with the same key. */
  predicate Splits(pending: seq<Event>) {
    |pending| > PAGE && pending[PAGE - 1].key == pending[PAGE].key
  }

  lemma NextPending(f: Filter, table: seq<Event>, c: Cursor, c': Cursor)
    requires c == c' || Less(c, c')
    ensures Pending(f, table, c') == Select(Pending(f, table, c), Beyond(c'))
  {
    var above := Beyond(c');
    SelectTwice(table, Wanted(f, c), above, Wanted(f, c'));
    SelectSort(Select(table, Wanted(f, c)), above);
  }

  lemma PendingFacts(f: Filter, table: seq<Event>, c: Cursor)
    ensures Sorted(Pending(f, table, c))
    ensures forall e :: e in Pending(f, table, c) <==> e in table && Matches(f, e) && Less(c, e.key)
  {
    var xs := Select(table, Wanted(f, c));
    SortSorts(xs);
    SelectIn(table, Wanted(f, c));
    forall e ensures e in Sort(xs) <==> e in xs {
      assert e in multiset(Sort(xs)) <==> e in multiset(xs);
    }
  }

  lemma NextAfter(f: Filter, table: seq<Event>, c: Cursor, pending: seq<Event>, n: nat)
    requires pending == Pending(f, table, c) && 0 < n <= |pending|
    ensures Pending(f, table, pending[n - 1].key) == pending[n..]
            <==> (n < |pending| ==> pending[n - 1].key != pending[n].key)
  {
    PendingFacts(f, table, c);
    assert pending[n - 1] in pending;
    NextPending(f, table, c, pending[n - 1].key);
    BoundaryIff(pending, n);
  }

  /** A poll leaves exactly the rest of the pending rows for the next one, if and
      only if its page does not end between two rows with the same key. */
  lemma PollLosesNothingIff(f: Filter, table: seq<Event>, c: Cursor)
    ensures var pending, page := Pending(f, table, c), Page(f, table, c);
            Pending(f, table, LastKey(page, c)) == pending[|page|..] <==> !Splits(pending)
  {
    var pending, page := Pending(f, table, c), Page(f, table, c);
    if page != [] {
      assert LastKey(page, c) == pending[|page| - 1].key;
      NextAfter(f, table, c, pending, |page|);
    }
  }

  // ---- whose rows, and which ----

  lemma {:induction false} SelectCounts(xs: seq<Event>, p: Event -> bool)
    ensures multiset(Select(xs, p)) <= multiset(xs)
    decreases |xs|
  {
    if xs != [] {
      SelectCounts(xs[..|xs| - 1], p);
      assert xs == xs[..|xs| - 1] + [xs[|xs| - 1]];
    }
  }

  /** Every row of a page is a row of the table, of the filter's tenant, and has what the
      filter asks for; it lies above the cursor, and the page is in key order. */
  lemma PageIsAsked(f: Filter, table: seq<Event>, c: Cursor)
    ensures var page := Page(f, table, c);
            && multiset(page) <= multiset(table) && |page| <= 100
            && (forall e :: e in page ==>
                  && e.tenant == f.tenant && (f.severity == "" || e.severity == f.severity)
                  && (f.kind == "" || e.kind == f.kind) && (f.agent == "" || e.agent == f.agent)
                  && (c.createdAt < e.key.createdAt || (c.createdAt == e.key.createdAt && c.id < e.key.id)))
            && (forall i, j :: 0 <= i < j < |page| ==>
                  && page[i].key.createdAt <= page[j].key.createdAt
                  && (page[i].key.createdAt == page[j].key.createdAt ==> page[i].key.id <= page[j].key.id))
  {
    var xs, pending, page := Select(table, Wanted(f, c)), Pending(f, table, c), Page(f, table, c);
    PendingFacts(f, table, c);
    SelectCounts(table, Wanted(f, c));
    SortSorts(xs);
    assert pending == page + pending[|page|..];
    forall e | e in page ensures e in pending { }
  }

  /** And a row that has all this is in the page, unless the page is full of rows that come
      before it or share its key. */
  lemma AskedIsInPage(f: Filter, table: seq<Event>, c: Cursor, e: Event)
    requires e in table && e.tenant == f.tenant && (f.severity == "" || e.severity == f.severity)
    requires (f.kind == "" || e.kind == f.kind) && (f.agent == "" || e.agent == f.agent)
    requires c.createdAt < e.key.createdAt || (c.createdAt == e.key.createdAt && c.id < e.key.id)
    ensures var page := Page(f, table, c);
            e in page
            || (|page| == 100
                && forall x :: x in page ==>
                     && x.key.createdAt <= e.key.createdAt
                     && (x.key.createdAt == e.key.createdAt ==> x.key.id <= e.key.id))
  {
    var pending, page := Pending(f, table, c), Page(f, table, c);
    PendingFacts(f, table, c);
    assert e in pending;
    var k :| 0 <= k < |pending| && pending[k] == e;
    if k >= |page| {
      forall x | x in page ensures !Less(e.key, x.key) {
        var i :| 0 <= i < |page| && page[i] == x;
        assert pending[i] == x;
      }
    } else {
      assert page[k] == e;
    }
  }

  // ---- runs ----

  datatype Action = Insert(e: Event) | Poll

  /** `timely` is ghost: the rows that were above the cursor when they came in. */
  datatype State = State(table: seq<Event>, cursor: Cursor, delivered: seq<Event>, timely: seq<Event>)

  function Begin(table: seq<Event>, c: Cursor): State {
    State(table, c, [], Select(table, Beyond(c)))
  }

  function After(f: Filter, s: State, a: Action): State {
    match a
    case Insert(e) =>
      s.(table := s.table + [e], timely := if Less(s.cursor, e.key) then s.timely + [e] else s.timely)
    case Poll =>
      var page := Page(f, s.table, s.cursor);
      s.(cursor := LastKey(page, s.cursor), delivered := s.delivered + page)
  }

  function Exec(f: Filter, s: State, run: seq<Action>): State
    decreases |run|
  {
    if run == [] then s else After(f, Exec(f, s, run[..|run| - 1]), run[|run| - 1])
  }

  /** The matching rows that came in above the cursor, in key order. */
  function Due(f: Filter, s: State): seq<Event> {
    Sort(Select(s.timely, Matching(f)))
  }

  predicate Behind(s: State) {
    && Sorted(s.delivered)
    && forall i :: 0 <= i < |s.delivered| ==> !Less(s.cursor, s.delivered[i].key)
  }

  predicate NothingLost(f: Filter, s: State) {
    Due(f, s) == s.delivered + Pending(f, s.table, s.cursor)
  }

  lemma StepKeepsBehind(f: Filter, s: State, a: Action)
    requires Behind(s)
    ensures Behind(After(f, s, a))
  {
    if a.Poll? {
      var page := Page(f, s.table, s.cursor);
      PendingFacts(f, s.table, s.cursor);
      forall e | e in page ensures Less(s.cursor, e.key) {
        assert e in Pending(f, s.table, s.cursor);
      }
    }
  }

  /** Whatever is inserted in between, keys are delivered in order: none below one
      delivered before, and everything a later poll delivers is strictly above it. */
  lemma {:induction false} DeliveredInOrder(f: Filter, table: seq<Event>, c: Cursor, run: seq<Action>)
    ensures Behind(Exec(f, Begin(table, c), run))
    ensures var s := Exec(f, Begin(table, c), run);
            forall e, d :: e in Page(f, s.table, s.cursor) && d in s.delivered ==> Less(d.key, e.key)
    decreases |run|
  {
    if run != [] {
      DeliveredInOrder(f, table, c, run[..|run| - 1]);
      StepKeepsBehind(f, Exec(f, Begin(table, c), run[..|run| - 1]), run[|run| - 1]);
    }
    var s := Exec(f, Begin(table, c), run);
    PendingFacts(f, s.table, s.cursor);
    forall e, d | e in Page(f, s.table, s.cursor) && d in s.delivered ensures Less(d.key, e.key) {
      assert e in Pending(f, s.table, s.cursor);
    }
  }

  /** In every run, what is delivered was a row of the table, of the filter's tenant, with the
      severity, kind and agent asked for. */
  lemma {:induction false} DeliveredIsAsked(f: Filter, table: seq<Event>, c: Cursor, run: seq<Action>)
    ensures var s := Exec(f, Begin(table, c), run);
            forall e :: e in s.delivered ==>
              && e in s.table && e.tenant == f.tenant && (f.severity == "" || e.severity == f.severity)
              && (f.kind == "" || e.kind == f.kind) && (f.agent == "" || e.agent == f.agent)
    decreases |run|
  {
    if run != [] {
      var before := Exec(f, Begin(table, c), run[..|run| - 1]);
      DeliveredIsAsked(f, table, c, run[..|run| - 1]);
      PageIsAsked(f, before.table, before.cursor);
      forall e | e in Page(f, before.table, before.cursor) ensures e in before.table {
        assert e in multiset(before.table);
      }
    }
  }

  lemma InsertLosesNothing(f: Filter, s: State, e: Event)
    requires Behind(s) && NothingLost(f, s)
    ensures NothingLost(f, After(f, s, Insert(e)))
  {
    var matching := Matching(f);
    SelectSnoc(s.table, e, Wanted(f, s.cursor));
    SelectSnoc(s.timely, e, matching);
    if Less(s.cursor, e.key) && Matches(f, e) {
      SortSnoc(Select(s.table, Wanted(f, s.cursor)), e);
      SortSnoc(Select(s.timely, matching), e);
      PlaceAfter(s.delivered, Pending(f, s.table, s.cursor), e);
    }
  }

  lemma PollLosesNothing(f: Filter, s: State)
    requires NothingLost(f, s) && !Splits(Pending(f, s.table, s.cursor))
    ensures NothingLost(f, After(f, s, Poll))
  {
    PollLosesNothingIff(f, s.table, s.cursor);
    var pending, page := Pending(f, s.table, s.cursor), Page(f, s.table, s.cursor);
    assert pending == page + pending[|page|..];
  }

  predicate NeverSplits(f: Filter, s: State, run: seq<Action>)
    decreases |run|
  {
    run == [] ||
    (var before := Exec(f, s, run[..|run| - 1]);
     NeverSplits(f, s, run[..|run| - 1]) && (run[|run| - 1].Poll? ==> !Splits(Pending(f, before.table, before.cursor))))
  }

  // ---- nothing is lost, exactly when no page splits ----

  /** How many due rows are neither delivered nor pending. */
  function Missing(f: Filter, s: State): int {
    |Due(f, s)| - |s.delivered| - |Pending(f, s.table, s.cursor)|
  }

  lemma InsertMissesNothing(f: Filter, s: State, e: Event)
    ensures Missing(f, After(f, s, Insert(e))) == Missing(f, s)
  {
    var matching, wanted := Matching(f), Wanted(f, s.cursor);
    SelectSnoc(s.table, e, wanted);
    SelectSnoc(s.timely, e, matching);
    if Less(s.cursor, e.key) && Matches(f, e) {
      SortSnoc(Select(s.table, wanted), e);
      SortSnoc(Select(s.timely, matching), e);
      PlaceGrows(Sort(Select(s.table, wanted)), e);
      PlaceGrows(Sort(Select(s.timely, matching)), e);
    }
  }

  /** What a page leaves pending is at most the rest, and less if the page splits. */
  lemma PollLeaves(f: Filter, table: seq<Event>, c: Cursor)
    ensures var pending, page := Pending(f, table, c), Page(f, table, c);
            var left := Pending(f, table, LastKey(page, c));
            |left| <= |pending| - |page| && (|left| == |pending| - |page| <==> !Splits(pending))
  {
    var pending, page := Pending(f, table, c), Page(f, table, c);
    PollLosesNothingIff(f, table, c);
    if page != [] {
      var last := page[|page| - 1];
      PendingFacts(f, table, c);
      assert last in pending && pending == page + pending[|page|..];
      NextPending(f, table, c, last.key);
      SelectBeyond(page, pending[|page|..], last.key);
      SelectShrinks(pending[|page|..], Beyond(last.key));
    }
  }

  /** The polls refine one scan: delivered rows followed by the pending ones are, in
      order, the matching rows that came in above the cursor, if and only if no page so
      far ended between two rows with the same key. */
  lemma {:induction false} PollingRefinesScan(f: Filter, table: seq<Event>, c: Cursor, run: seq<Action>)
    ensures NothingLost(f, Exec(f, Begin(table, c), run)) <==> NeverSplits(f, Begin(table, c), run)
    ensures Missing(f, Exec(f, Begin(table, c), run)) >= 0
    ensures Missing(f, Exec(f, Begin(table, c), run)) == 0 <==> NeverSplits(f, Begin(table, c), run)
    decreases |run|
  {
    if run == [] {
      SelectTwice(table, Beyond(c), Matching(f), Wanted(f, c));
    } else {
      var front := run[..|run| - 1];
      PollingRefinesScan(f, table, c, front);
      DeliveredInOrder(f, table, c, front);
      var s := Exec(f, Begin(table, c), front);
      if run[|run| - 1].Insert? {
        InsertMissesNothing(f, s, run[|run| - 1].e);
        if NothingLost(f, s) { InsertLosesNothing(f, s, run[|run| - 1].e); }
      } else {
        PollLeaves(f, s.table, s.cursor);
        if NothingLost(f, s) && !Splits(Pending(f, s.table, s.cursor)) { PollLosesNothing(f, s); }
      }
    }
  }

  function Row(timestamp: int): Event {
    Event(Cursor(1, 0), 0, "", "", "", timestamp)
  }

  /** Events of one transaction with one id and different timestamps, one more than a page. */
  function Alike(n: nat): seq<Event> {
    seq(n, i => Row(i))
  }

  lemma {:induction false} AlikePending(f: Filter, c: Cursor, n: nat)
    requires f == Filter(0, "", "", "") && c == Cursor(0, 0)
    ensures Pending(f, Alike(n), c) == Select(Alike(n), Beyond(c)) == Alike(n)
  {
    if n > 0 {
      AlikePending(f, c, n - 1);
      assert Alike(n) == Alike(n - 1) + [Row(n - 1)];
      SelectSnoc(Alike(n - 1), Row(n - 1), Wanted(f, c));
      SelectSnoc(Alike(n - 1), Row(n - 1), Beyond(c));
      SortSnoc(Select(Alike(n - 1), Wanted(f, c)), Row(n - 1));
    }
  }

  lemma AlikeSplits(f: Filter, table: seq<Event>, c: Cursor)
    requires f == Filter(0, "", "", "") && c == Cursor(0, 0) && table == Alike(PAGE + 1)
    ensures Splits(Pending(f, table, c))
    ensures After(f, Begin(table, c), Poll).cursor == table[PAGE].key
    ensures After(f, Begin(table, c), Poll).delivered == table[..PAGE]
  {
    AlikePending(f, c, PAGE + 1);
    assert [] + table[..PAGE] == table[..PAGE];
  }

  lemma AlikeDue(f: Filter, table: seq<Event>, c: Cursor)
    requires f == Filter(0, "", "", "") && c == Cursor(0, 0) && table == Alike(PAGE + 1)
    ensures Due(f, Begin(table, c)) == table
  {
    AlikePending(f, c, PAGE + 1);
    SelectTwice(table, Beyond(c), Matching(f), Wanted(f, c));
  }

  /** The table's key is the id with the timestamp, so such rows may be in it, and a run
      can lose one: it came in above the cursor and matches, and neither the first poll
      nor any later one delivers it. */
  lemma SplitPageLosesRow() returns (f: Filter, table: seq<Event>, c: Cursor, e: Event)
    ensures forall i, j :: 0 <= i < j < |table| ==>
              table[i].key.id != table[j].key.id || table[i].timestamp != table[j].timestamp
    ensures e in Due(f, Begin(table, c)) && !NothingLost(f, Exec(f, Begin(table, c), [Poll]))
    ensures forall later: seq<Action> :: e !in Exec(f, Exec(f, Begin(table, c), [Poll]), later).delivered
  {
    f, table, c := Filter(0, "", "", ""), Alike(PAGE + 1), Cursor(0, 0);
    e := table[PAGE];
    AlikeDue(f, table, c);
    AlikeSplits(f, table, c);
    assert [Poll][..0] == [];
    var t := Exec(f, Begin(table, c), [Poll]);
    assert !NeverSplits(f, Begin(table, c), [Poll]);
    PollingRefinesScan(f, table, c, [Poll]);
    forall later: seq<Action> ensures e !in Exec(f, t, later).delivered {
      LateIsNeverDelivered(f, t, later, e);
    }
  }

  lemma {:induction false} DistinctPending(f: Filter, table: seq<Event>, c: Cursor)
    requires DistinctKeys(table)
    ensures DistinctKeys(Pending(f, table, c))
    decreases |table|
  {
    if table != [] {
      var front, last := table[..|table| - 1], table[|table| - 1];
      DistinctPending(f, front, c);
      if Wanted(f, c)(last) {
        SortSnoc(Select(front, Wanted(f, c)), last);
        PendingFacts(f, front, c);
        DistinctPlace(Pending(f, front, c), last);
      }
    }
  }

  /** Distinct keys never split, whatever order they came in. */
  lemma {:induction false} DistinctNeverSplits(f: Filter, s: State, run: seq<Action>)
    requires DistinctKeys(Exec(f, s, run).table)
    ensures NeverSplits(f, s, run)
    decreases |run|
  {
    if run != [] {
      var front := Exec(f, s, run[..|run| - 1]);
      assert front.table <= Exec(f, s, run).table;
      DistinctNeverSplits(f, s, run[..|run| - 1]);
      DistinctPending(f, front.table, front.cursor);
    }
  }

  function Polls(k: nat): seq<Action> {
    seq(k, _ => Poll)
  }

  function Max0(n: int): nat {
    if n < 0 then 0 else n
  }

  /** `s` after k polls. */
  function PolledFor(f: Filter, s: State, k: nat): State {
    if k == 0 then s else After(f, PolledFor(f, s, k - 1), Poll)
  }

  lemma ExecSnoc(f: Filter, s: State, run: seq<Action>, a: Action)
    ensures Exec(f, s, run + [a]) == After(f, Exec(f, s, run), a)
  {
  }

  lemma PollsSnoc(run: seq<Action>, k: nat)
    ensures run + Polls(0) == run
    ensures run + Polls(k + 1) == (run + Polls(k)) + [Poll]
  {
  }

  lemma {:induction false} ExecPolls(f: Filter, s: State, run: seq<Action>, k: nat, longer: seq<Action>)
    requires longer == run + Polls(k)
    ensures Exec(f, s, longer) == PolledFor(f, Exec(f, s, run), k)
    decreases k
  {
    if k == 0 {
      PollsSnoc(run, 0);
    } else {
      var shorter := run + Polls(k - 1);
      PollsSnoc(run, k - 1);
      ExecPolls(f, s, run, k - 1, shorter);
      ExecSnoc(f, s, shorter, Poll);
    }
  }

  /** `t` is k polls later than `s`: each took a page off what was pending, split or not. */
  predicate Polled(f: Filter, s: State, t: State, k: nat) {
    && t.table == s.table && t.timely == s.timely
    && |Pending(f, t.table, t.cursor)| <= Max0(|Pending(f, s.table, s.cursor)| - PAGE * k)
  }

  lemma PolledOnce(f: Filter, s: State, t: State, k: nat)
    requires Polled(f, s, t, k)
    ensures Polled(f, s, After(f, t, Poll), k + 1)
  {
    PollLeaves(f, t.table, t.cursor);
  }

  lemma {:induction false} PolledState(f: Filter, s: State, k: nat)
    ensures Polled(f, s, PolledFor(f, s, k), k)
    decreases k
  {
    if k > 0 {
      PolledState(f, s, k - 1);
      PolledOnce(f, s, PolledFor(f, s, k - 1), k - 1);
    }
  }

  lemma NothingPending(f: Filter, s: State, t: State, k: nat)
    requires Polled(f, s, t, k) && |Pending(f, s.table, s.cursor)| <= PAGE * k
    ensures NothingLost(f, t) <==> t.delivered == Due(f, s)
  {
    assert t.delivered + Pending(f, t.table, t.cursor) == t.delivered;
  }

  /** Once inserts stop, enough polls deliver all that is due, in order, if and only if
      no page has split; distinct keys are enough (`DistinctNeverSplits`). */
  lemma CatchesUp(f: Filter, table: seq<Event>, c: Cursor, run: seq<Action>, k: nat)
    requires var s := Exec(f, Begin(table, c), run); |Pending(f, s.table, s.cursor)| <= PAGE * k
    ensures Exec(f, Begin(table, c), run + Polls(k)).delivered == Due(f, Exec(f, Begin(table, c), run))
            <==> NeverSplits(f, Begin(table, c), run + Polls(k))
  {
    var start := Begin(table, c);
    PolledState(f, Exec(f, start, run), k);
    ExecPolls(f, start, run, k, run + Polls(k));
    PollingRefinesScan(f, table, c, run + Polls(k));
    NothingPending(f, Exec(f, start, run), Exec(f, start, run + Polls(k)), k);
  }

  /** A row that comes in at or below the cursor is not due, and no later poll of
      any run delivers it. */
  lemma {:induction false} LateIsNeverDelivered(f: Filter, s: State, run: seq<Action>, e: Event)
    requires !Less(s.cursor, e.key) && e !in s.delivered
    ensures e !in Exec(f, s, run).delivered && !Less(Exec(f, s, run).cursor, e.key)
    decreases |run|
  {
    if run != [] {
      LateIsNeverDelivered(f, s, run[..|run| - 1], e);
      var before := Exec(f, s, run[..|run| - 1]);
      PendingFacts(f, before.table, before.cursor);
      var page := Page(f, before.table, before.cursor);
      if page != [] {
        assert page[|page| - 1] in Pending(f, before.table, before.cursor);
        forall x | x in page ensures x in Pending(f, before.table, before.cursor) { }
      }
    }
  }

  class EventStream {
    const filter: Filter
    var lastCreatedAt: int
    var lastId: nat

    constructor (filter: Filter, now: int)
      ensures this.filter == filter && Position() == Cursor(now, 0)
    {
      this.filter, lastCreatedAt, lastId := filter, now, 0;
    }

    function Position(): Cursor
      reads this
    {
      Cursor(lastCreatedAt, lastId)
    }

    /** One round of the polling loop; the state machine's `Poll`. */
    method PollOnce(table: seq<Event>, ghost s: State) returns (yielded: seq<Event>)
      requires Position() == s.cursor && table == s.table
      modifies this
      ensures s.delivered + yielded == After(filter, s, Poll).delivered
      ensures Position() == After(filter, s, Poll).cursor
      ensures forall e :: e in yielded ==>
                && e in table && e.tenant == filter.tenant && (filter.severity == "" || e.severity == filter.severity)
                && (filter.kind == "" || e.kind == filter.kind) && (filter.agent == "" || e.agent == filter.agent)
    {
      ghost var c := Position();
      PageIsAsked(filter, table, c);
      var events := Page(filter, table, Position());
      yielded := [];
      for i := 0 to |events|
        invariant yielded == events[..i]
        invariant Position() == LastKey(events[..i], c)
      {
        lastCreatedAt := events[i].key.createdAt;
        lastId := events[i].key.id;
        yielded := yielded + [events[i]];
      }
      assert yielded == events;
      forall e | e in yielded ensures e in table { assert e in multiset(table); }
    }
  }

  // ---- the alert queue ----

  datatype QueueOp<T> = Put(alert: T) | Get

  /** What is queued after the run; `Get` on an empty queue waits. */
  function Queued<T>(run: seq<QueueOp<T>>): (q: seq<T>)
    decreases |run|
  {
    if run == [] then []
    else
      var q := Queued(run[..|run| - 1]);
      match run[|run| - 1]
      case Put(a) => if |q| < QUEUE_SIZE then q + [a] else q[1..] + [a]
      case Get => if q == [] then q else q[1..]
  }

  function Puts<T>(run: seq<QueueOp<T>>): seq<T>
    decreases |run|
  {
    if run == [] then []
    else
      match run[|run| - 1]
      case Put(a) => Puts(run[..|run| - 1]) + [a]
      case Get => Puts(run[..|run| - 1])
  }

  /** Which of the alerts put so far the subscriber got, by position. */
  function Got<T>(run: seq<QueueOp<T>>): seq<int>
    decreases |run|
  {
    if run == [] then []
    else
      var front, q := run[..|run| - 1], Queued(run[..|run| - 1]);
      if run[|run| - 1].Put? || q == [] then Got(front) else Got(front) + [|Puts(front)| - |q|]
  }

  function Dropped<T>(run: seq<QueueOp<T>>): nat
    decreases |run|
  {
    if run == [] then 0
    else
      var front := run[..|run| - 1];
      Dropped(front) + if run[|run| - 1].Put? && |Queued(front)| >= QUEUE_SIZE then 1 else 0
  }

  predicate AreNewest<T(==)>(q: seq<T>, puts: seq<T>) {
    |q| <= |puts| && q == puts[|puts| - |q|..]
  }

  lemma NewestMove<T>(q: seq<T>, puts: seq<T>, a: T)
    requires AreNewest(q, puts)
    ensures AreNewest(q + [a], puts + [a])
    ensures q != [] ==> AreNewest(q[1..], puts) && AreNewest(q[1..] + [a], puts + [a])
  {
  }

  lemma {:induction false} QueueIsNewest<T>(run: seq<QueueOp<T>>)
    ensures |Queued(run)| <= QUEUE_SIZE && AreNewest(Queued(run), Puts(run))
    decreases |run|
  {
    if run != [] {
      var front := run[..|run| - 1];
      QueueIsNewest(front);
      if run[|run| - 1].Put? {
        NewestMove(Queued(front), Puts(front), run[|run| - 1].alert);
      } else if Queued(front) != [] {
        NewestMove(Queued(front), Puts(front), Queued(front)[0]);
      }
    }
  }

  lemma {:induction false} AlertsCount<T>(run: seq<QueueOp<T>>)
    ensures |Got(run)| + |Queued(run)| + Dropped(run) == |Puts(run)|
    decreases |run|
  {
    if run != [] {
      AlertsCount(run[..|run| - 1]);
      QueueIsNewest(run[..|run| - 1]);
    }
  }

  /** The queue always holds the newest alerts, and every alert is got, queued or
      dropped. */
  lemma DropsOldest<T>(run: seq<QueueOp<T>>)
    ensures |Queued(run)| <= QUEUE_SIZE && |Queued(run)| <= |Puts(run)|
    ensures Queued(run) == Puts(run)[|Puts(run)| - |Queued(run)|..]
    ensures |Got(run)| + |Queued(run)| + Dropped(run) == |Puts(run)|
  {
    QueueIsNewest(run);
    AlertsCount(run);
  }

  /** The alerts got were got in the order they were put, each once, and all were
      put before anything still queued. */
  lemma {:induction false} GotInOrder<T>(run: seq<QueueOp<T>>)
    ensures |Queued(run)| <= |Puts(run)|
    ensures forall i :: 0 <= i < |Got(run)| ==> 0 <= Got(run)[i] < |Puts(run)| - |Queued(run)|
    ensures forall i, j :: 0 <= i < j < |Got(run)| ==> Got(run)[i] < Got(run)[j]
    decreases |run|
  {
    if run != [] { GotInOrder(run[..|run| - 1]); }
  }

  class AlertQueue<T> {
    var items: seq<T>

    constructor ()
      ensures items == []
    {
      items := [];
    }

    /** False when the queue is full. */
    method PutNowait(a: T) returns (ok: bool)
      modifies this
      ensures ok == (|old(items)| < QUEUE_SIZE)
      ensures items == if ok then old(items) + [a] else old(items)
    {
      ok := |items| < QUEUE_SIZE;
      if ok { items := items + [a]; }
    }

    method GetNowait() returns (a: T)
      requires items != []
      modifies this
      ensures a == old(items)[0] && items == old(items)[1..]
    {
      a, items := items[0], items[1..];
    }

    method OnAlert(a: T, ghost run: seq<QueueOp<T>>)
      requires items == Queued(run)
      modifies this
      ensures items == Queued(run + [Put(a)])
    {
      assert (run + [Put(a)])[..|run|] == run;
      DropsOldest(run);
      var ok := PutNowait(a);
      if !ok {
        var _ := GetNowait();
        ok := PutNowait(a);
      }
    }

    method Next(ghost run: seq<QueueOp<T>>) returns (a: T)
      requires items == Queued(run) && items != []
      modifies this
      ensures items == Queued(run + [Get])
      ensures |Got(run + [Get])| > |Got(run)|
      ensures var position := Got(run + [Get])[|Got(run)|];
              0 <= position < |Puts(run)| && a == Puts(run)[position]
    {
      assert (run + [Get])[..|run|] == run;
      DropsOldest(run);
      a := GetNowait();
    }
  }
}
