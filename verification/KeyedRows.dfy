/** Rows ordered by the key (created_at, id), as a query filters and sorts them: the sort
    is stable and keeps every row, filtering before or after it is the same, and a row
    goes in behind all that are not above it. Equal keys are allowed. */
module KeyedRows {

  datatype Cursor = Cursor(createdAt: int, id: nat)

  datatype Event = Event(key: Cursor, tenant: int, severity: string, kind: string, agent: string, timestamp: int)

  predicate Less(a: Cursor, b: Cursor) {
    a.createdAt < b.createdAt || (a.createdAt == b.createdAt && a.id < b.id)
  }

  function Select(xs: seq<Event>, p: Event -> bool): seq<Event>
    decreases |xs|
  {
    if xs == [] then []
    else
      var front := Select(xs[..|xs| - 1], p);
      if p(xs[|xs| - 1]) then front + [xs[|xs| - 1]] else front
  }

  /** `e` after everything that is not above it. */
  function Place(s: seq<Event>, e: Event): seq<Event>
    decreases |s|
  {
    if s == [] then [e]
    else if Less(e.key, s[|s| - 1].key) then Place(s[..|s| - 1], e) + [s[|s| - 1]]
    else s + [e]
  }

  function Sort(xs: seq<Event>): seq<Event>
    decreases |xs|
  {
    if xs == [] then [] else Place(Sort(xs[..|xs| - 1]), xs[|xs| - 1])
  }

  function Beyond(c: Cursor): Event -> bool {
    (e: Event) => Less(c, e.key)
  }

  predicate Sorted(s: seq<Event>) {
    forall i, j :: 0 <= i < j < |s| ==> !Less(s[j].key, s[i].key)
  }

  lemma SortedSnoc(s: seq<Event>, last: Event)
    requires Sorted(s) && forall x :: x in s ==> !Less(last.key, x.key)
    ensures Sorted(s + [last])
  {
  }

  lemma {:induction false} PlaceCounts(s: seq<Event>, e: Event)
    ensures multiset(Place(s, e)) == multiset(s) + multiset{e}
    decreases |s|
  {
    if s != [] && Less(e.key, s[|s| - 1].key) {
      PlaceCounts(s[..|s| - 1], e);
      assert s == s[..|s| - 1] + [s[|s| - 1]];
    }
  }

  lemma {:induction false} PlaceIn(s: seq<Event>, e: Event)
    ensures forall x :: x in Place(s, e) <==> x == e || x in s
    decreases |s|
  {
    if s != [] && Less(e.key, s[|s| - 1].key) {
      PlaceIn(s[..|s| - 1], e);
      assert s == s[..|s| - 1] + [s[|s| - 1]];
    }
  }

  lemma {:induction false} PlaceSorted(s: seq<Event>, e: Event)
    requires Sorted(s)
    ensures Sorted(Place(s, e))
    decreases |s|
  {
    if s != [] && Less(e.key, s[|s| - 1].key) {
      var front, last := s[..|s| - 1], s[|s| - 1];
      PlaceSorted(front, e);
      PlaceIn(front, e);
      SortedSnoc(Place(front, e), last);
    }
  }

  lemma {:induction false} SortSorts(xs: seq<Event>)
    ensures Sorted(Sort(xs)) && multiset(Sort(xs)) == multiset(xs)
    decreases |xs|
  {
    if xs != [] {
      SortSorts(xs[..|xs| - 1]);
      PlaceSorted(Sort(xs[..|xs| - 1]), xs[|xs| - 1]);
      PlaceCounts(Sort(xs[..|xs| - 1]), xs[|xs| - 1]);
      assert xs == xs[..|xs| - 1] + [xs[|xs| - 1]];
    }
  }

  lemma {:induction false} SelectSnoc(xs: seq<Event>, e: Event, p: Event -> bool)
    ensures Select(xs + [e], p) == if p(e) then Select(xs, p) + [e] else Select(xs, p)
  {
  }

  lemma {:induction false} SortSnoc(xs: seq<Event>, e: Event)
    ensures Sort(xs + [e]) == Place(Sort(xs), e)
  {
  }

  lemma {:induction false} SelectIn(xs: seq<Event>, p: Event -> bool)
    ensures forall e :: e in Select(xs, p) <==> e in xs && p(e)
    decreases |xs|
  {
    if xs != [] {
      SelectIn(xs[..|xs| - 1], p);
      assert xs == xs[..|xs| - 1] + [xs[|xs| - 1]];
    }
  }

  lemma {:induction false} SelectTwice(xs: seq<Event>, p: Event -> bool, q: Event -> bool, both: Event -> bool)
    requires forall e :: both(e) <==> p(e) && q(e)
    ensures Select(Select(xs, p), q) == Select(xs, both)
    decreases |xs|
  {
    if xs != [] {
      var front, last := xs[..|xs| - 1], xs[|xs| - 1];
      SelectTwice(front, p, q, both);
      if p(last) { SelectSnoc(Select(front, p), last, q); }
    }
  }

  lemma {:induction false} SelectPlace(s: seq<Event>, e: Event, p: Event -> bool)
    requires Sorted(s)
    ensures Select(Place(s, e), p) == if p(e) then Place(Select(s, p), e) else Select(s, p)
    decreases |s|
  {
    if s == [] {
      SelectSnoc([], e, p);
    } else if Less(e.key, s[|s| - 1].key) {
      var front, last := s[..|s| - 1], s[|s| - 1];
      SelectPlace(front, e, p);
      SelectSnoc(Place(front, e), last, p);
      if p(last) { PlaceSnoc(Select(front, p), last, e); }
      else if p(e) { assert Select(s, p) == Select(front, p); }
    } else {
      SelectSnoc(s, e, p);
      if p(e) { NothingAbove(Select(s, p), e, s, p); }
    }
  }

  lemma PlaceSnoc(s: seq<Event>, last: Event, e: Event)
    requires Less(e.key, last.key)
    ensures Place(s + [last], e) == Place(s, e) + [last]
  {
  }

  lemma NothingAbove(t: seq<Event>, e: Event, s: seq<Event>, p: Event -> bool)
    requires Sorted(s) && s != [] && !Less(e.key, s[|s| - 1].key) && t == Select(s, p)
    ensures Place(t, e) == t + [e]
  {
  }

  /** Filtering before or after sorting is the same. */
  lemma {:induction false} SelectSort(xs: seq<Event>, p: Event -> bool)
    ensures Select(Sort(xs), p) == Sort(Select(xs, p))
    decreases |xs|
  {
    if xs != [] {
      var front, last := xs[..|xs| - 1], xs[|xs| - 1];
      SelectSort(front, p);
      SortSorts(front);
      SelectPlace(Sort(front), last, p);
      if p(last) { SortSnoc(Select(front, p), last); }
    }
  }

  lemma {:induction false} SelectAll(xs: seq<Event>, p: Event -> bool)
    requires forall e :: e in xs ==> p(e)
    ensures Select(xs, p) == xs
    decreases |xs|
  {
    if xs != [] {
      SelectAll(xs[..|xs| - 1], p);
      assert xs == xs[..|xs| - 1] + [xs[|xs| - 1]];
    }
  }

  lemma {:induction false} SelectNone(xs: seq<Event>, p: Event -> bool)
    requires forall e :: e in xs ==> !p(e)
    ensures Select(xs, p) == []
    decreases |xs|
  {
    if xs != [] { SelectNone(xs[..|xs| - 1], p); }
  }

  lemma {:induction false} SelectConcat(xs: seq<Event>, ys: seq<Event>, p: Event -> bool)
    ensures Select(xs + ys, p) == Select(xs, p) + Select(ys, p)
    decreases |ys|
  {
    if ys == [] {
      assert xs + ys == xs;
    } else {
      SelectConcat(xs, ys[..|ys| - 1], p);
      assert xs + ys == (xs + ys[..|ys| - 1]) + [ys[|ys| - 1]];
      SelectSnoc(xs + ys[..|ys| - 1], ys[|ys| - 1], p);
    }
  }

  lemma {:induction false} PlaceAfter(d: seq<Event>, s: seq<Event>, e: Event)
    requires forall i :: 0 <= i < |d| ==> !Less(e.key, d[i].key)
    ensures Place(d + s, e) == d + Place(s, e)
    decreases |s|
  {
    if s == [] {
      assert d + s == d;
    } else {
      var front, last := s[..|s| - 1], s[|s| - 1];
      assert d + s == (d + front) + [last];
      if Less(e.key, last.key) {
        PlaceAfter(d, front, e);
        PlaceSnoc(d + front, last, e);
      }
    }
  }

  lemma SelectBeyond(front: seq<Event>, back: seq<Event>, c: Cursor)
    requires forall e :: e in front ==> !Less(c, e.key)
    ensures Select(front + back, Beyond(c)) == Select(back, Beyond(c))
  {
    SelectConcat(front, back, Beyond(c));
    SelectNone(front, Beyond(c));
  }

  lemma BoundaryIff(s: seq<Event>, n: nat)
    requires Sorted(s) && 0 < n <= |s|
    ensures Select(s, Beyond(s[n - 1].key)) == s[n..] <==> (n < |s| ==> s[n - 1].key != s[n].key)
  {
    var above := Beyond(s[n - 1].key);
    assert s == s[..n] + s[n..];
    SelectBeyond(s[..n], s[n..], s[n - 1].key);
    if n < |s| && s[n - 1].key == s[n].key {
      SelectIn(s[n..], above);
      assert s[n] in s[n..] && !above(s[n]);
    } else {
      RestIsAbove(s, n);
      SelectAll(s[n..], above);
    }
  }

  lemma RestIsAbove(s: seq<Event>, n: nat)
    requires Sorted(s) && 0 < n <= |s| && (n < |s| ==> s[n - 1].key != s[n].key)
    ensures forall e :: e in s[n..] ==> Less(s[n - 1].key, e.key)
  {
  }

  lemma {:induction false} PlaceGrows(s: seq<Event>, e: Event)
    ensures |Place(s, e)| == |s| + 1
    decreases |s|
  {
    if s != [] && Less(e.key, s[|s| - 1].key) { PlaceGrows(s[..|s| - 1], e); }
  }

  lemma {:induction false} SelectShrinks(xs: seq<Event>, p: Event -> bool)
    ensures |Select(xs, p)| <= |xs| && (|Select(xs, p)| == |xs| ==> Select(xs, p) == xs)
    decreases |xs|
  {
    if xs != [] { SelectShrinks(xs[..|xs| - 1], p); }
  }

  predicate DistinctKeys(xs: seq<Event>) {
    forall i, j :: 0 <= i < j < |xs| ==> xs[i].key != xs[j].key
  }

  lemma {:induction false} DistinctPlace(s: seq<Event>, e: Event)
    requires DistinctKeys(s) && forall x :: x in s ==> x.key != e.key
    ensures DistinctKeys(Place(s, e)) && forall x :: x in Place(s, e) ==> x == e || x in s
    decreases |s|
  {
    if s != [] && Less(e.key, s[|s| - 1].key) {
      DistinctPlace(s[..|s| - 1], e);
      forall x | x in s[..|s| - 1] ensures x.key != s[|s| - 1].key { }
    }
  }
}
