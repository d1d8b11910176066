/** The compliance scorecard cache: one entry per tenant, at most 200 of them, the
    older half dropped when it is full. */
module ScoreCache {
  import opened OrderedDict
  import opened Subsequences
  import opened Options

  const MAX_CACHE_ENTRIES := 200
  const SCORE_CACHE_TTL := 60.0

  datatype Cached<D> = Cached(at: real, data: D)

  /** `k` behind everything that is not newer. */
  function PlaceByAge<D>(d: Dict<Cached<D>>, s: seq<string>, k: string): (r: seq<string>)
    requires k in d.at && forall x :: x in s ==> x in d.at
    ensures forall x :: x in r <==> x == k || x in s
    decreases |s|
  {
    if s == [] then [k]
    else
      var front, last := s[..|s| - 1], s[|s| - 1];
      assert s == front + [last];
      if d.at[k].at < d.at[last].at then PlaceByAge(d, front, k) + [last] else s + [k]
  }

  function ByAge<D>(d: Dict<Cached<D>>, ks: seq<string>): (r: seq<string>)
    requires forall x :: x in ks ==> x in d.at
    ensures forall x :: x in r <==> x in ks
    decreases |ks|
  {
    if ks == [] then []
    else
      assert ks == ks[..|ks| - 1] + [ks[|ks| - 1]];
      PlaceByAge(d, ByAge(d, ks[..|ks| - 1]), ks[|ks| - 1])
  }

  function OlderHalf<D>(d: Dict<Cached<D>>): seq<string>
    requires forall x :: x in d.keys ==> x in d.at
  {
    var s := ByAge(d, d.keys);
    s[..|s| / 2]
  }

  function Stored<D>(d: Dict<Cached<D>>, tenant: string, now: real, data: D): Dict<Cached<D>>
    requires forall x :: x in d.keys ==> x in d.at
  {
    var base := if |d.keys| >= MAX_CACHE_ENTRIES then PopAll(d, OlderHalf(d)) else d;
    Put(base, tenant, Cached(now, data))
  }

  function Lookup<D>(d: Dict<Cached<D>>, tenant: string, now: real): Option<D> {
    if tenant in d.at && now - d.at[tenant].at < SCORE_CACHE_TTL then Some(d.at[tenant].data) else None
  }

  // ---- eviction ----

  ghost predicate OrderedByAge<D>(d: Dict<Cached<D>>, s: seq<string>) {
    && (forall x :: x in s ==> x in d.at)
    && forall i, j :: 0 <= i < j < |s| ==> d.at[s[i]].at <= d.at[s[j]].at
  }

  lemma {:induction false} PlaceByAgeOrdered<D>(d: Dict<Cached<D>>, s: seq<string>, k: string)
    requires OrderedByAge(d, s) && k in d.at
    ensures OrderedByAge(d, PlaceByAge(d, s, k))
    decreases |s|
  {
    if s != [] {
      var front, last := s[..|s| - 1], s[|s| - 1];
      assert s == front + [last];
      if d.at[k].at < d.at[last].at {
        PlaceByAgeOrdered(d, front, k);
        OrderedSnoc(d, PlaceByAge(d, front, k), last);
      } else {
        OrderedSnoc(d, s, k);
      }
    }
  }

  lemma OrderedSnoc<D>(d: Dict<Cached<D>>, s: seq<string>, last: string)
    requires OrderedByAge(d, s) && last in d.at && forall x :: x in s ==> d.at[x].at <= d.at[last].at
    ensures OrderedByAge(d, s + [last])
  {
  }

  lemma {:induction false} PlaceByAgeDistinct<D>(d: Dict<Cached<D>>, s: seq<string>, k: string)
    requires Distinct(s) && k in d.at && k !in s && forall x :: x in s ==> x in d.at
    ensures Distinct(PlaceByAge(d, s, k)) && |PlaceByAge(d, s, k)| == |s| + 1
    decreases |s|
  {
    if s != [] {
      var front, last := s[..|s| - 1], s[|s| - 1];
      assert s == front + [last] && last !in front;
      PlaceByAgeDistinct(d, front, k);
    }
  }

  lemma {:induction false} ByAgeFacts<D>(d: Dict<Cached<D>>, ks: seq<string>)
    requires Distinct(ks) && forall x :: x in ks ==> x in d.at
    ensures OrderedByAge(d, ByAge(d, ks)) && Distinct(ByAge(d, ks)) && |ByAge(d, ks)| == |ks|
    decreases |ks|
  {
    if ks != [] {
      var front, last := ks[..|ks| - 1], ks[|ks| - 1];
      assert ks == front + [last] && last !in front;
      ByAgeFacts(d, front);
      PlaceByAgeOrdered(d, ByAge(d, front), last);
      PlaceByAgeDistinct(d, ByAge(d, front), last);
    }
  }

  lemma OlderFirst<D>(d: Dict<Cached<D>>, s: seq<string>, n: nat, x: string, y: string)
    requires OrderedByAge(d, s) && n <= |s| && x in s[..n] && y in s && y !in s[..n]
    ensures d.at[x].at <= d.at[y].at
  {
  }

  /** Exactly half of the entries go, and none of them is newer than one that stays. */
  lemma EvictsOlderHalf<D>(d: Dict<Cached<D>>)
    requires Valid(d)
    ensures var left := PopAll(d, OlderHalf(d));
            && Valid(left) && |left.keys| == |d.keys| - |d.keys| / 2
            && (forall k :: k in left.at ==> k in d.at && left.at[k] == d.at[k])
            && (forall gone, k :: gone in d.at && gone !in left.at && k in left.at ==> d.at[gone].at <= d.at[k].at)
  {
    var s := ByAge(d, d.keys);
    ByAgeFacts(d, d.keys);
    PopAllFacts(d, OlderHalf(d));
    var left := PopAll(d, OlderHalf(d));
    forall gone, k | gone in d.at && gone !in left.at && k in left.at ensures d.at[gone].at <= d.at[k].at {
      OlderFirst(d, s, |s| / 2, gone, k);
    }
  }

  // ---- runs ----

  datatype Store<D> = Store(tenant: string, now: real, data: D)

  ghost function Exec<D>(run: seq<Store<D>>): (d: Dict<Cached<D>>)
    ensures Valid(d)
    decreases |run|
  {
    if run == [] then Empty()
    else
      var before, op := Exec(run[..|run| - 1]), run[|run| - 1];
      StoredFacts(before, op.tenant, op.now, op.data);
      Stored(before, op.tenant, op.now, op.data)
  }

  lemma StoredFacts<D>(d: Dict<Cached<D>>, tenant: string, now: real, data: D)
    requires Valid(d)
    ensures var t := Stored(d, tenant, now, data);
            && Valid(t) && tenant in t.at && t.at[tenant] == Cached(now, data)
            && (|d.keys| <= MAX_CACHE_ENTRIES ==> |t.keys| <= MAX_CACHE_ENTRIES)
            && (forall k :: k in t.at && k != tenant ==> k in d.at && t.at[k] == d.at[k])
            && (|d.keys| < MAX_CACHE_ENTRIES ==> forall k :: k in d.at ==> k in t.at)
  {
    EvictsOlderHalf(d);
    PutValid(if |d.keys| >= MAX_CACHE_ENTRIES then PopAll(d, OlderHalf(d)) else d, tenant, Cached(now, data));
  }

  /** The cache never holds more than its limit. */
  lemma {:induction false} CacheBounded<D>(run: seq<Store<D>>)
    ensures |Exec(run).keys| <= MAX_CACHE_ENTRIES
    decreases |run|
  {
    if run != [] {
      CacheBounded(run[..|run| - 1]);
      var op := run[|run| - 1];
      StoredFacts(Exec(run[..|run| - 1]), op.tenant, op.now, op.data);
    }
  }

  function LastStore<D>(run: seq<Store<D>>, tenant: string): Option<Cached<D>>
    decreases |run|
  {
    if run == [] then None
    else if run[|run| - 1].tenant == tenant then Some(Cached(run[|run| - 1].now, run[|run| - 1].data))
    else LastStore(run[..|run| - 1], tenant)
  }

  lemma {:induction false} EntryIsLastStore<D>(run: seq<Store<D>>, tenant: string)
    requires tenant in Exec(run).at
    ensures LastStore(run, tenant) == Some(Exec(run).at[tenant])
    decreases |run|
  {
    if run != [] {
      var op := run[|run| - 1];
      StoredFacts(Exec(run[..|run| - 1]), op.tenant, op.now, op.data);
      if op.tenant != tenant { EntryIsLastStore(run[..|run| - 1], tenant); }
    }
  }

  /** A hit is what was last stored for this very tenant, less than 60 s ago. */
  lemma HitIsYoungLastStore<D>(run: seq<Store<D>>, tenant: string, now: real)
    requires Lookup(Exec(run), tenant, now).Some?
    ensures var last := LastStore(run, tenant);
            last.Some? && Lookup(Exec(run), tenant, now) == Some(last.value.data)
            && now - last.value.at < SCORE_CACHE_TTL
  {
    EntryIsLastStore(run, tenant);
  }

  /** The cache was never full before a store of the run. */
  ghost predicate NeverFull<D>(run: seq<Store<D>>)
    decreases |run|
  {
    run == [] || (NeverFull(run[..|run| - 1]) && |Exec(run[..|run| - 1]).keys| < MAX_CACHE_ENTRIES)
  }

  /** And while it has not been full, every young last store is a hit. */
  lemma {:induction false} YoungLastStoreIsHit<D>(run: seq<Store<D>>, tenant: string, now: real)
    requires NeverFull(run)
    ensures var last := LastStore(run, tenant);
            Lookup(Exec(run), tenant, now) ==
            if last.Some? && now - last.value.at < SCORE_CACHE_TTL then Some(last.value.data) else None
    decreases |run|
  {
    if run != [] {
      var front, op := run[..|run| - 1], run[|run| - 1];
      StoredFacts(Exec(front), op.tenant, op.now, op.data);
      if op.tenant != tenant { YoungLastStoreIsHit(front, tenant, now); }
    }
  }

  class ScoreCache<D> {
    var entries: Dict<Cached<D>>

    constructor ()
      ensures entries == Empty()
    {
      entries := Empty();
    }

    method Get(tenant: string, now: real) returns (hit: Option<D>)
      requires Valid(entries)
      ensures hit == Lookup(entries, tenant, now)
    {
      hit := None;
      if tenant in entries.at {
        var cached := entries.at[tenant];
        if now - cached.at < SCORE_CACHE_TTL { hit := Some(cached.data); }
      }
    }

    method Update(tenant: string, now: real, data: D)
      requires Valid(entries)
      modifies this
      ensures Valid(entries) && entries == Stored(old(entries), tenant, now, data)
    {
      if |entries.keys| >= MAX_CACHE_ENTRIES {
        var sortedKeys := ByAge(entries, entries.keys);
        var half := sortedKeys[..|sortedKeys| / 2];
        for i := 0 to |half|
          invariant entries == PopAll(old(entries), half[..i])
        {
          assert half[..i + 1][..i] == half[..i];
          entries := Pop(entries, half[i]);
        }
        assert half[..|half|] == half;
      }
      entries := Put(entries, tenant, Cached(now, data));
      StoredFacts(old(entries), tenant, now, data);
    }
  }
}
