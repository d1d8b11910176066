/** The compliance router's per-tenant scan locks: evicting idle locks never lets
    two scans of one tenant run at once. */
module Compliance {
  import opened OrderedDict
  import opened Subsequences

  const MAX_SCAN_LOCKS := 200

  // ---- scan locks ----

  datatype Scan<L> = Scan(tenant: string, lock: L)

  /** The lock table, the locks that are held, and the scans in progress. */
  datatype State<L> = State(table: Dict<L>, locked: set<L>, running: seq<Scan<L>>)

  function Unlocked<L(==)>(table: Dict<L>, locked: set<L>, ks: seq<string>): (r: seq<string>)
    ensures forall k :: k in r ==> k in ks && k in table.at && table.at[k] !in locked
    decreases |ks|
  {
    if ks == [] then []
    else
      var front, last := ks[..|ks| - 1], ks[|ks| - 1];
      if last !in table.at || table.at[last] in locked then Unlocked(table, locked, front)
      else Unlocked(table, locked, front) + [last]
  }

  /** Half of the unlocked entries go, oldest first. */
  function Evicted<L(==)>(table: Dict<L>, locked: set<L>): Dict<L>
  {
    var free := Unlocked(table, locked, table.keys);
    PopAll(table, free[..|free| / 2])
  }

  function WithLock<L(==)>(table: Dict<L>, locked: set<L>, tenant: string, spare: L): Dict<L>
    ensures tenant in WithLock(table, locked, tenant, spare).at
  {
    if tenant in table.at then table
    else Put(if |table.keys| >= MAX_SCAN_LOCKS then Evicted(table, locked) else table, tenant, spare)
  }

  datatype Action<L> = Trigger(tenant: string, spare: L) | Finish(which: nat)

  ghost predicate Enabled<L>(s: State<L>, a: Action<L>) {
    match a
    case Trigger(tenant, spare) =>
      tenant !in s.table.at ==> spare !in s.locked && forall k :: k in s.table.at ==> s.table.at[k] != spare
    case Finish(i) => i < |s.running|
  }

  function Refuses<L(==)>(s: State<L>, tenant: string, spare: L): bool
  {
    WithLock(s.table, s.locked, tenant, spare).at[tenant] in s.locked
  }

  function Triggered<L(==)>(s: State<L>, tenant: string, spare: L): State<L>
  {
    var table := WithLock(s.table, s.locked, tenant, spare);
    if Refuses(s, tenant, spare) then s.(table := table)
    else State(table, s.locked + {table.at[tenant]}, s.running + [Scan(tenant, table.at[tenant])])
  }

  function Cut<L>(xs: seq<Scan<L>>, i: nat): seq<Scan<L>>
    requires i < |xs|
  {
    xs[..i] + xs[i + 1..]
  }

  function Finished<L>(s: State<L>, i: nat): State<L>
    requires i < |s.running|
  {
    State(s.table, s.locked - {s.running[i].lock}, Cut(s.running, i))
  }

  /** At most one scan per tenant. */
  predicate Exclusive<L>(running: seq<Scan<L>>) {
    forall i, j :: 0 <= i < j < |running| ==> running[i].tenant != running[j].tenant
  }

  predicate Held<L(==)>(s: State<L>, x: Scan<L>) {
    x.lock in s.locked && x.tenant in s.table.at && s.table.at[x.tenant] == x.lock
  }

  /** A running scan's lock is held and is still its tenant's entry in the table;
      a held lock belongs to a running scan; no two tenants share a lock. */
  ghost predicate Inv<L>(s: State<L>) {
    && Valid(s.table)
    && (forall k, m :: k in s.table.at && m in s.table.at && k != m ==> s.table.at[k] != s.table.at[m])
    && (forall x :: x in s.running ==> Held(s, x))
    && (forall l :: l in s.locked ==> exists x :: x in s.running && x.lock == l)
    && Exclusive(s.running)
  }

  lemma {:induction false} UnlockedDistinct<L>(table: Dict<L>, locked: set<L>, ks: seq<string>)
    requires Distinct(ks)
    ensures Distinct(Unlocked(table, locked, ks))
    decreases |ks|
  {
    if ks != [] {
      var front, last := ks[..|ks| - 1], ks[|ks| - 1];
      assert ks == front + [last] && last !in front;
      UnlockedDistinct(table, locked, front);
    }
  }

  /** The unlocked entries, all of them, oldest first. */
  lemma {:induction false} UnlockedAre<L>(table: Dict<L>, locked: set<L>, ks: seq<string>)
    ensures Subsequence(Unlocked(table, locked, ks), ks)
    ensures forall k :: k in ks && k in table.at && table.at[k] !in locked ==> k in Unlocked(table, locked, ks)
    decreases |ks|
  {
    if ks != [] {
      var front, last := ks[..|ks| - 1], ks[|ks| - 1];
      assert ks == front + [last];
      UnlockedAre(table, locked, front);
      SubsequenceSnoc(Unlocked(table, locked, front), front, last);
    }
  }

  /** A new lock goes last; before that, in a table of 200 or more, half of the unlocked
      entries go, those that came first. All else stays as it was. */
  lemma LockAdded<L>(table: Dict<L>, locked: set<L>, tenant: string, spare: L)
    requires Valid(table)
    ensures var t := WithLock(table, locked, tenant, spare);
            if tenant in table.at then t == table
            else
              var free := Unlocked(table, locked, table.keys);
              var gone := if |table.keys| >= 200 then free[..|free| / 2] else [];
              && t.keys != [] && t.keys[|t.keys| - 1] == tenant && t.at[tenant] == spare
              && forall k :: k != tenant ==>
                   && (k in t.at <==> k in table.at && k !in gone)
                   && (k in t.at ==> t.at[k] == table.at[k])
  {
    var free := Unlocked(table, locked, table.keys);
    UnlockedDistinct(table, locked, table.keys);
    forall k | k in free[..|free| / 2] ensures k in free { }
    PopAllFacts(table, free[..|free| / 2]);
  }

  /** Eviction keeps every held entry. */
  lemma EvictionSparesHeld<L>(table: Dict<L>, locked: set<L>)
    requires Valid(table)
    ensures Valid(Evicted(table, locked))
    ensures forall k :: k in Evicted(table, locked).at ==> k in table.at && Evicted(table, locked).at[k] == table.at[k]
    ensures forall k :: k in table.at && table.at[k] in locked ==> k in Evicted(table, locked).at
  {
    var free := Unlocked(table, locked, table.keys);
    UnlockedDistinct(table, locked, table.keys);
    forall k | k in free[..|free| / 2] ensures k in free { }
    PopAllFacts(table, free[..|free| / 2]);
  }

  lemma WithLockEntry<L>(table: Dict<L>, locked: set<L>, tenant: string, spare: L)
    ensures WithLock(table, locked, tenant, spare).at[tenant] == if tenant in table.at then table.at[tenant] else spare
  {
  }

  lemma WithLockKeeps<L>(s: State<L>, tenant: string, spare: L)
    requires Inv(s) && Enabled(s, Trigger(tenant, spare))
    ensures Inv(s.(table := WithLock(s.table, s.locked, tenant, spare)))
    ensures var l := WithLock(s.table, s.locked, tenant, spare).at[tenant];
            l == if tenant in s.table.at then s.table.at[tenant] else spare
  {
    EvictionSparesHeld(s.table, s.locked);
    var base := if |s.table.keys| >= MAX_SCAN_LOCKS then Evicted(s.table, s.locked) else s.table;
    var t := s.(table := WithLock(s.table, s.locked, tenant, spare));
    if tenant !in s.table.at {
      PutValid(base, tenant, spare);
      forall x | x in s.running ensures Held(t, x) {
        assert Held(s, x);
      }
    }
  }

  /** A request is refused if and only if a scan of this tenant is running. */
  lemma RefusedIffRunning<L>(s: State<L>, tenant: string, spare: L)
    requires Inv(s) && Enabled(s, Trigger(tenant, spare))
    ensures Refuses(s, tenant, spare) <==> exists x :: x in s.running && x.tenant == tenant
  {
  }

  lemma TriggerKeeps<L>(s: State<L>, tenant: string, spare: L)
    requires Inv(s) && Enabled(s, Trigger(tenant, spare))
    ensures Inv(Triggered(s, tenant, spare))
  {
    WithLockKeeps(s, tenant, spare);
    RefusedIffRunning(s, tenant, spare);
    var t := s.(table := WithLock(s.table, s.locked, tenant, spare));
    if !Refuses(s, tenant, spare) {
      var u := Triggered(s, tenant, spare);
      var new_ := Scan(tenant, t.table.at[tenant]);
      assert u.running == t.running + [new_];
      forall x | x in u.running ensures Held(u, x) {
        if x in t.running { assert Held(t, x); }
      }
      forall l | l in u.locked ensures exists x :: x in u.running && x.lock == l {
        if l in t.locked {
          var x :| x in t.running && x.lock == l;
          assert x in u.running;
        } else {
          assert new_ in u.running;
        }
      }
    }
  }

  lemma CutFacts<L>(xs: seq<Scan<L>>, i: nat)
    requires i < |xs| && Exclusive(xs)
    ensures Exclusive(Cut(xs, i))
    ensures forall x :: x in Cut(xs, i) <==> x in xs && x.tenant != xs[i].tenant
  {
  }

  lemma FinishKeeps<L>(s: State<L>, i: nat)
    requires Inv(s) && i < |s.running|
    ensures Inv(Finished(s, i))
  {
    var t, gone := Finished(s, i), s.running[i];
    CutFacts(s.running, i);
    assert Held(s, gone);
    forall x | x in t.running ensures Held(t, x) {
      assert Held(s, x);
    }
    forall l | l in t.locked ensures exists x :: x in t.running && x.lock == l {
      var x :| x in s.running && x.lock == l;
      assert Held(s, x);
    }
  }

  function Start<L>(): State<L> {
    State(Empty(), {}, [])
  }

  function Next<L(==)>(s: State<L>, a: Action<L>): State<L> {
    match a
    case Trigger(tenant, spare) => Triggered(s, tenant, spare)
    case Finish(i) => if i < |s.running| then Finished(s, i) else s
  }

  function Exec<L(==)>(run: seq<Action<L>>): State<L>
    decreases |run|
  {
    if run == [] then Start() else Next(Exec(run[..|run| - 1]), run[|run| - 1])
  }

  /** Every step was possible: a new lock is new, and what finishes was running. */
  ghost predicate Possible<L>(run: seq<Action<L>>)
    decreases |run|
  {
    run == [] || (Possible(run[..|run| - 1]) && Enabled(Exec(run[..|run| - 1]), run[|run| - 1]))
  }

  /** In every interleaving of requests and endings, with eviction in between, at
      most one scan per tenant runs, because a running scan's lock stays the
      table's entry for its tenant. */
  lemma {:induction false} ScansExclude<L>(run: seq<Action<L>>)
    requires Possible(run)
    ensures Inv(Exec(run))
    decreases |run|
  {
    if run != [] {
      var s := Exec(run[..|run| - 1]);
      ScansExclude(run[..|run| - 1]);
      match run[|run| - 1]
      case Trigger(tenant, spare) => TriggerKeeps(s, tenant, spare);
      case Finish(i) => FinishKeeps(s, i);
    }
  }

  // ---- what runs, without locks ----

  /** The tenants with a scan in progress: a request starts one unless there is one. */
  function Scanning<L>(run: seq<Action<L>>): seq<string>
    decreases |run|
  {
    if run == [] then []
    else
      var before := Scanning(run[..|run| - 1]);
      match run[|run| - 1]
      case Trigger(tenant, _) => if tenant in before then before else before + [tenant]
      case Finish(i) => if i < |before| then before[..i] + before[i + 1..] else before
  }

  function Tenants<L>(running: seq<Scan<L>>): (r: seq<string>)
    ensures |r| == |running|
  {
    seq(|running|, i requires 0 <= i < |running| => running[i].tenant)
  }

  lemma TenantsIn<L>(running: seq<Scan<L>>, tenant: string)
    ensures tenant in Tenants(running) <==> exists x :: x in running && x.tenant == tenant
  {
    if x :| x in running && x.tenant == tenant {
      var i :| 0 <= i < |running| && running[i] == x;
      assert Tenants(running)[i] == tenant;
    }
    if tenant in Tenants(running) {
      var i :| 0 <= i < |running| && Tenants(running)[i] == tenant;
      assert running[i] in running;
    }
  }

  /** The locks do what they are for: in every run exactly those scans are in progress that
      were requested while the tenant had none and have not ended. */
  lemma {:induction false} RunningIs<L>(run: seq<Action<L>>)
    requires Possible(run)
    ensures Tenants(Exec(run).running) == Scanning(run)
    decreases |run|
  {
    if run != [] {
      var s := Exec(run[..|run| - 1]);
      RunningIs(run[..|run| - 1]);
      ScansExclude(run[..|run| - 1]);
      match run[|run| - 1]
      case Trigger(tenant, spare) =>
        RefusedIffRunning(s, tenant, spare);
        TenantsIn(s.running, tenant);
      case Finish(i) =>
    }
  }

  // ---- the locks in place ----

  class Lock {
    var locked: bool

    constructor ()
      ensures !locked
    {
      locked := false;
    }
  }

  /** The locks of a table that are held. */
  ghost function HeldIn(t: Dict<Lock>): set<Lock>
    reads t.at.Values
  {
    set k | k in t.at && t.at[k].locked :: t.at[k]
  }

  lemma EvictionHolds(t: Dict<Lock>)
    requires Valid(t)
    ensures Valid(Evicted(t, HeldIn(t))) && Evicted(t, HeldIn(t)).at.Values <= t.at.Values
    ensures HeldIn(Evicted(t, HeldIn(t))) == HeldIn(t)
    ensures forall k :: k in Evicted(t, HeldIn(t)).at ==> k in t.at
  {
    EvictionSparesHeld(t, HeldIn(t));
  }

  lemma PutFree(t: Dict<Lock>, k: string, l: Lock)
    requires k !in t.at && !l.locked
    ensures HeldIn(Put(t, k, l)) == HeldIn(t)
    ensures Put(t, k, l).at.Values == t.at.Values + {l}
  {
    var u := Put(t, k, l);
    forall m | m in t.at ensures m in u.at && u.at[m] == t.at[m] { }
    assert u.at[k] == l;
  }

  class ScanLocks {
    var table: Dict<Lock>
    ghost var running: seq<Scan<Lock>>

    ghost function View(): State<Lock>
      reads this, table.at.Values
    {
      State(table, HeldIn(table), running)
    }

    constructor ()
      ensures View() == Start()
    {
      table, running := Empty(), [];
    }

    method UnlockedKeys() returns (keys: seq<string>)
      requires Valid(table)
      ensures keys == Unlocked(table, View().locked, table.keys)
    {
      keys := [];
      for i := 0 to |table.keys|
        invariant keys == Unlocked(table, View().locked, table.keys[..i])
      {
        assert table.keys[..i + 1][..i] == table.keys[..i];
        if !table.at[table.keys[i]].locked { keys := keys + [table.keys[i]]; }
      }
      assert table.keys[..|table.keys|] == table.keys;
    }

    /** The part of `table` that eviction leaves. */
    method Evict() returns (left: Dict<Lock>)
      requires Valid(table)
      ensures left == Evicted(table, View().locked)
    {
      var toRemove := UnlockedKeys();
      var half := toRemove[..|toRemove| / 2];
      left := table;
      for i := 0 to |half|
        invariant left == PopAll(table, half[..i])
      {
        assert half[..i + 1][..i] == half[..i];
        left := Pop(left, half[i]);
      }
      assert half[..|half|] == half;
    }

    method AddLock(base: Dict<Lock>, tenant: string) returns (lock: Lock)
      requires tenant !in base.at
      modifies this`table
      ensures fresh(lock) && !lock.locked && table == Put(base, tenant, lock)
      ensures HeldIn(table) == old(HeldIn(base))
    {
      lock := new Lock();
      PutFree(base, tenant, lock);
      table := Put(base, tenant, lock);
    }

    /** Makes sure that the tenant has a lock, evicting when the table is full. */
    method EnsureLock(tenant: string) returns (ghost spare: Lock)
      requires Valid(table)
      modifies this`table
      ensures tenant !in old(table.at) ==> fresh(spare) && !spare.locked
      ensures table == WithLock(old(table), old(HeldIn(table)), tenant, spare)
      ensures HeldIn(table) == old(HeldIn(table))
    {
      if tenant in table.at {
        spare := table.at[tenant];
      } else {
        var base := table;
        if |table.keys| >= MAX_SCAN_LOCKS {
          EvictionHolds(table);
          base := Evict();
        }
        spare := AddLock(base, tenant);
      }
    }

    method Acquire(tenant: string) returns (started: bool)
      requires tenant in table.at
      modifies table.at[tenant], this`running
      ensures started == (table.at[tenant] !in old(HeldIn(table)))
      ensures HeldIn(table) == old(HeldIn(table)) + {table.at[tenant]}
      ensures running == if started then old(running) + [Scan(tenant, table.at[tenant])] else old(running)
    {
      var lock := table.at[tenant];
      started := !lock.locked;
      if started {
        lock.locked := true;
        running := running + [Scan(tenant, lock)];
      }
    }

    /** A scan request, up to holding the lock. */
    method TryStart(tenant: string) returns (started: bool, ghost spare: Lock)
      requires Inv(View())
      modifies this, table.at.Values
      ensures Enabled(old(View()), Trigger(tenant, spare))
      ensures View() == Triggered(old(View()), tenant, spare)
      ensures started == !Refuses(old(View()), tenant, spare)
    {
      ghost var before := View();
      spare := EnsureLock(tenant);
      WithLockEntry(before.table, before.locked, tenant, spare);
      started := Acquire(tenant);
    }

    /** The scan is over, or failed: its lock is released. */
    method Release(ghost i: nat, lock: Lock)
      requires Inv(View()) && i < |running| && running[i].lock == lock
      modifies this, lock
      ensures View() == Finished(old(View()), i)
    {
      assert Held(View(), running[i]);
      lock.locked := false;
      running := Cut(running, i);
    }
  }
}
