/** Installing a model package backs the current tree up; rolling back takes the
    latest backup. Trees map paths to contents; backups are named by a time stamp. */
module ModelPackages {
  import opened Options

  type Tree = map<string, string>

  const MARKER := ".phantex-model-version"

  /** Skipped: not under "models/"; Escapes: refused by the path checks, or
      extraction fails. */
  datatype Member = Skipped | File(path: string, content: string) | Escapes

  datatype Package = Package(verified: bool, members: seq<Member>, marker: string)

  datatype State = State(target: Option<Tree>, backups: map<nat, Tree>)

  datatype Outcome = Installed | Unverified | BackupExists | Broken

  // ---- install and roll back ----

  /** The tree after extraction, up to the first member that fails. */
  function Extracted(t: Tree, ms: seq<Member>): Tree {
    if ms == [] then t
    else
      var front := Extracted(t, ms[..|ms| - 1]);
      match ms[|ms| - 1]
      case File(path, content) => if Fails(ms[..|ms| - 1]) then front else front[path := content]
      case _ => front
  }

  predicate Fails(ms: seq<Member>) {
    exists i :: 0 <= i < |ms| && ms[i].Escapes?
  }

  function NewTree(t: Tree, p: Package): Tree {
    if Fails(p.members) then Extracted(t, p.members) else Extracted(t, p.members)[MARKER := p.marker]
  }

  function InstallOutcome(s: State, p: Package, stamp: nat): Outcome {
    if !p.verified then Unverified
    else if s.target.Some? && stamp in s.backups then BackupExists
    else if Fails(p.members) then Broken
    else Installed
  }

  function Install(s: State, p: Package, stamp: nat): State {
    if InstallOutcome(s, p, stamp).Unverified? || InstallOutcome(s, p, stamp).BackupExists? then s
    else
      match s.target
      case None => s.(target := Some(NewTree(map[], p)))
      case Some(t) => State(Some(NewTree(t, p)), s.backups[stamp := t])
  }

  predicate HasBadMember(p: Package) {
    exists m :: m in p.members && m.Escapes?
  }

  /** What an install says and leaves. Refused, it changes nothing: unverified, or the tree to
      back up has a backup of that name. Otherwise the tree is backed up if there is one; a
      bad member ends the extraction where it stands; and the marker comes last. */
  lemma InstallLeaves(s: State, p: Package, stamp: nat)
    ensures InstallOutcome(s, p, stamp) ==
            if !p.verified then Unverified
            else if s.target.Some? && stamp in s.backups then BackupExists
            else if HasBadMember(p) then Broken
            else Installed
    ensures var t, refused := Install(s, p, stamp), !p.verified || (s.target.Some? && stamp in s.backups);
            if refused then t == s
            else
              && t.backups == (if s.target.Some? then s.backups[stamp := s.target.value] else s.backups)
              && t.target.Some?
              && (!HasBadMember(p) ==> MARKER in t.target.value && t.target.value[MARKER] == p.marker)
              && forall path :: path != MARKER || HasBadMember(p) ==>
                   var was := Extracted(if s.target.Some? then s.target.value else map[], p.members);
                   (path in t.target.value <==> path in was) && (path in was ==> t.target.value[path] == was[path])
  {
    assert Fails(p.members) <==> HasBadMember(p);
  }

  /** The members behind a bad one are not extracted. */
  lemma {:induction false} BadMemberStops(t: Tree, ms: seq<Member>, i: nat)
    requires i < |ms| && ms[i].Escapes?
    ensures Extracted(t, ms) == Extracted(t, ms[..i])
    decreases |ms|
  {
    if i < |ms| - 1 {
      var front := ms[..|ms| - 1];
      BadMemberStops(t, front, i);
      assert front[i].Escapes? && front[..i] == ms[..i];
    } else {
      assert ms[..i] == ms[..|ms| - 1];
    }
  }

  predicate IsLatest(s: State, stamp: nat) {
    stamp in s.backups && forall b :: b in s.backups ==> b <= stamp
  }

  lemma {:induction false} LatestExists(keys: set<nat>) returns (stamp: nat)
    requires keys != {}
    ensures stamp in keys && forall b :: b in keys ==> b <= stamp
    decreases |keys|
  {
    var k :| k in keys;
    var rest := keys - {k};
    assert forall b :: b in keys ==> b == k || b in rest;
    if rest == {} {
      stamp := k;
    } else {
      var m := LatestExists(rest);
      stamp := if m < k then k else m;
    }
  }

  lemma LatestFor(s: State)
    requires s.backups != map[]
    ensures exists stamp :: IsLatest(s, stamp)
  {
    assert s.backups.Keys != {} by { assert s.backups != map[]; }
    var stamp := LatestExists(s.backups.Keys);
    assert IsLatest(s, stamp);
  }

  function Latest(s: State): (stamp: nat)
    requires s.backups != map[]
    ensures IsLatest(s, stamp)
  {
    LatestFor(s);
    var stamp :| IsLatest(s, stamp);
    stamp
  }

  /** Without a backup the command gives up and changes nothing. */
  function Rollback(s: State): State {
    if s.backups == map[] then s
    else State(Some(s.backups[Latest(s)]), s.backups - {Latest(s)})
  }

  predicate Newest(s: State, stamp: nat) {
    forall b :: b in s.backups ==> b < stamp
  }

  /** Rolling back undoes an install exactly when the install verified, found a tree
      to back up, and carries a newer stamp than every backup; or when it was refused
      and there is no backup to take instead. */
  lemma RollbackUndoesIff(s: State, p: Package, stamp: nat)
    ensures Rollback(Install(s, p, stamp)) == s <==>
            if p.verified then s.target.Some? && Newest(s, stamp) else s.backups == map[]
  {
    var t := Install(s, p, stamp);
    if p.verified && s.target.Some? && stamp !in s.backups {
      assert stamp in t.backups;
      if Newest(s, stamp) {
        assert Latest(t) == stamp;
        assert t.backups - {stamp} == s.backups;
      } else {
        var b :| b in s.backups && b >= stamp;
        assert b in t.backups;
        assert stamp in Rollback(t).backups;
      }
    } else if t.backups != map[] {
      assert Latest(t) !in Rollback(t).backups;
    }
  }

  // ---- any mix of installs and rollbacks ----

  datatype Action = Do(p: Package, stamp: nat) | Undo

  function After(s: State, a: Action): State {
    match a
    case Do(p, stamp) => Install(s, p, stamp)
    case Undo => Rollback(s)
  }

  function Exec(s: State, run: seq<Action>): State {
    if run == [] then s else After(Exec(s, run[..|run| - 1]), run[|run| - 1])
  }

  /** How many installs that took a backup have not been rolled back yet. */
  function Depth(run: seq<Action>): int {
    if run == [] then 0
    else Depth(run[..|run| - 1]) + Change(run[|run| - 1])
  }

  function Change(a: Action): int {
    match a
    case Do(p, _) => if p.verified then 1 else 0
    case Undo => -1
  }

  /** Every install has the newest stamp, and no rollback comes before its install. */
  predicate Nested(s: State, run: seq<Action>) {
    run == [] ||
    (var before := Exec(s, run[..|run| - 1]);
     && Nested(s, run[..|run| - 1]) && Depth(run) >= 0
     && (run[|run| - 1].Do? ==> Newest(before, run[|run| - 1].stamp)))
  }

  /** The oldest of the backups taken since `s`: it holds the tree of `s`. */
  predicate Bottom(s: State, t: State, taken: set<nat>, m: nat) {
    && m in taken && (forall e :: e in taken ==> m <= e)
    && m in t.backups && Some(t.backups[m]) == s.target
  }

  /** `t` is `s` with the backups `taken` since on top of those of `s`. */
  ghost predicate Stacked(s: State, t: State, taken: set<nat>) {
    && s.target.Some? && t.target.Some?
    && t.backups.Keys == s.backups.Keys + taken
    && (forall e :: e in taken ==> Newest(s, e))
    && (forall b :: b in s.backups ==> t.backups[b] == s.backups[b])
    && (if taken == {} then t.target == s.target else exists m :: Bottom(s, t, taken, m))
  }

  lemma PushStacks(s: State, t: State, taken: set<nat>, p: Package, stamp: nat)
    requires Stacked(s, t, taken) && p.verified && Newest(t, stamp)
    ensures Stacked(s, Install(t, p, stamp), taken + {stamp}) && stamp !in taken
  {
    var u := Install(t, p, stamp);
    forall b | b in s.backups ensures b < stamp { assert b in t.backups.Keys; }
    if taken == {} {
      assert Bottom(s, u, taken + {stamp}, stamp);
    } else {
      var m :| Bottom(s, t, taken, m);
      forall e | e in taken ensures e < stamp { assert e in t.backups.Keys; }
      assert Bottom(s, u, taken + {stamp}, m);
    }
  }

  lemma TopIsLatest(s: State, t: State, taken: set<nat>)
    requires Stacked(s, t, taken) && taken != {}
    ensures t.backups != map[] && Latest(t) in taken && Latest(t) !in s.backups
  {
  }

  lemma PopStacks(s: State, t: State, taken: set<nat>)
    requires Stacked(s, t, taken) && taken != {}
    ensures t.backups != map[] && Latest(t) in taken
    ensures Stacked(s, Rollback(t), taken - {Latest(t)})
  {
    TopIsLatest(s, t, taken);
    var top, u, left := Latest(t), Rollback(t), taken - {Latest(t)};
    var m :| Bottom(s, t, taken, m);
    if m == top {
      forall e | e in taken ensures e == top { assert e in t.backups.Keys; }
      assert left == {};
    } else {
      assert m in left && Bottom(s, u, left, m);
    }
  }

  lemma OneIn(taken: set<nat>, stamp: nat)
    ensures stamp !in taken ==> |taken + {stamp}| == |taken| + 1
    ensures stamp in taken ==> |taken - {stamp}| == |taken| - 1
  {
  }

  lemma StepStacks(s: State, t: State, taken: set<nat>, a: Action) returns (now: set<nat>)
    requires Stacked(s, t, taken)
    requires if a.Do? then Newest(t, a.stamp) else taken != {}
    ensures Stacked(s, After(t, a), now) && |now| == |taken| + Change(a)
  {
    match a
    case Do(p, stamp) =>
      if p.verified {
        PushStacks(s, t, taken, p, stamp);
        OneIn(taken, stamp);
        now := taken + {stamp};
      } else {
        assert Install(t, p, stamp) == t;
        now := taken;
      }
    case Undo =>
      PopStacks(s, t, taken);
      OneIn(taken, Latest(t));
      now := taken - {Latest(t)};
  }

  lemma {:induction false} RunStacks(s: State, run: seq<Action>) returns (taken: set<nat>)
    requires s.target.Some? && Nested(s, run)
    ensures Stacked(s, Exec(s, run), taken) && |taken| == Depth(run)
    decreases |run|
  {
    if run == [] {
      taken := {};
    } else {
      var before := RunStacks(s, run[..|run| - 1]);
      taken := StepStacks(s, Exec(s, run[..|run| - 1]), before, run[|run| - 1]);
    }
  }

  /** Last in, first out: whatever was installed in between, half extracted included,
      once every install has been rolled back the tree and the backups are those at
      the start. */
  lemma BalancedRunRestores(s: State, run: seq<Action>)
    requires s.target.Some? && Nested(s, run) && Depth(run) == 0
    ensures Exec(s, run) == s
  {
    var taken := RunStacks(s, run);
    assert Exec(s, run).backups == s.backups;
  }

  /** A file of the package that was not replaced by a later one ends in the tree,
      and every other path keeps its content. */
  lemma {:induction false} ExtractedFile(t: Tree, ms: seq<Member>, path: string, i: int)
    requires !Fails(ms) && -1 <= i < |ms|
    requires i >= 0 ==> ms[i].File? && ms[i].path == path
    requires forall j :: i < j < |ms| && ms[j].File? ==> ms[j].path != path
    ensures if i >= 0 then path in Extracted(t, ms) && Extracted(t, ms)[path] == ms[i].content
            else (path in Extracted(t, ms) <==> path in t) && (path in t ==> Extracted(t, ms)[path] == t[path])
    decreases |ms|
  {
    if ms != [] {
      var front := ms[..|ms| - 1];
      assert !Fails(front);
      if i < |front| { ExtractedFile(t, front, path, i); }
    }
  }

  // ---- the commands ----

  class ModelStore {
    var target: Option<Tree>
    var backups: map<nat, Tree>

    function View(): State
      reads this
    {
      State(target, backups)
    }

    method ExtractTo(ms: seq<Member>) returns (ok: bool)
      requires target.Some?
      modifies this`target
      ensures ok == !Fails(ms)
      ensures target == Some(Extracted(old(target).value, ms))
    {
      for i := 0 to |ms|
        invariant target == Some(Extracted(old(target).value, ms[..i]))
        invariant !Fails(ms[..i])
      {
        assert ms[..i + 1][..i] == ms[..i];
        match ms[i]
        case Skipped =>
        case File(path, content) => target := Some(target.value[path := content]);
        case Escapes =>
          BrokenStays(old(target).value, ms, i + 1);
          return false;
      }
      assert ms[..|ms|] == ms;
      ok := true;
    }

    method CmdInstall(p: Package, stamp: nat) returns (outcome: Outcome)
      modifies this
      ensures outcome == InstallOutcome(old(View()), p, stamp)
      ensures View() == Install(old(View()), p, stamp)
    {
      if !p.verified { return Unverified; }
      if target.Some? {
        if stamp in backups { return BackupExists; }
        backups := backups[stamp := target.value];
      } else {
        target := Some(map[]);
      }
      var ok := ExtractTo(p.members);
      if !ok { return Broken; }
      target := Some(target.value[MARKER := p.marker]);
      outcome := Installed;
    }

    method CmdRollback() returns (ok: bool)
      modifies this
      ensures ok == (old(backups) != map[])
      ensures View() == Rollback(old(View()))
    {
      ok := backups != map[];
      if ok {
        var latest := Latest(View());
        target, backups := Some(backups[latest]), backups - {latest};
      }
    }
  }

  lemma {:induction false} BrokenStays(t: Tree, ms: seq<Member>, n: nat)
    requires n <= |ms| && Fails(ms[..n])
    ensures Fails(ms) && Extracted(t, ms) == Extracted(t, ms[..n])
    decreases |ms| - n
  {
    if n == |ms| {
      assert ms[..n] == ms;
    } else {
      assert ms[..n + 1][..n] == ms[..n];
      var i :| 0 <= i < n && ms[..n][i].Escapes?;
      assert ms[..n + 1][i].Escapes?;
      BrokenStays(t, ms, n + 1);
    }
  }
}
