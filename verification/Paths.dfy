/** Paths as sequences of names and as strings: joining and splitting at separators undo
    each other, empty and "." names drop out, and one path lies in another exactly when
    its string begins with the other's string and a separator, or is that string. */
module Paths {
  import opened Text

  type Path = seq<string>

  function Slash(): char -> bool {
    c => c == '/'
  }

  predicate Name(c: string) {
    c != "" && c != "." && c != ".." && '/' !in c
  }

  predicate Resolved(p: Path) {
    forall i :: 0 <= i < |p| ==> Name(p[i])
  }

  /** A path as a string; only the root itself is written "/" instead. */
  function Joined(p: Path): string {
    if p == [] then "" else "/" + p[0] + Joined(p[1..])
  }

  function Kept(parts: seq<string>): Path {
    if parts == [] then []
    else
      var front, last := Kept(parts[..|parts| - 1]), parts[|parts| - 1];
      if last == "" || last == "." then front else front + [last]
  }

  /** Behind the target's own name the path goes on with a separator, or ends. */
  predicate Separated(target: Path, path: Path) {
    Joined(target) + "/" <= Joined(path) + "/"
  }

  lemma {:induction false} JoinedExtends(target: Path, more: Path)
    ensures Joined(target + more) == Joined(target) + Joined(more)
    decreases |target|
  {
    if target == [] {
      assert target + more == more;
    } else {
      assert (target + more)[1..] == target[1..] + more;
      JoinedExtends(target[1..], more);
    }
  }

  /** Two names before a separator are the same if one string begins with the other. */
  lemma SameName(c: string, d: string, x: string, y: string)
    requires '/' !in c && '/' !in d && c + "/" + x <= d + "/" + y
    ensures c == d && x <= y
  {
    var s, t := c + "/" + x, d + "/" + y;
    assert s[|c|] == '/' && t[|d|] == '/';
    forall i | 0 <= i < |d| ensures t[i] != '/' { assert t[i] == d[i]; }
    forall i | 0 <= i < |c| ensures s[i] != '/' { assert s[i] == c[i]; }
    assert c == s[..|c|] && d == t[..|d|];
    assert x == s[|c| + 1..] && y == t[|d| + 1..];
  }

  lemma JoinedNext(p: Path) returns (rest: string)
    requires p != []
    ensures Joined(p) + "/" == "/" + (p[0] + "/" + rest) && Joined(p[1..]) + "/" == "/" + rest
  {
    var q := p[1..];
    rest := if q == [] then "" else q[0] + Joined(q[1..]) + "/";
    assert Joined(q) + "/" == "/" + rest;
    assert p[0] + "/" + rest == p[0] + (Joined(q) + "/");
  }

  lemma BehindSlash(a: string, b: string)
    requires "/" + a <= "/" + b
    ensures a <= b
  {
    assert a == ("/" + a)[1..] && b == ("/" + b)[1..];
  }

  lemma SeparatedNext(target: Path, path: Path)
    requires Resolved(target) && Resolved(path) && target != [] && path != [] && Separated(target, path)
    ensures target[0] == path[0] && Separated(target[1..], path[1..])
  {
    var x := JoinedNext(target);
    var y := JoinedNext(path);
    BehindSlash(target[0] + "/" + x, path[0] + "/" + y);
    SameName(target[0], path[0], x, y);
  }

  /** Comparing strings up to a separator is comparing paths name by name. */
  lemma {:induction false} SeparatedIsInside(target: Path, path: Path)
    requires Resolved(target) && Resolved(path)
    ensures Separated(target, path) <==> target <= path
    decreases |target|
  {
    if target <= path {
      var more := path[|target|..];
      assert path == target + more;
      JoinedExtends(target, more);
      if more != [] { assert Joined(more)[0] == '/'; }
    } else if path != [] {
      assert target == [target[0]] + target[1..] && path == [path[0]] + path[1..];
      if Separated(target, path) {
        SeparatedNext(target, path);
        SeparatedIsInside(target[1..], path[1..]);
      }
    }
  }

  lemma {:induction false} KeptResolved(parts: seq<string>)
    requires forall i :: 0 <= i < |parts| ==> '/' !in parts[i] && parts[i] != ".."
    ensures Resolved(Kept(parts))
    decreases |parts|
  {
    if parts != [] { KeptResolved(parts[..|parts| - 1]); }
  }

  lemma {:induction false} SplitNames(s: string)
    ensures forall i :: 0 <= i < |Split(s, Slash())| ==> '/' !in Split(s, Slash())[i]
    decreases |s|
  {
    var i := IndexOf(s, Slash());
    forall j | 0 <= j < i ensures s[j] != '/' { assert !Slash()(s[j]); }
    if i < |s| { SplitNames(s[i + 1..]); }
  }

  /** The path with `x` put behind its last name. */
  function Longer(p: Path, x: string): (q: Path)
    requires p != []
    ensures |q| == |p|
  {
    p[..|p| - 1] + [p[|p| - 1] + x]
  }

  lemma LongerTail(c: string, p: Path, x: string)
    requires p != []
    ensures [c] + Longer(p, x) == Longer([c] + p, x)
  {
  }

  lemma SplitNext(c: string, rest: string)
    requires '/' !in c
    ensures Split(c + ("/" + rest), Slash()) == [c] + Split(rest, Slash())
  {
    var s := c + ("/" + rest);
    assert s[|c|] == '/' && s[..|c|] == c && s[|c| + 1..] == rest;
    SplitAt(s, Slash(), |c|);
  }

  lemma JoinedRest(p: Path, x: string)
    requires p != []
    ensures Joined(p) + x == "/" + (p[0] + (Joined(p[1..]) + x))
  {
  }

  lemma {:induction false} SplitJoined(c: string, p: Path, x: string)
    requires Resolved(p) && '/' !in c && '/' !in x
    ensures Split(c + (Joined(p) + x), Slash()) == Longer([c] + p, x)
    decreases |p|
  {
    if p == [] {
      assert Joined(p) + x == x && Longer([c] + p, x) == [c + x];
      forall k | k in c + x ensures !Slash()(k) { }
      SplitNot(c + x, Slash());
    } else {
      var rest := p[0] + (Joined(p[1..]) + x);
      SplitJoined(p[0], p[1..], x);
      assert Split(rest, Slash()) == Longer(p, x) by { assert [p[0]] + p[1..] == p; }
      SplitNext(c, rest);
      LongerTail(c, p, x);
      JoinedRest(p, x);
    }
  }

  lemma {:induction false} KeptAll(p: Path)
    requires Resolved(p)
    ensures Kept([""] + p) == p
    decreases |p|
  {
    if p == [] {
      assert ([""] + p)[..0] == [];
    } else {
      assert ([""] + p)[..|p|] == [""] + p[..|p| - 1];
      KeptAll(p[..|p| - 1]);
    }
  }

  lemma {:induction false} JoinedLonger(p: Path, x: string)
    requires p != []
    ensures Joined(Longer(p, x)) == Joined(p) + x
    decreases |p|
  {
    if |p| > 1 {
      JoinedLonger(p[1..], x);
      assert Longer(p, x)[1..] == Longer(p[1..], x);
    }
  }

  lemma LongerResolved(p: Path)
    requires Resolved(p) && p != []
    ensures Resolved(Longer(p, "x"))
  {
    var last := p[|p| - 1] + "x";
    assert last[|last| - 1] == 'x' && '/' !in "x";
  }

  lemma SplitLonger(target: Path)
    requires Resolved(target) && target != []
    ensures Split(Joined(target) + "x", Slash()) == [""] + Longer(target, "x")
  {
    SplitJoined("", target, "x");
    LongerTail("", target, "x");
    assert "" + (Joined(target) + "x") == Joined(target) + "x";
  }
}
