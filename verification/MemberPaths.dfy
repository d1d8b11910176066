/** Where the members of a model package are extracted to. Paths are sequences of names. */
module MemberPaths {
  import opened Paths
  import opened Text

  const PREFIX := "models/"

  predicate Absolute(name: string) {
    name != "" && name[0] == '/'
  }

  /** A name without ".." against the target: an absolute one replaces it. */
  function Resolve(target: Path, name: string): Path {
    var names := Kept(Split(name, Slash()));
    if Absolute(name) then names else target + names
  }

  datatype Verdict = Skipped | Refused | Accepted(path: Path)

  /** Two checks: no part of the name is "..", and the path's string begins with the target's. */
  function Judge(target: Path, member: string): Verdict {
    if !(PREFIX <= member) then Skipped
    else
      var name := member[|PREFIX|..];
      var path := Resolve(target, name);
      if ".." in Split(name, Slash()) || !(Joined(target) <= Joined(path)) then Refused else Accepted(path)
  }

  /** An accepted member stays in the target if and only if its name is relative or its
      path goes on with a separator where the target's name ends. */
  lemma AcceptedInsideIff(target: Path, member: string)
    requires Resolved(target) && Judge(target, member).Accepted?
    ensures var path := Judge(target, member).path;
            target <= path <==>
            member[|PREFIX|..] == "" || member[|PREFIX|..][0] != '/' || Joined(target) + "/" <= Joined(path) + "/"
  {
    var name := member[|PREFIX|..];
    SplitNames(name);
    KeptResolved(Split(name, Slash()));
    SeparatedIsInside(target, Resolve(target, name));
  }

  /** A relative name is accepted if and only if it has no "..", and stays inside. */
  lemma RelativeAcceptedIff(target: Path, member: string)
    requires PREFIX <= member && (member[|PREFIX|..] == "" || member[|PREFIX|..][0] != '/')
    ensures Judge(target, member).Accepted? <==> ".." !in Split(member[|PREFIX|..], Slash())
    ensures Judge(target, member).Accepted? ==> target <= Judge(target, member).path
  {
    JoinedExtends(target, Kept(Split(member[|PREFIX|..], Slash())));
  }

  lemma ResolveLonger(target: Path)
    requires Resolved(target) && target != []
    ensures var name := Joined(target) + "x";
            Resolve(target, name) == Longer(target, "x") && ".." !in Split(name, Slash()) && Absolute(name)
  {
    LongerResolved(target);
    SplitLonger(target);
    KeptAll(Longer(target, "x"));
  }

  lemma BesideAccepted(target: Path)
    requires Resolved(target) && target != []
    ensures Judge(target, PREFIX + (Joined(target) + "x")) == Accepted(Longer(target, "x"))
  {
    var name := Joined(target) + "x";
    ResolveLonger(target);
    JoinedLonger(target, "x");
    assert (PREFIX + name)[|PREFIX|..] == name;
  }

  /** All members of all packages that are accepted stay in the target if and only if it
      is the root: the path of another directory may begin with the target's own name. */
  lemma AlwaysInsideIff(target: Path)
    requires Resolved(target)
    ensures (forall member :: Judge(target, member).Accepted? ==> target <= Judge(target, member).path)
            <==> target == []
  {
    if target != [] {
      BesideAccepted(target);
      assert Longer(target, "x")[|target| - 1] != target[|target| - 1];
    }
  }
}
