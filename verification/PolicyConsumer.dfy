/** The policy engine on the heap. Copying an event dictionary copies references:
    the metadata list and the parameter dictionary stay shared with the caller,
    whose own event is therefore changed as well. */
module PolicyConsumer {
  import opened Options
  import opened Schedule
  import P = PolicyEngine

  class MetaList {
    var items: seq<P.Meta>

    constructor ()
      ensures items == []
    {
      items := [];
    }
  }

  class ParamDict {
    var entries: map<string, string>

    constructor ()
      ensures entries == map[]
    {
      entries := map[];
    }
  }

  /** An event dictionary: its plain entries, and two that refer to mutable objects. */
  datatype EventDict = EventDict(
    ruleName: string, severity: Option<string>, original: Option<Option<string>>,
    suppressed: Option<string>, notifications: Option<seq<string>>,
    metadata: MetaList?, params: ParamDict?)

  function Refs(e: EventDict): set<object> {
    (if e.metadata == null then {} else {e.metadata}) + (if e.params == null then {} else {e.params})
  }

  ghost function View(e: EventDict): P.Event
    reads Refs(e)
  {
    P.Event(e.ruleName, e.severity, e.original, e.suppressed, e.notifications,
            if e.metadata == null then None else Some(e.metadata.items),
            if e.params == null then None else Some(e.params.entries))
  }

  /** `r` shares with `e` what `e` has and owns the rest. */
  twostate predicate Extends(e: EventDict, new r: EventDict) {
    && (if e.metadata == null then r.metadata == null || fresh(r.metadata) else r.metadata == e.metadata)
    && (if e.params == null then r.params == null || fresh(r.params) else r.params == e.params)
  }

  method Note(e: EventDict, m: P.Meta) returns (r: EventDict)
    modifies Refs(e)
    ensures Extends(e, r)
    ensures View(r) == P.Noted(old(View(e)), m)
  {
    r := e;
    if r.metadata == null {
      var list := new MetaList();
      r := r.(metadata := list);
    }
    r.metadata.items := r.metadata.items + [m];
  }

  method MergeParams(e: EventDict, m: map<string, string>) returns (r: EventDict)
    modifies Refs(e)
    ensures Extends(e, r)
    ensures View(r) == P.WithParams(old(View(e)), m)
  {
    r := e;
    if m != map[] {
      if r.params == null {
        var dict := new ParamDict();
        r := r.(params := dict);
      }
      r.params.entries := r.params.entries + m;
    }
  }

  function SetSeverity(e: EventDict, s: Option<string>): EventDict {
    if s.Some? && P.ValidSeverity(s.value) then e.(original := Some(e.severity), severity := s) else e
  }

  function SetNotifications(e: EventDict, n: seq<string>): EventDict {
    if n == [] then e else e.(notifications := Some(n))
  }

  lemma PlainEntries(e: EventDict, s: Option<string>, n: seq<string>)
    ensures View(SetSeverity(e, s)) == P.WithSeverity(View(e), s)
    ensures View(SetNotifications(e, n)) == P.WithNotifications(View(e), n)
  {
  }

  /** One enabled rule of the event's name. */
  method ApplyRule(e: EventDict, p: P.Policy, rule: P.Rule) returns (r: EventDict)
    modifies Refs(e)
    ensures Extends(e, r)
    ensures View(r) == P.Overridden(old(View(e)), p, rule)
  {
    PlainEntries(e, rule.severity, []);
    r := MergeParams(SetSeverity(e, rule.severity), rule.params);
    PlainEntries(r, None, rule.notifications);
    r := Note(SetNotifications(r, rule.notifications), P.Stamp(p, rule.name, P.Override(rule.severity)));
  }

  /** One rule: skipped, suppressing, or applied. */
  method RunRule(e: EventDict, p: P.Policy, rule: P.Rule, wasMatched: bool)
    returns (r: EventDict, matched: bool, stopped: bool)
    modifies Refs(e)
    ensures Extends(e, r)
    ensures P.Progress(View(r), matched, stopped) == P.RunRule(P.Progress(old(View(e)), wasMatched, false), p, rule)
  {
    r, matched, stopped := e, wasMatched, false;
    if rule.name != "" && rule.name == e.ruleName {
      matched := true;
      if !rule.enabled {
        r := Note(r.(suppressed := Some("rule_disabled")), P.Stamp(p, rule.name, P.Disabled));
        stopped := true;
      } else {
        r := ApplyRule(r, p, rule);
      }
    }
  }

  /** The loop over the rules of one policy. */
  method ApplyMatching(e: EventDict, p: P.Policy) returns (r: EventDict, matched: bool)
    modifies Refs(e)
    ensures Extends(e, r)
    ensures View(r) == P.RunRules(old(View(e)), p, p.rules).event
    ensures matched == P.RunRules(old(View(e)), p, p.rules).matched
  {
    ghost var start := View(e);
    r, matched := e, false;
    for i := 0 to |p.rules|
      invariant Extends(e, r)
      invariant P.RunRules(start, p, p.rules[..i]) == P.Progress(View(r), matched, false)
    {
      assert p.rules[..i + 1][..i] == p.rules[..i];
      var stopped;
      r, matched, stopped := RunRule(r, p, p.rules[i], matched);
      if stopped {
        StoppedStays(start, p, i + 1);
        return;
      }
    }
    assert p.rules[..|p.rules|] == p.rules;
  }

  lemma {:induction false} StoppedStays(e: P.Event, p: P.Policy, n: nat)
    requires n <= |p.rules| && P.RunRules(e, p, p.rules[..n]).stopped
    ensures P.RunRules(e, p, p.rules) == P.RunRules(e, p, p.rules[..n])
    decreases |p.rules| - n
  {
    if n == |p.rules| {
      assert p.rules[..n] == p.rules;
    } else {
      assert p.rules[..n + 1][..n] == p.rules[..n];
      StoppedStays(e, p, n + 1);
    }
  }

  /** False: the schedule cannot be read. */
  method ApplyPolicyRules(e: EventDict, p: P.Policy, now: Moment) returns (ok: bool, r: EventDict)
    modifies Refs(e)
    ensures ok == P.ApplyRules(old(View(e)), p, now).Some?
    ensures Extends(e, r)
    ensures if ok then View(r) == P.ApplyRules(old(View(e)), p, now).value else View(r) == old(View(e))
  {
    var within := Within(p.schedule, now);
    if within.None? { return false, e; }
    ok := true;
    if !within.value {
      r := Note(e.(suppressed := Some("outside_schedule")), P.Stamp(p, "", P.Suppressed));
      return;
    }
    var matched;
    r, matched := ApplyMatching(e, p);
    if !matched { r := Note(r, P.Stamp(p, "", P.NoMatchingRule)); }
  }

  lemma {:induction false} FoldStays(e: P.Event, ps: seq<P.Policy>, agent: P.Agent, now: Moment, n: nat)
    requires n <= |ps|
    requires var f := P.ApplyAll(e, ps[..n], agent, now); f.None? || f.value.stopped
    requires P.Reach(e, ps[..n], agent, now).stopped
    ensures P.ApplyAll(e, ps, agent, now) == P.ApplyAll(e, ps[..n], agent, now)
    ensures P.Reach(e, ps, agent, now) == P.Reach(e, ps[..n], agent, now)
    decreases |ps| - n
  {
    if n == |ps| {
      assert ps[..n] == ps;
    } else {
      assert ps[..n + 1][..n] == ps[..n];
      FoldStays(e, ps, agent, now, n + 1);
    }
  }

  /** All policies in order; false: some schedule cannot be read. Whatever happens, the
      objects the event came with have changed as far as the fold got. */
  method ApplyPolicies(e: EventDict, ps: seq<P.Policy>, agent: P.Agent, now: Moment) returns (ok: bool, r: EventDict)
    modifies Refs(e)
    ensures ok == P.ApplyAll(old(View(e)), ps, agent, now).Some?
    ensures Extends(e, r)
    ensures View(r) == P.Reach(old(View(e)), ps, agent, now).event
  {
    ghost var start := View(e);
    r := e;
    for i := 0 to |ps|
      invariant Extends(e, r)
      invariant P.ApplyAll(start, ps[..i], agent, now) == Some(P.Fold(View(r), false))
      invariant P.Reach(start, ps[..i], agent, now) == P.Fold(View(r), false)
    {
      assert ps[..i + 1][..i] == ps[..i];
      if !ps[i].enabled { continue; }
      if !P.InScope(ps[i], agent) { continue; }
      ok, r := ApplyPolicyRules(r, ps[i], now);
      if !ok || r.suppressed.Some? {
        FoldStays(start, ps, agent, now, i + 1);
        return;
      }
    }
    assert ps[..|ps|] == ps;
    ok := true;
  }

  /** What a caller whose event has become `t` finds in the one it passed in: the
      entries it had, except that the mutable ones are shared with `t`. */
  function Shared(e: P.Event, t: P.Event): P.Event {
    e.(metadata := if e.metadata.Some? then t.metadata else None, params := if e.params.Some? then t.params else None)
  }

  /** The documented "not mutated", whether the call returns or raises: the caller's
      event is as before if and only if it came without a metadata list or no policy
      runs, and it came without parameters or merging the parameters of all rules that
      run into its own changes nothing. */
  method ApplyPoliciesToEvent(e: EventDict, ps: seq<P.Policy>, agent: P.Agent, now: Moment)
    returns (ok: bool, r: EventDict)
    modifies Refs(e)
    ensures ok == P.ApplyAll(old(View(e)), ps, agent, now).Some?
    ensures ok ==> View(r) == P.ApplyAll(old(View(e)), ps, agent, now).value.event
    ensures View(e) == Shared(old(View(e)), P.Reach(old(View(e)), ps, agent, now).event)
    ensures var v := old(View(e));
            View(e) == v <==>
            && (v.metadata.None? || forall i :: 0 <= i < |ps| ==> !P.Runs(v, ps, i, agent, now))
            && (v.params.None? || P.Merged(v.params, P.AllRulesRun(v, ps, agent, now)) == v.params)
  {
    ghost var start := View(e);
    ok, r := ApplyPolicies(e, ps, agent, now);
    P.ReachIsFold(start, ps, agent, now);
    P.MetadataGrows(start, ps, agent, now);
    P.RunCountZero(start, ps, agent, now);
    P.ReachParams(start, ps, agent, now);
  }
}
