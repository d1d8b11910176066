/** The policy fold as a function on values: which policies apply, what each does
    to an event, and where the fold stops. */
module PolicyEngine {
  import opened Options
  import opened Schedule

  datatype Action = Suppressed | Disabled | Override(severity: Option<string>) | NoMatchingRule

  datatype Meta = Meta(policyId: string, policyName: string, ruleName: string, action: Action)

  datatype Rule = Rule(
    name: string, enabled: bool, severity: Option<string>,
    params: map<string, string>, notifications: seq<string>)

  datatype Policy = Policy(
    id: string, name: string, enabled: bool, scopeTags: seq<string>, scopeFrameworks: seq<string>,
    schedule: Option<Schedule>, rules: seq<Rule>)

  /** The event's entries the engine reads or writes; None: no such entry. */
  datatype Event = Event(
    ruleName: string, severity: Option<string>, original: Option<Option<string>>,
    suppressed: Option<string>, notifications: Option<seq<string>>,
    metadata: Option<seq<Meta>>, params: Option<map<string, string>>)

  datatype Agent = Agent(tags: seq<string>, framework: string)

  predicate ValidSeverity(s: string) {
    s == "critical" || s == "high" || s == "medium" || s == "low" || s == "info"
  }

  // ---- scope ----

  predicate Overlap(xs: seq<string>, ys: seq<string>) {
    exists x :: x in xs && x in ys
  }

  predicate InScope(p: Policy, agent: Agent) {
    || (p.scopeTags == [] && p.scopeFrameworks == [])
    || Overlap(p.scopeTags, agent.tags)
    || (agent.framework != "" && agent.framework in p.scopeFrameworks)
  }

  predicate Applies(p: Policy, agent: Agent) {
    p.enabled && InScope(p, agent)
  }

  // ---- one policy ----

  function Noted(e: Event, m: Meta): Event {
    e.(metadata := Some((if e.metadata.Some? then e.metadata.value else []) + [m]))
  }

  function Stamp(p: Policy, ruleName: string, a: Action): Meta {
    Meta(p.id, p.name, ruleName, a)
  }

  function WithSeverity(e: Event, s: Option<string>): Event {
    if s.Some? && ValidSeverity(s.value) then e.(original := Some(e.severity), severity := s) else e
  }

  function WithParams(e: Event, m: map<string, string>): Event {
    if m == map[] then e else e.(params := Some((if e.params.Some? then e.params.value else map[]) + m))
  }

  function WithNotifications(e: Event, n: seq<string>): Event {
    if n == [] then e else e.(notifications := Some(n))
  }

  function Overridden(e: Event, p: Policy, r: Rule): Event {
    Noted(WithNotifications(WithParams(WithSeverity(e, r.severity), r.params), r.notifications),
          Stamp(p, r.name, Override(r.severity)))
  }

  predicate Hits(r: Rule, ruleName: string) {
    r.name != "" && r.name == ruleName
  }

  datatype Progress = Progress(event: Event, matched: bool, stopped: bool)

  function RunRule(g: Progress, p: Policy, r: Rule): Progress {
    if g.stopped || !Hits(r, g.event.ruleName) then g
    else if !r.enabled then
      Progress(Noted(g.event.(suppressed := Some("rule_disabled")), Stamp(p, r.name, Disabled)), true, true)
    else Progress(Overridden(g.event, p, r), true, false)
  }

  function RunRules(e: Event, p: Policy, rules: seq<Rule>): Progress {
    if rules == [] then Progress(e, false, false)
    else RunRule(RunRules(e, p, rules[..|rules| - 1]), p, rules[|rules| - 1])
  }

  /** None: the schedule cannot be read. */
  function ApplyRules(e: Event, p: Policy, now: Moment): Option<Event> {
    match Within(p.schedule, now)
    case None => None
    case Some(false) =>
      Some(Noted(e.(suppressed := Some("outside_schedule")), Stamp(p, "", Suppressed)))
    case Some(true) =>
      var g := RunRules(e, p, p.rules);
      Some(if g.matched then g.event else Noted(g.event, Stamp(p, "", NoMatchingRule)))
  }

  // ---- all policies ----

  /** `stopped`: the loop has been left. */
  datatype Fold = Fold(event: Event, stopped: bool)

  function ApplyOne(f: Fold, p: Policy, agent: Agent, now: Moment): Option<Fold> {
    if f.stopped || !Applies(p, agent) then Some(f)
    else
      match ApplyRules(f.event, p, now)
      case None => None
      case Some(e) => Some(Fold(e, e.suppressed.Some?))
  }

  function ApplyAll(e: Event, ps: seq<Policy>, agent: Agent, now: Moment): Option<Fold> {
    if ps == [] then Some(Fold(e, false))
    else
      match ApplyAll(e, ps[..|ps| - 1], agent, now)
      case None => None
      case Some(f) => ApplyOne(f, ps[|ps| - 1], agent, now)
  }

  // ---- suppression ----

  /** Read off the policy alone: out of schedule, or a rule of the event's name is off. */
  predicate Suppresses(p: Policy, ruleName: string, now: Moment) {
    match Within(p.schedule, now)
    case None => false
    case Some(within) => !within || exists i :: 0 <= i < |p.rules| && Hits(p.rules[i], ruleName) && !p.rules[i].enabled
  }

  lemma {:induction false} RunRulesSuppress(e: Event, p: Policy, rules: seq<Rule>)
    ensures var g := RunRules(e, p, rules);
            && g.event.ruleName == e.ruleName
            && (g.stopped <==> exists i :: 0 <= i < |rules| && Hits(rules[i], e.ruleName) && !rules[i].enabled)
            && g.event.suppressed == (if g.stopped then Some("rule_disabled") else e.suppressed)
            && (g.stopped ==> g.matched)
  {
    if rules != [] {
      var front := rules[..|rules| - 1];
      RunRulesSuppress(e, p, front);
      if RunRules(e, p, front).stopped {
        var i :| 0 <= i < |front| && Hits(front[i], e.ruleName) && !front[i].enabled;
        assert rules[i] == front[i];
      }
    }
  }

  lemma SuppressesIff(e: Event, p: Policy, now: Moment)
    requires e.suppressed.None? && ApplyRules(e, p, now).Some?
    ensures var r := ApplyRules(e, p, now).value;
            r.ruleName == e.ruleName && (r.suppressed.Some? <==> Suppresses(p, e.ruleName, now))
  {
    RunRulesSuppress(e, p, p.rules);
  }

  ghost predicate Suppressing(p: Policy, ruleName: string, agent: Agent, now: Moment) {
    Applies(p, agent) && Suppresses(p, ruleName, now)
  }

  /** An event that arrives unsuppressed leaves suppressed if and only if some
      enabled policy in scope suppresses it. */
  lemma {:induction false} SuppressedIff(e: Event, ps: seq<Policy>, agent: Agent, now: Moment)
    requires e.suppressed.None? && ApplyAll(e, ps, agent, now).Some?
    ensures var f := ApplyAll(e, ps, agent, now).value;
            && f.event.ruleName == e.ruleName
            && (f.stopped <==> f.event.suppressed.Some?)
            && (f.stopped <==> exists i :: 0 <= i < |ps| && Suppressing(ps[i], e.ruleName, agent, now))
  {
    if ps != [] {
      var front, p := ps[..|ps| - 1], ps[|ps| - 1];
      SuppressedIff(e, front, agent, now);
      var f := ApplyAll(e, front, agent, now).value;
      if f.stopped {
        var i :| 0 <= i < |front| && Suppressing(front[i], e.ruleName, agent, now);
        assert ps[i] == front[i];
      } else {
        assert forall i :: 0 <= i < |front| ==> ps[i] == front[i];
        if Applies(p, agent) { SuppressesIff(f.event, p, now); }
        if Suppressing(p, e.ruleName, agent, now) { assert Suppressing(ps[|ps| - 1], e.ruleName, agent, now); }
      }
    }
  }

  /** First suppression wins: once some policy has suppressed the event no later
      policy, readable or not, changes anything. */
  lemma {:induction false} FirstSuppressionWins(
      e: Event, ps: seq<Policy>, later: seq<Policy>, agent: Agent, now: Moment)
    requires e.suppressed.None? && ApplyAll(e, ps, agent, now).Some?
    requires exists i :: 0 <= i < |ps| && Suppressing(ps[i], e.ruleName, agent, now)
    ensures ApplyAll(e, ps + later, agent, now) == ApplyAll(e, ps, agent, now)
    decreases |later|
  {
    SuppressedIff(e, ps, agent, now);
    if later == [] {
      assert ps + later == ps;
    } else {
      var shorter := later[..|later| - 1];
      assert (ps + later)[..|ps + later| - 1] == ps + shorter;
      FirstSuppressionWins(e, ps, shorter, agent, now);
    }
  }

  /** The fold raises if and only if it meets an unreadable schedule in an enabled
      policy in scope before any suppression. */
  lemma {:induction false} RaisesIffUnreadable(e: Event, ps: seq<Policy>, agent: Agent, now: Moment)
    requires e.suppressed.None?
    ensures ApplyAll(e, ps, agent, now).None? <==>
            exists i :: 0 <= i < |ps| && Blocks(ps, i, e.ruleName, agent, now)
  {
    if ps != [] {
      var front, p := ps[..|ps| - 1], ps[|ps| - 1];
      RaisesIffUnreadable(e, front, agent, now);
      forall i | 0 <= i < |front|
        ensures Blocks(ps, i, e.ruleName, agent, now) == Blocks(front, i, e.ruleName, agent, now)
      {
        BlocksPrefix(ps, front, i, e.ruleName, agent, now);
      }
      if ApplyAll(e, front, agent, now).Some? {
        SuppressedIff(e, front, agent, now);
        LastBlocks(ps, e.ruleName, agent, now, ApplyAll(e, front, agent, now).value.stopped);
      }
    }
  }

  ghost predicate Blocks(ps: seq<Policy>, i: nat, ruleName: string, agent: Agent, now: Moment)
    requires i < |ps|
  {
    && Applies(ps[i], agent) && Within(ps[i].schedule, now).None?
    && forall j :: 0 <= j < i ==> !Suppressing(ps[j], ruleName, agent, now)
  }

  lemma BlocksPrefix(ps: seq<Policy>, front: seq<Policy>, i: nat, ruleName: string, agent: Agent, now: Moment)
    requires i < |front| <= |ps| && front == ps[..|front|]
    ensures Blocks(ps, i, ruleName, agent, now) == Blocks(front, i, ruleName, agent, now)
  {
  }

  lemma LastBlocks(ps: seq<Policy>, ruleName: string, agent: Agent, now: Moment, stopped: bool)
    requires ps != []
    requires var front := ps[..|ps| - 1];
             stopped <==> exists i :: 0 <= i < |front| && Suppressing(front[i], ruleName, agent, now)
    ensures Blocks(ps, |ps| - 1, ruleName, agent, now) <==>
            !stopped && Applies(ps[|ps| - 1], agent) && Within(ps[|ps| - 1].schedule, now).None?
  {
    var front := ps[..|ps| - 1];
    assert forall j :: 0 <= j < |front| ==> Suppressing(ps[j], ruleName, agent, now) == Suppressing(front[j], ruleName, agent, now);
  }

  // ---- accumulation ----

  /** The enabled rules of the event's name, in order. */
  function Effective(rules: seq<Rule>, ruleName: string): seq<Rule> {
    if rules == [] then []
    else
      var front, r := Effective(rules[..|rules| - 1], ruleName), rules[|rules| - 1];
      if Hits(r, ruleName) then front + [r] else front
  }

  function AllEffective(ps: seq<Policy>, ruleName: string, agent: Agent): seq<Rule> {
    if ps == [] then []
    else
      var front, p := AllEffective(ps[..|ps| - 1], ruleName, agent), ps[|ps| - 1];
      if Applies(p, agent) then front + Effective(p.rules, ruleName) else front
  }

  function Severities(rs: seq<Rule>): (r: seq<string>) {
    if rs == [] then []
    else
      var front, s := Severities(rs[..|rs| - 1]), rs[|rs| - 1].severity;
      if s.Some? && ValidSeverity(s.value) then front + [s.value] else front
  }

  function Merged(base: Option<map<string, string>>, rs: seq<Rule>): Option<map<string, string>> {
    if rs == [] then base
    else
      var front, m := Merged(base, rs[..|rs| - 1]), rs[|rs| - 1].params;
      if m == map[] then front else Some((if front.Some? then front.value else map[]) + m)
  }

  function LastNotified(base: Option<seq<string>>, rs: seq<Rule>): Option<seq<string>> {
    if rs == [] then base
    else if rs[|rs| - 1].notifications != [] then Some(rs[|rs| - 1].notifications)
    else LastNotified(base, rs[..|rs| - 1])
  }

  /** What a list of rules amounts to: the last valid severity, the severity before
      it, the merged parameters and the last notifications. */
  ghost predicate Amounts(e: Event, rs: seq<Rule>, t: Event) {
    var ss := Severities(rs);
    && t.ruleName == e.ruleName
    && t.severity == (if ss == [] then e.severity else Some(ss[|ss| - 1]))
    && t.original == (if ss == [] then e.original else if |ss| == 1 then Some(e.severity) else Some(Some(ss[|ss| - 2])))
    && t.params == Merged(e.params, rs)
    && t.notifications == LastNotified(e.notifications, rs)
  }

  lemma AmountsSnoc(e: Event, rs: seq<Rule>, t: Event, p: Policy, r: Rule)
    requires Amounts(e, rs, t)
    ensures Amounts(e, rs + [r], Overridden(t, p, r))
  {
    assert (rs + [r])[..|rs|] == rs;
  }

  lemma {:induction false} RunRulesAmounts(e: Event, p: Policy, rules: seq<Rule>, base: Event, earlier: seq<Rule>)
    requires Amounts(base, earlier, e) && !RunRules(e, p, rules).stopped
    ensures Amounts(base, earlier + Effective(rules, base.ruleName), RunRules(e, p, rules).event)
  {
    if rules == [] {
      assert earlier + [] == earlier;
    } else {
      var front, r := rules[..|rules| - 1], rules[|rules| - 1];
      RunRulesAmounts(e, p, front, base, earlier);
      RunRulesSuppress(e, p, front);
      if Hits(r, base.ruleName) {
        AmountsSnoc(base, earlier + Effective(front, base.ruleName), RunRules(e, p, front).event, p, r);
        assert earlier + (Effective(front, base.ruleName) + [r]) == (earlier + Effective(front, base.ruleName)) + [r];
      }
    }
  }

  /** Without suppression the policies accumulate: the event ends with the last valid
      severity override of all matching rules of all enabled policies in scope, the
      severity just before it as its original, and all their parameters merged. */
  lemma {:induction false} PoliciesAccumulate(e: Event, ps: seq<Policy>, agent: Agent, now: Moment)
    requires e.suppressed.None? && ApplyAll(e, ps, agent, now).Some? && !ApplyAll(e, ps, agent, now).value.stopped
    ensures Amounts(e, AllEffective(ps, e.ruleName, agent), ApplyAll(e, ps, agent, now).value.event)
  {
    if ps != [] {
      var front, p := ps[..|ps| - 1], ps[|ps| - 1];
      SuppressedIff(e, front, agent, now);
      PoliciesAccumulate(e, front, agent, now);
      var f := ApplyAll(e, front, agent, now).value;
      if Applies(p, agent) {
        RunRulesSuppress(f.event, p, p.rules);
        RunRulesAmounts(f.event, p, p.rules, e, AllEffective(front, e.ruleName, agent));
      }
    }
  }

  /** The merge is right-biased: a key gets the value of the last rule that has it,
      and keeps its own when none has. */
  lemma {:induction false} MergeIsRightBiased(base: Option<map<string, string>>, rs: seq<Rule>, k: string, i: int)
    requires -1 <= i < |rs| && forall j :: i < j < |rs| ==> k !in rs[j].params
    requires i >= 0 ==> k in rs[i].params
    ensures var m := Merged(base, rs);
            if i >= 0 then m.Some? && k in m.value && m.value[k] == rs[i].params[k]
            else (m.Some? && k in m.value <==> base.Some? && k in base.value)
                 && (base.Some? && k in base.value ==> m.value[k] == base.value[k])
  {
    if rs != [] && i < |rs| - 1 { MergeIsRightBiased(base, rs[..|rs| - 1], k, i); }
  }

  // ---- what runs, read off the inputs ----

  /** The fold goes on after this policy: it does not apply, or it can be read and
      neither it nor the event as it arrived is suppressing. */
  predicate Passes(e: Event, p: Policy, agent: Agent, now: Moment) {
    Applies(p, agent) ==> Within(p.schedule, now).Some? && e.suppressed.None? && !Suppresses(p, e.ruleName, now)
  }

  predicate AllPass(e: Event, ps: seq<Policy>, agent: Agent, now: Moment) {
    forall i :: 0 <= i < |ps| ==> Passes(e, ps[i], agent, now)
  }

  /** The i-th policy applies, can be read, and is reached. */
  predicate Runs(e: Event, ps: seq<Policy>, i: nat, agent: Agent, now: Moment)
    requires i < |ps|
  {
    Applies(ps[i], agent) && Within(ps[i].schedule, now).Some? && AllPass(e, ps[..i], agent, now)
  }

  /** The enabled rules of the event's name before the first disabled one. */
  function RulesRun(rules: seq<Rule>, ruleName: string): seq<Rule> {
    if rules == [] then []
    else
      var front, r := rules[..|rules| - 1], rules[|rules| - 1];
      var before := RulesRun(front, ruleName);
      if Hits(r, ruleName) && r.enabled && !HasDisabled(front, ruleName) then before + [r] else before
  }

  predicate HasDisabled(rules: seq<Rule>, ruleName: string) {
    exists i :: 0 <= i < |rules| && Hits(rules[i], ruleName) && !rules[i].enabled
  }

  /** All rules that run, up to the first suppression or unreadable schedule. */
  function AllRulesRun(e: Event, ps: seq<Policy>, agent: Agent, now: Moment): seq<Rule> {
    if ps == [] then []
    else
      var front, p := ps[..|ps| - 1], ps[|ps| - 1];
      AllRulesRun(e, front, agent, now)
      + if AllPass(e, front, agent, now) && Applies(p, agent) && Within(p.schedule, now) == Some(true)
        then RulesRun(p.rules, e.ruleName) else []
  }

  /** How far the fold gets: its end, or the event as it is when a schedule raises. */
  function Reach(e: Event, ps: seq<Policy>, agent: Agent, now: Moment): Fold {
    if ps == [] then Fold(e, false)
    else
      var f := Reach(e, ps[..|ps| - 1], agent, now);
      match ApplyOne(f, ps[|ps| - 1], agent, now)
      case None => f.(stopped := true)
      case Some(g) => g
  }

  lemma {:induction false} ReachIsFold(e: Event, ps: seq<Policy>, agent: Agent, now: Moment)
    ensures match ApplyAll(e, ps, agent, now)
            case None => Reach(e, ps, agent, now).stopped
            case Some(f) => Reach(e, ps, agent, now) == f
  {
    if ps != [] { ReachIsFold(e, ps[..|ps| - 1], agent, now); }
  }

  lemma RunRulesKeepSuppressed(e: Event, p: Policy, now: Moment)
    requires ApplyRules(e, p, now).Some?
    ensures var r := ApplyRules(e, p, now).value;
            r.ruleName == e.ruleName && (r.suppressed.Some? <==> e.suppressed.Some? || Suppresses(p, e.ruleName, now))
  {
    RunRulesSuppress(e, p, p.rules);
  }

  /** The fold is still going if and only if all policies so far pass. */
  lemma {:induction false} ReachStops(e: Event, ps: seq<Policy>, agent: Agent, now: Moment)
    ensures var f := Reach(e, ps, agent, now);
            && f.event.ruleName == e.ruleName
            && (!f.stopped <==> AllPass(e, ps, agent, now))
            && (!f.stopped ==> (f.event.suppressed.Some? <==> e.suppressed.Some?))
  {
    if ps != [] {
      var front, p := ps[..|ps| - 1], ps[|ps| - 1];
      ReachStops(e, front, agent, now);
      AllPassSnoc(e, front, p, agent, now);
      assert ps == front + [p];
      var f := Reach(e, front, agent, now);
      if !f.stopped && Applies(p, agent) && ApplyRules(f.event, p, now).Some? {
        RunRulesKeepSuppressed(f.event, p, now);
      }
    }
  }

  lemma AllPassSnoc(e: Event, ps: seq<Policy>, p: Policy, agent: Agent, now: Moment)
    ensures AllPass(e, ps + [p], agent, now) <==> AllPass(e, ps, agent, now) && Passes(e, p, agent, now)
  {
    var all := ps + [p];
    assert all[|ps|] == p && forall i :: 0 <= i < |ps| ==> all[i] == ps[i];
  }

  lemma {:induction false} MergedConcat(base: Option<map<string, string>>, xs: seq<Rule>, ys: seq<Rule>)
    ensures Merged(base, xs + ys) == Merged(Merged(base, xs), ys)
    decreases |ys|
  {
    if ys == [] {
      assert xs + ys == xs;
    } else {
      MergedConcat(base, xs, ys[..|ys| - 1]);
      assert (xs + ys)[..|xs + ys| - 1] == xs + ys[..|ys| - 1];
    }
  }

  lemma {:induction false} RunRulesParams(e: Event, p: Policy, rules: seq<Rule>)
    ensures RunRules(e, p, rules).event.params == Merged(e.params, RulesRun(rules, e.ruleName))
  {
    if rules != [] {
      var front, r := rules[..|rules| - 1], rules[|rules| - 1];
      var ran := RulesRun(front, e.ruleName);
      RunRulesParams(e, p, front);
      RunRulesSuppress(e, p, front);
      assert RunRules(e, p, front).stopped <==> HasDisabled(front, e.ruleName);
      if Hits(r, e.ruleName) && r.enabled && !HasDisabled(front, e.ruleName) {
        assert (ran + [r])[..|ran + [r]| - 1] == ran;
      }
    }
  }

  /** The parameters are merged with those of exactly the rules that run. */
  lemma {:induction false} ReachParams(e: Event, ps: seq<Policy>, agent: Agent, now: Moment)
    ensures Reach(e, ps, agent, now).event.params == Merged(e.params, AllRulesRun(e, ps, agent, now))
  {
    if ps != [] {
      var front, p := ps[..|ps| - 1], ps[|ps| - 1];
      var f, before := Reach(e, front, agent, now), AllRulesRun(e, front, agent, now);
      ReachParams(e, front, agent, now);
      ReachStops(e, front, agent, now);
      RunRulesParams(f.event, p, p.rules);
      MergedConcat(e.params, before, RulesRun(p.rules, e.ruleName));
      MergedConcat(e.params, before, []);
    }
  }

  function Notes(e: Event): seq<Meta> {
    if e.metadata.Some? then e.metadata.value else []
  }

  lemma {:induction false} RunRulesNotes(e: Event, p: Policy, rules: seq<Rule>)
    ensures var g := RunRules(e, p, rules);
            && Notes(e) <= Notes(g.event)
            && (g.matched ==> |Notes(g.event)| > |Notes(e)|)
            && (!g.matched ==> g.event == e)
  {
    if rules != [] { RunRulesNotes(e, p, rules[..|rules| - 1]); }
  }

  /** How many policies run. */
  function RunCount(e: Event, ps: seq<Policy>, agent: Agent, now: Moment): nat {
    if ps == [] then 0
    else
      RunCount(e, ps[..|ps| - 1], agent, now)
      + if Runs(e, ps, |ps| - 1, agent, now) then 1 else 0
  }

  lemma {:induction false} RunCountZero(e: Event, ps: seq<Policy>, agent: Agent, now: Moment)
    ensures RunCount(e, ps, agent, now) == 0 <==> forall i :: 0 <= i < |ps| ==> !Runs(e, ps, i, agent, now)
  {
    if ps != [] {
      var front := ps[..|ps| - 1];
      RunCountZero(e, front, agent, now);
      forall i | 0 <= i < |front| ensures Runs(e, ps, i, agent, now) == Runs(e, front, i, agent, now) {
        assert ps[..i] == front[..i];
      }
    }
  }

  /** Metadata only grows, by at least one entry for each policy that runs; and an event
      no policy runs on stays as it was in every entry. */
  lemma {:induction false} MetadataGrows(e: Event, ps: seq<Policy>, agent: Agent, now: Moment)
    ensures var t := Reach(e, ps, agent, now).event;
            && Notes(e) <= Notes(t) && |Notes(t)| >= |Notes(e)| + RunCount(e, ps, agent, now)
            && (RunCount(e, ps, agent, now) == 0 ==> t == e)
  {
    if ps != [] {
      var front, p := ps[..|ps| - 1], ps[|ps| - 1];
      MetadataGrows(e, front, agent, now);
      ReachStops(e, front, agent, now);
      RunRulesNotes(Reach(e, front, agent, now).event, p, p.rules);
    }
  }
}
