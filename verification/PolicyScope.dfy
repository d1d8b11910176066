/** Which policies and which rules make a difference to an event, and what difference. */
module PolicyScope {
  import opened Options
  import opened PolicyEngine
  import opened Schedule

  /** Switched off; or scoped, to no tag of the agent and not to its framework. */
  predicate Elsewhere(p: Policy, agent: Agent) {
    || !p.enabled
    || (&& (p.scopeTags != [] || p.scopeFrameworks != [])
        && (forall t :: t in p.scopeTags ==> t !in agent.tags)
        && (agent.framework == "" || agent.framework !in p.scopeFrameworks))
  }

  /** Enabled; and not scoped at all, or to some tag of the agent, or to its framework. */
  predicate Here(p: Policy, agent: Agent) {
    && p.enabled
    && (|| (p.scopeTags == [] && p.scopeFrameworks == [])
        || (exists t :: t in p.scopeTags && t in agent.tags)
        || (agent.framework != "" && agent.framework in p.scopeFrameworks))
  }

  lemma HereOrElsewhere(p: Policy, agent: Agent)
    ensures Applies(p, agent) <==> Here(p, agent)
    ensures Here(p, agent) <==> !Elsewhere(p, agent)
  {
  }

  lemma FoldSnoc(e: Event, ps: seq<Policy>, p: Policy, agent: Agent, now: Moment)
    ensures ApplyAll(e, ps + [p], agent, now)
            == match ApplyAll(e, ps, agent, now)
               case None => None
               case Some(f) => ApplyOne(f, p, agent, now)
    ensures Reach(e, ps + [p], agent, now)
            == var f := Reach(e, ps, agent, now);
               match ApplyOne(f, p, agent, now)
               case None => f.(stopped := true)
               case Some(g) => g
  {
    assert (ps + [p])[..|ps|] == ps;
  }

  /** A policy that is switched off or out of scope can be taken out of any list. */
  lemma {:induction false} ElsewhereIrrelevant(
      e: Event, before: seq<Policy>, p: Policy, after: seq<Policy>, agent: Agent, now: Moment)
    requires Elsewhere(p, agent)
    ensures ApplyAll(e, before + [p] + after, agent, now) == ApplyAll(e, before + after, agent, now)
    ensures Reach(e, before + [p] + after, agent, now) == Reach(e, before + after, agent, now)
    decreases |after|
  {
    HereOrElsewhere(p, agent);
    if after == [] {
      assert before + [p] + after == before + [p] && before + after == before;
      FoldSnoc(e, before, p, agent, now);
    } else {
      var shorter, last := after[..|after| - 1], after[|after| - 1];
      ElsewhereIrrelevant(e, before, p, shorter, agent, now);
      assert before + [p] + after == (before + [p] + shorter) + [last];
      assert before + after == (before + shorter) + [last];
      FoldSnoc(e, before + [p] + shorter, last, agent, now);
      FoldSnoc(e, before + shorter, last, agent, now);
    }
  }

  // ---- what one more rule does ----

  /** The event with the severity of an enabled rule, if that is one of the five levels. */
  predicate SeverityTaken(e: Event, t: Event, s: Option<string>) {
    if s == Some("critical") || s == Some("high") || s == Some("medium") || s == Some("low") || s == Some("info")
    then t.severity == s && t.original == Some(e.severity)
    else t.severity == e.severity && t.original == e.original
  }

  /** Its parameters: the rule's where it has some, else as before. */
  ghost predicate ParamsTaken(e: Event, t: Event, m: map<string, string>) {
    if m == map[] then t.params == e.params
    else
      && t.params.Some?
      && (forall k :: k in m ==> k in t.params.value && t.params.value[k] == m[k])
      && (forall k :: k !in m ==> (k in t.params.value <==> e.params.Some? && k in e.params.value))
      && (forall k :: k !in m && k in t.params.value ==> t.params.value[k] == e.params.value[k])
  }

  predicate NoteAdded(e: Event, t: Event, m: Meta) {
    t.metadata == Some((if e.metadata.Some? then e.metadata.value else []) + [m])
  }

  /** Rules count by the event's own name. A disabled one suppresses and ends the policy; an
      enabled one overrides; both leave their mark, and any other rule leaves none. */
  lemma OneMoreRule(e: Event, p: Policy, rules: seq<Rule>, r: Rule)
    ensures var g, t := RunRules(e, p, rules), RunRules(e, p, rules + [r]);
            if g.stopped || r.name == "" || r.name != e.ruleName then t == g
            else
              && t.matched && t.stopped == !r.enabled && t.event.ruleName == e.ruleName
              && (if r.enabled then
                    && SeverityTaken(g.event, t.event, r.severity) && ParamsTaken(g.event, t.event, r.params)
                    && t.event.notifications == (if r.notifications == [] then g.event.notifications else Some(r.notifications))
                    && t.event.suppressed == g.event.suppressed
                    && NoteAdded(g.event, t.event, Meta(p.id, p.name, r.name, Override(r.severity)))
                  else
                    && t.event == g.event.(suppressed := Some("rule_disabled"), metadata := t.event.metadata)
                    && NoteAdded(g.event, t.event, Meta(p.id, p.name, r.name, Disabled)))
  {
    assert (rules + [r])[..|rules|] == rules;
    RunRulesSuppress(e, p, rules);
  }

  // ---- what one more policy does ----

  /** A policy in scope that is reached runs, and says so: outside its schedule it suppresses
      the event; inside it its rules run, and if none has the event's name that is noted. */
  lemma OneMorePolicy(e: Event, ps: seq<Policy>, p: Policy, agent: Agent, now: Moment)
    requires Here(p, agent) && !Reach(e, ps, agent, now).stopped
    ensures var f, t := Reach(e, ps, agent, now), Reach(e, ps + [p], agent, now);
            match Within(p.schedule, now)
            case None => t == f.(stopped := true) && ApplyAll(e, ps + [p], agent, now) == None
            case Some(false) =>
              && t.stopped && t.event == f.event.(suppressed := Some("outside_schedule"), metadata := t.event.metadata)
              && NoteAdded(f.event, t.event, Meta(p.id, p.name, "", Suppressed))
            case Some(true) =>
              var g := RunRules(f.event, p, p.rules);
              && (g.matched ==> t.event == g.event)
              && (!g.matched ==> g.event == f.event && t.event == f.event.(metadata := t.event.metadata)
                                 && NoteAdded(f.event, t.event, Meta(p.id, p.name, "", NoMatchingRule)))
              && (t.stopped <==> t.event.suppressed.Some?)
  {
    HereOrElsewhere(p, agent);
    FoldSnoc(e, ps, p, agent, now);
    ReachIsFold(e, ps, agent, now);
    RunRulesNotes(Reach(e, ps, agent, now).event, p, p.rules);
  }

  /** So it leaves at least one new entry, and all new entries name it. */
  lemma InScopeLeavesItsMark(e: Event, ps: seq<Policy>, p: Policy, agent: Agent, now: Moment)
    requires Here(p, agent) && !Reach(e, ps, agent, now).stopped && Within(p.schedule, now).Some?
    ensures var before, after := Notes(Reach(e, ps, agent, now).event), Notes(Reach(e, ps + [p], agent, now).event);
            && before < after
            && forall i :: |before| <= i < |after| ==> after[i].policyId == p.id && after[i].policyName == p.name
  {
    OneMorePolicy(e, ps, p, agent, now);
    var f := Reach(e, ps, agent, now).event;
    RulesNameTheirPolicy(f, p, p.rules);
    RunRulesNotes(f, p, p.rules);
  }

  lemma {:induction false} RulesNameTheirPolicy(e: Event, p: Policy, rules: seq<Rule>)
    ensures var after := Notes(RunRules(e, p, rules).event);
            && Notes(e) <= after
            && forall i :: |Notes(e)| <= i < |after| ==> after[i].policyId == p.id && after[i].policyName == p.name
    decreases |rules|
  {
    if rules != [] {
      var front, r := rules[..|rules| - 1], rules[|rules| - 1];
      RulesNameTheirPolicy(e, p, front);
      OneMoreRule(e, p, front, r);
      assert rules == front + [r];
    }
  }
}
