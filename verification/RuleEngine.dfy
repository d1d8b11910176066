/** Rule evaluation with a cap on matches, per-rule counters, and hot reload of the
    rule table. What the evaluator answers is a parameter of each evaluation. */
module RuleEngine {
  import opened Options
  import opened OrderedDict
  import opened Subsequences

  /** Raise: an exception the loop does not catch. */
  datatype Verdict = Match | Miss | Error | Raise

  datatype Rule = Rule(tenant: Option<string>, ast: int, enabled: bool, evals: nat, matches: nat, errors: nat)

  type Judge = string -> Verdict

  datatype Query = Query(tenant: Option<string>, judge: Judge, cap: int)

  // ---- which rules an event reaches ----

  predicate Eligible(r: Rule, tenant: Option<string>) {
    r.enabled && (r.tenant.None? || tenant.None? || r.tenant == tenant)
  }

  /** The cap is checked after a match, so one match is always possible. */
  function Cap(q: Query): nat {
    if q.cap < 1 then 1 else q.cap
  }

  predicate Considered(d: Dict<Rule>, k: string, q: Query) {
    k in d.at && Eligible(d.at[k], q.tenant)
  }

  /** The matching rules among `ks`, in table order. */
  function Matching(d: Dict<Rule>, ks: seq<string>, q: Query): (r: seq<string>)
    ensures |r| <= |ks|
  {
    if ks == [] then []
    else
      var front, k := Matching(d, ks[..|ks| - 1], q), ks[|ks| - 1];
      if Considered(d, k, q) && q.judge(k) == Match then front + [k] else front
  }

  /** Some rule among `ks` raises before the cap is reached. */
  predicate Breaks(d: Dict<Rule>, ks: seq<string>, q: Query) {
    exists j :: 0 <= j < |ks| && BreaksAt(d, ks, q, j)
  }

  predicate BreaksAt(d: Dict<Rule>, ks: seq<string>, q: Query, j: nat)
    requires j < |ks|
  {
    Considered(d, ks[j], q) && q.judge(ks[j]) == Raise && |Matching(d, ks[..j], q)| < Cap(q)
  }

  /** The rule at position `i` is evaluated. */
  predicate Reached(d: Dict<Rule>, q: Query, i: nat)
    requires i < |d.keys|
  {
    && Considered(d, d.keys[i], q)
    && !Breaks(d, d.keys[..i], q)
    && |Matching(d, d.keys[..i], q)| < Cap(q)
  }

  function Bumped(r: Rule, v: Verdict): Rule {
    r.(evals := r.evals + 1,
       matches := r.matches + if v == Match then 1 else 0,
       errors := r.errors + if v == Error then 1 else 0)
  }

  // ---- the loop ----

  datatype Walk = Walk(table: Dict<Rule>, matched: seq<string>, capped: bool, raised: bool)

  function Visit(w: Walk, k: string, q: Query): Walk {
    if w.capped || w.raised || !Considered(w.table, k, q) then w
    else
      var v := q.judge(k);
      var table := w.table.(at := w.table.at[k := Bumped(w.table.at[k], v)]);
      match v
      case Match => Walk(table, w.matched + [k], |w.matched| + 1 >= q.cap, false)
      case Raise => w.(table := table, raised := true)
      case Miss => w.(table := table)
      case Error => w.(table := table)
  }

  function Visits(d: Dict<Rule>, ks: seq<string>, q: Query): Walk {
    if ks == [] then Walk(d, [], false, false) else Visit(Visits(d, ks[..|ks| - 1], q), ks[|ks| - 1], q)
  }

  function Evaluate(d: Dict<Rule>, q: Query): Walk {
    Visits(d, d.keys, q)
  }

  lemma BreaksSnoc(d: Dict<Rule>, ks: seq<string>, k: string, q: Query)
    ensures Breaks(d, ks + [k], q) <==>
            Breaks(d, ks, q) || (Considered(d, k, q) && q.judge(k) == Raise && |Matching(d, ks, q)| < Cap(q))
  {
    var all := ks + [k];
    assert all[..|ks|] == ks;
    forall j | 0 <= j < |ks| ensures BreaksAt(d, all, q, j) == BreaksAt(d, ks, q, j) {
      assert all[..j] == ks[..j];
    }
    assert BreaksAt(d, all, q, |ks|) <==> Considered(d, k, q) && q.judge(k) == Raise && |Matching(d, ks, q)| < Cap(q);
  }

  lemma MatchingSnoc(d: Dict<Rule>, ks: seq<string>, k: string, q: Query)
    ensures Matching(d, ks + [k], q) ==
            Matching(d, ks, q) + if Considered(d, k, q) && q.judge(k) == Match then [k] else []
  {
  }

  function Take(s: seq<string>, n: nat): seq<string> {
    if |s| <= n then s else s[..n]
  }

  ghost predicate Outcome(d: Dict<Rule>, ks: seq<string>, q: Query, w: Walk) {
    && w.table.keys == d.keys
    && (forall k :: k in w.table.at <==> k in d.at)
    && (forall k :: k in d.at && k !in ks ==> w.table.at[k] == d.at[k])
    && (w.raised <==> Breaks(d, ks, q))
    && (!w.raised ==> w.matched == Take(Matching(d, ks, q), Cap(q)) && (w.capped <==> |w.matched| >= Cap(q)))
  }

  lemma {:induction false} VisitsOutcome(d: Dict<Rule>, ks: seq<string>, q: Query)
    requires Distinct(ks)
    ensures Outcome(d, ks, q, Visits(d, ks, q))
    decreases |ks|
  {
    if ks != [] {
      var front, k := ks[..|ks| - 1], ks[|ks| - 1];
      assert ks == front + [k] && k !in front;
      VisitsOutcome(d, front, q);
      BreaksSnoc(d, front, k, q);
      MatchingSnoc(d, front, k, q);
      VisitOutcome(d, front, k, q, Visits(d, front, q));
    }
  }

  lemma VisitOutcome(d: Dict<Rule>, front: seq<string>, k: string, q: Query, w: Walk)
    requires k !in front && Outcome(d, front, q, w)
    requires Breaks(d, front + [k], q) <==>
             Breaks(d, front, q) || (Considered(d, k, q) && q.judge(k) == Raise && |Matching(d, front, q)| < Cap(q))
    requires Matching(d, front + [k], q) ==
             Matching(d, front, q) + if Considered(d, k, q) && q.judge(k) == Match then [k] else []
    ensures Outcome(d, front + [k], q, Visit(w, k, q))
  {
  }

  /** Unless a rule raises, the result is the first max(cap, 1) matching rules, in
      table order, among the enabled ones that are global or of the event's tenant;
      the call raises if and only if some rule raises before that. */
  lemma FirstMatches(d: Dict<Rule>, q: Query)
    requires Valid(d)
    ensures var w := Evaluate(d, q);
            && (w.raised <==> Breaks(d, d.keys, q))
            && (!w.raised ==> w.matched == Take(Matching(d, d.keys, q), Cap(q)))
  {
    VisitsOutcome(d, d.keys, q);
  }

  /** The rule `k` behind the position `i`, before and after. */
  predicate Counted(d: Dict<Rule>, q: Query, i: nat, k: string, t: Dict<Rule>)
    requires i < |d.keys| && k in d.at
  {
    k in t.at && t.at[k] == if Reached(d, q, i) then Bumped(d.at[k], q.judge(k)) else d.at[k]
  }

  lemma VisitCounts(d: Dict<Rule>, i: nat, q: Query, w: Walk)
    requires Valid(d) && i < |d.keys| && Outcome(d, d.keys[..i], q, w)
    ensures Counted(d, q, i, d.keys[i], Visit(w, d.keys[i], q).table)
  {
    assert d.keys[i] !in d.keys[..i];
  }

  lemma VisitOther(w: Walk, k: string, q: Query, m: string)
    requires m != k && m in w.table.at
    ensures m in Visit(w, k, q).table.at && Visit(w, k, q).table.at[m] == w.table.at[m]
  {
  }

  lemma VisitsNext(d: Dict<Rule>, ks: seq<string>, q: Query, i: nat)
    requires i < |ks|
    ensures Visits(d, ks[..i + 1], q) == Visit(Visits(d, ks[..i], q), ks[i], q)
  {
    assert ks[..i + 1][..i] == ks[..i];
  }

  lemma {:induction false} VisitsCounts(d: Dict<Rule>, n: nat, q: Query, i: nat)
    requires Valid(d) && i < n <= |d.keys|
    ensures Counted(d, q, i, d.keys[i], Visits(d, d.keys[..n], q).table)
    decreases n
  {
    VisitsNext(d, d.keys, q, n - 1);
    if i == n - 1 {
      VisitsOutcome(d, d.keys[..i], q);
      VisitCounts(d, i, q, Visits(d, d.keys[..i], q));
    } else {
      var w := Visits(d, d.keys[..n - 1], q);
      VisitsCounts(d, n - 1, q, i);
      VisitOther(w, d.keys[n - 1], q, d.keys[i]);
    }
  }

  /** An evaluation counts for exactly the rules it reaches, by their verdict. */
  lemma CountsReached(d: Dict<Rule>, q: Query, i: nat)
    requires Valid(d) && i < |d.keys|
    ensures Valid(Evaluate(d, q).table) && Evaluate(d, q).table.keys == d.keys
    ensures Counted(d, q, i, d.keys[i], Evaluate(d, q).table)
  {
    assert d.keys[..|d.keys|] == d.keys;
    VisitsCounts(d, |d.keys|, q, i);
    VisitsOutcome(d, d.keys, q);
  }

  /** Whose rules: global ones, those of the event's tenant, and all for an event without. */
  predicate Mine(r: Rule, tenant: Option<string>) {
    match r.tenant
    case None => true
    case Some(owner) => tenant.None? || tenant.value == owner
  }

  lemma {:induction false} MatchingIn(d: Dict<Rule>, ks: seq<string>, q: Query, k: string)
    ensures k in Matching(d, ks, q) <==> k in ks && k in d.at && d.at[k].enabled && Mine(d.at[k], q.tenant) && q.judge(k) == Match
    decreases |ks|
  {
    if ks != [] {
      MatchingIn(d, ks[..|ks| - 1], q, k);
      assert ks == ks[..|ks| - 1] + [ks[|ks| - 1]];
    }
  }

  /** Only enabled rules of the event's tenant or of nobody match; and all that match are
      returned, unless the call raises or returns as many as it is asked for, at least one. */
  lemma MatchedAreMine(d: Dict<Rule>, q: Query, k: string)
    requires Valid(d) && !Evaluate(d, q).raised
    ensures var matched := Evaluate(d, q).matched;
            && (k in matched ==> k in d.at && d.at[k].enabled && Mine(d.at[k], q.tenant) && q.judge(k) == Match)
            && |matched| <= (if q.cap < 1 then 1 else q.cap)
            && (k in d.at && d.at[k].enabled && Mine(d.at[k], q.tenant) && q.judge(k) == Match ==>
                  k in matched || |matched| == if q.cap < 1 then 1 else q.cap)
  {
    FirstMatches(d, q);
    MatchingIn(d, d.keys, q, k);
    var all := Matching(d, d.keys, q);
    assert Take(all, Cap(q)) <= all;
  }

  /** A rule that is disabled or another tenant's is neither returned nor counted. */
  lemma NotMineUntouched(d: Dict<Rule>, q: Query, k: string)
    requires Valid(d) && k in d.at && (!d.at[k].enabled || !Mine(d.at[k], q.tenant))
    ensures var w := Evaluate(d, q);
            k in w.table.at && w.table.at[k] == d.at[k] && (!w.raised ==> k !in w.matched)
  {
    var i :| 0 <= i < |d.keys| && d.keys[i] == k;
    CountsReached(d, q, i);
    if !Evaluate(d, q).raised { MatchedAreMine(d, q, k); }
  }

  /** What an evaluation adds to a rule's counters: nothing, or one evaluation and one match
      or error as it was judged. A rule that is returned is counted. */
  lemma CountersAdded(d: Dict<Rule>, q: Query, k: string)
    requires Valid(d) && k in d.at
    ensures var w := Evaluate(d, q);
            k in w.table.at &&
            var r, t := d.at[k], w.table.at[k];
            && t.tenant == r.tenant && t.ast == r.ast && t.enabled == r.enabled
            && (t == r || (t.evals == r.evals + 1
                           && t.matches == r.matches + (if q.judge(k) == Match then 1 else 0)
                           && t.errors == r.errors + (if q.judge(k) == Error then 1 else 0)))
            && (!w.raised && k in w.matched ==> t.evals == r.evals + 1 && t.matches == r.matches + 1)
  {
    var i :| 0 <= i < |d.keys| && d.keys[i] == k;
    CountsReached(d, q, i);
    if !Evaluate(d, q).raised && k in Evaluate(d, q).matched { ReturnedIsReached(d, q, i); }
  }

  lemma ReturnedIsReached(d: Dict<Rule>, q: Query, i: nat)
    requires Valid(d) && i < |d.keys| && !Evaluate(d, q).raised && d.keys[i] in Evaluate(d, q).matched
    ensures Reached(d, q, i) && q.judge(d.keys[i]) == Match
  {
    FirstMatches(d, q);
    MatchedAreMine(d, q, d.keys[i]);
    var front, all := Matching(d, d.keys[..i], q), Matching(d, d.keys, q);
    MatchingPrefix(d, d.keys, q, i);
    MatchingIn(d, d.keys[..i], q, d.keys[i]);
    assert |front| >= Cap(q) ==> Take(all, Cap(q)) <= front;
    if Breaks(d, d.keys[..i], q) {
      var j :| 0 <= j < i && BreaksAt(d, d.keys[..i], q, j);
      assert d.keys[..i][..j] == d.keys[..j];
      assert BreaksAt(d, d.keys, q, j);
    }
  }

  lemma {:induction false} MatchingPrefix(d: Dict<Rule>, ks: seq<string>, q: Query, i: nat)
    requires i <= |ks|
    ensures Matching(d, ks[..i], q) <= Matching(d, ks, q)
    decreases |ks|
  {
    if i < |ks| {
      MatchingPrefix(d, ks[..|ks| - 1], q, i);
      assert ks[..|ks| - 1][..i] == ks[..i];
    } else {
      assert ks[..i] == ks;
    }
  }

  // ---- reload ----

  datatype Parsed = Ast(ast: int) | ParseError | OtherError

  datatype Row = Row(id: string, tenant: Option<string>, enabled: bool, parsed: Parsed)

  function Compiled(row: Row, ast: int): Rule {
    Rule(row.tenant, ast, row.enabled, 0, 0, 0)
  }

  function Carried(r: Rule, from: Option<Rule>): Rule {
    if from.None? then r
    else r.(evals := from.value.evals, matches := from.value.matches, errors := from.value.errors)
  }

  function Existing(d: Dict<Rule>, id: string): Option<Rule> {
    if id in d.at then Some(d.at[id]) else None
  }

  /** The new table; None: an error other than a parse error ends the reload. */
  function Rebuilt(d: Dict<Rule>, rows: seq<Row>): Option<Dict<Rule>> {
    if rows == [] then Some(Empty())
    else
      var front, row := Rebuilt(d, rows[..|rows| - 1]), rows[|rows| - 1];
      if front.None? then None
      else
        match row.parsed
        case ParseError => front
        case OtherError => None
        case Ast(a) => Some(Put(front.value, row.id, Carried(Compiled(row, a), Existing(d, row.id))))
  }

  datatype Action = Evaluation(q: Query) | Reload(rows: Option<seq<Row>>) | Load(row: Row)

  function After(d: Dict<Rule>, a: Action): Dict<Rule> {
    match a
    case Evaluation(q) => Evaluate(d, q).table
    case Reload(rows) => if rows.Some? && Rebuilt(d, rows.value).Some? then Rebuilt(d, rows.value).value else d
    case Load(row) => if row.parsed.Ast? then Put(d, row.id, Compiled(row, row.parsed.ast)) else d
  }

  function Exec(run: seq<Action>): Dict<Rule> {
    if run == [] then Empty() else After(Exec(run[..|run| - 1]), run[|run| - 1])
  }

  lemma {:induction false} RebuiltFacts(d: Dict<Rule>, rows: seq<Row>)
    requires Rebuilt(d, rows).Some?
    ensures var t := Rebuilt(d, rows).value;
            && Valid(t)
            && (forall k :: k in t.at ==>
                  (t.at[k].evals, t.at[k].matches, t.at[k].errors) ==
                  if k in d.at then (d.at[k].evals, d.at[k].matches, d.at[k].errors) else (0, 0, 0))
  {
    if rows != [] {
      RebuiltFacts(d, rows[..|rows| - 1]);
    }
  }

  ghost predicate Compiles(rows: seq<Row>, k: string) {
    exists i :: 0 <= i < |rows| && rows[i].id == k && rows[i].parsed.Ast?
  }

  /** A completed reload leaves exactly the rules whose source still parses. */
  lemma {:induction false} ReloadKeepsParsed(d: Dict<Rule>, rows: seq<Row>, k: string)
    requires Rebuilt(d, rows).Some?
    ensures k in Rebuilt(d, rows).value.at <==> Compiles(rows, k)
  {
    if rows != [] {
      var front := rows[..|rows| - 1];
      ReloadKeepsParsed(d, front, k);
      assert forall i :: 0 <= i < |front| ==> rows[i] == front[i];
    }
  }

  lemma {:induction false} RunValid(run: seq<Action>)
    ensures Valid(Exec(run))
  {
    if run != [] {
      var d, a := Exec(run[..|run| - 1]), run[|run| - 1];
      RunValid(run[..|run| - 1]);
      match a
      case Evaluation(q) => VisitsOutcome(d, d.keys, q);
      case Reload(rows) => if rows.Some? && Rebuilt(d, rows.value).Some? { RebuiltFacts(d, rows.value); }
      case Load(row) =>
    }
  }

  // ---- counters over runs ----

  ghost predicate Evaluated(d: Dict<Rule>, q: Query, k: string) {
    exists i :: 0 <= i < |d.keys| && d.keys[i] == k && Reached(d, q, i)
  }

  /** The verdicts on rule `k` since it was last loaded or first appeared. */
  ghost function Verdicts(run: seq<Action>, k: string): seq<Verdict> {
    if run == [] then []
    else
      var d, before := Exec(run[..|run| - 1]), Verdicts(run[..|run| - 1], k);
      match run[|run| - 1]
      case Evaluation(q) => if Evaluated(d, q, k) then before + [q.judge(k)] else before
      case Reload(_) => if k in d.at && k in Exec(run).at then before else []
      case Load(row) => if row.parsed.Ast? && row.id == k then [] else before
  }

  function Count(vs: seq<Verdict>, v: Verdict): nat {
    if vs == [] then 0 else Count(vs[..|vs| - 1], v) + if vs[|vs| - 1] == v then 1 else 0
  }

  lemma {:induction false} CountsAddUp(vs: seq<Verdict>)
    ensures |vs| == Count(vs, Match) + Count(vs, Miss) + Count(vs, Error) + Count(vs, Raise)
  {
    if vs != [] { CountsAddUp(vs[..|vs| - 1]); }
  }

  ghost predicate Tallies(r: Rule, vs: seq<Verdict>) {
    r.evals == |vs| && r.matches == Count(vs, Match) && r.errors == Count(vs, Error)
  }

  lemma TalliesSnoc(r: Rule, vs: seq<Verdict>, v: Verdict)
    requires Tallies(r, vs)
    ensures Tallies(Bumped(r, v), vs + [v])
  {
  }

  lemma EvaluationTallies(d: Dict<Rule>, q: Query, k: string, vs: seq<Verdict>)
    requires Valid(d) && k in d.at && Tallies(d.at[k], vs)
    ensures k in Evaluate(d, q).table.at
    ensures Tallies(Evaluate(d, q).table.at[k], if Evaluated(d, q, k) then vs + [q.judge(k)] else vs)
  {
    var i :| 0 <= i < |d.keys| && d.keys[i] == k;
    CountsReached(d, q, i);
    TalliesSnoc(d.at[k], vs, q.judge(k));
  }

  /** Over any run of evaluations, reloads and single loads, every rule's counters
      are the tallies of its verdicts since it appeared, reloads not disturbing
      them: so evaluations = matches + misses + errors + calls it made raise. */
  lemma {:induction false} CountersAreTallies(run: seq<Action>, k: string)
    requires k in Exec(run).at
    ensures Tallies(Exec(run).at[k], Verdicts(run, k))
    ensures var r, vs := Exec(run).at[k], Verdicts(run, k);
            r.evals == r.matches + r.errors + Count(vs, Miss) + Count(vs, Raise)
  {
    var front, a := run[..|run| - 1], run[|run| - 1];
    var d := Exec(front);
    RunValid(front);
    if k in d.at { CountersAreTallies(front, k); }
    match a {
      case Evaluation(q) =>
        VisitsOutcome(d, d.keys, q);
        EvaluationTallies(d, q, k, Verdicts(front, k));
      case Reload(rows) =>
        if rows.Some? && Rebuilt(d, rows.value).Some? { RebuiltFacts(d, rows.value); }
      case Load(row) =>
    }
    CountsAddUp(Verdicts(run, k));
  }

  // ---- the engine ----

  class CompiledRule {
    const tenant: Option<string>
    const ast: int
    const enabled: bool
    var evalCount: nat
    var matchCount: nat
    var errorCount: nat

    constructor (tenant: Option<string>, ast: int, enabled: bool)
      ensures Snapshot() == Rule(tenant, ast, enabled, 0, 0, 0)
    {
      this.tenant, this.ast, this.enabled := tenant, ast, enabled;
      evalCount, matchCount, errorCount := 0, 0, 0;
    }

    function Snapshot(): Rule
      reads this
    {
      Rule(tenant, ast, enabled, evalCount, matchCount, errorCount)
    }

    method Count(v: Verdict)
      modifies this
      ensures Snapshot() == Bumped(old(Snapshot()), v)
    {
      evalCount := evalCount + 1;
      if v == Match { matchCount := matchCount + 1; }
      if v == Error { errorCount := errorCount + 1; }
    }
  }

  /** A table of rule objects as a table of values. */
  ghost function Snapshots(t: Dict<CompiledRule>): Dict<Rule>
    reads t.at.Values
  {
    Dict(t.keys, map k | k in t.at :: t.at[k].Snapshot())
  }

  predicate Separate(t: Dict<CompiledRule>) {
    forall k, m :: k in t.at && m in t.at && k != m ==> t.at[k] != t.at[m]
  }

  class Engine {
    var rules: Dict<CompiledRule>

    ghost predicate Ok()
      reads this
    {
      Valid(rules) && Separate(rules)
    }

    ghost function View(): Dict<Rule>
      reads this, rules.at.Values
    {
      Snapshots(rules)
    }

    constructor ()
      ensures Ok() && View() == Empty()
    {
      rules := Empty();
    }

    method CountVerdict(k: string, v: Verdict)
      requires Ok() && k in rules.at
      modifies rules.at[k]
      ensures View() == old(View()).(at := old(View()).at[k := Bumped(old(View()).at[k], v)])
    {
      ghost var before := View();
      rules.at[k].Count(v);
      forall m | m in rules.at ensures View().at[m] == if m == k then Bumped(before.at[k], v) else before.at[m] {
      }
      assert View().at == before.at[k := Bumped(before.at[k], v)];
    }

    /** The loop body: skip, or evaluate, count and perhaps stop. */
    method EvaluateRule(k: string, q: Query, earlier: seq<string>)
      returns (matched: seq<string>, capped: bool, raised: bool)
      requires Ok() && k in rules.at
      modifies rules.at[k]
      ensures Walk(View(), matched, capped, raised) == Visit(Walk(old(View()), earlier, false, false), k, q)
    {
      matched, capped, raised := earlier, false, false;
      var rule := rules.at[k];
      if !rule.enabled || (rule.tenant.Some? && q.tenant.Some? && rule.tenant != q.tenant) { return; }
      var v := q.judge(k);
      CountVerdict(k, v);
      if v == Match {
        matched := matched + [k];
        capped := |matched| >= q.cap;
      }
      raised := v == Raise;
    }

    /** Evaluates an event; `capped` says whether the cap cut the loop short. */
    method EvaluateEvent(q: Query) returns (matched: seq<string>, capped: bool, raised: bool)
      requires Ok()
      modifies rules.at.Values
      ensures Ok() && Walk(View(), matched, capped, raised) == Evaluate(old(View()), q)
    {
      ghost var d, keys := View(), rules.keys;
      matched, capped, raised := [], false, false;
      for i := 0 to |rules.keys|
        invariant Visits(d, keys[..i], q) == Walk(View(), matched, false, false)
        invariant !capped && !raised
      {
        VisitsNext(d, keys, q, i);
        matched, capped, raised := EvaluateRule(rules.keys[i], q, matched);
        if capped || raised {
          HaltStays(d, q, i + 1);
          return;
        }
      }
      assert keys[..|keys|] == keys;
    }

    method AddRow(t: Dict<CompiledRule>, row: Row) returns (u: Dict<CompiledRule>)
      requires Valid(t) && Separate(t) && row.parsed.Ast?
      ensures Valid(u) && Separate(u)
      ensures Snapshots(u) ==
              Put(old(Snapshots(t)), row.id, Carried(Compiled(row, row.parsed.ast), Existing(View(), row.id)))
    {
      var compiled := CompileRow(row);
      PutSnapshot(t, row.id, compiled);
      u := Put(t, row.id, compiled);
    }

    method BuildRules(rows: seq<Row>) returns (ok: bool, newRules: Dict<CompiledRule>)
      ensures Valid(newRules) && Separate(newRules)
      ensures Rebuilt(View(), rows) == if ok then Some(Snapshots(newRules)) else None
    {
      ghost var d := View();
      newRules := Empty();
      for i := 0 to |rows|
        invariant Valid(newRules) && Separate(newRules)
        invariant Rebuilt(d, rows[..i]) == Some(Snapshots(newRules))
      {
        assert rows[..i + 1][..i] == rows[..i];
        if rows[i].parsed.OtherError? {
          ErrorStays(d, rows, i + 1);
          return false, newRules;
        }
        if rows[i].parsed.Ast? { newRules := AddRow(newRules, rows[i]); }
      }
      assert rows[..|rows|] == rows;
      ok := true;
    }

    /** Builds the new table beside the old one, then swaps; `None`: the rows could
        not be read. */
    method LoadRules(rows: Option<seq<Row>>)
      requires Ok()
      modifies this
      ensures Ok() && View() == After(old(View()), Reload(rows))
    {
      if rows.Some? {
        var ok, newRules := BuildRules(rows.value);
        if ok { rules := newRules; }
      }
    }

    method CompileRow(row: Row) returns (compiled: CompiledRule)
      requires row.parsed.Ast?
      ensures fresh(compiled)
      ensures compiled.Snapshot() == Carried(Compiled(row, row.parsed.ast), Existing(View(), row.id))
    {
      compiled := new CompiledRule(row.tenant, row.parsed.ast, row.enabled);
      if row.id in rules.at {
        var existing := rules.at[row.id];
        compiled.matchCount := existing.matchCount;
        compiled.evalCount := existing.evalCount;
        compiled.errorCount := existing.errorCount;
      }
    }

    /** Registers one rule with fresh counters; false: it does not parse. */
    method LoadRule(row: Row) returns (ok: bool)
      requires Ok()
      modifies this
      ensures Ok() && ok == row.parsed.Ast? && View() == After(old(View()), Load(row))
    {
      ok := row.parsed.Ast?;
      if ok {
        var compiled := new CompiledRule(row.tenant, row.parsed.ast, row.enabled);
        PutSnapshot(rules, row.id, compiled);
        rules := Put(rules, row.id, compiled);
      }
    }
  }

  lemma PutSnapshot(t: Dict<CompiledRule>, k: string, r: CompiledRule)
    requires Valid(t) && Separate(t) && r !in t.at.Values
    ensures Valid(Put(t, k, r)) && Separate(Put(t, k, r)) && Put(t, k, r).at.Values <= t.at.Values + {r}
    ensures Snapshots(Put(t, k, r)) == Put(Snapshots(t), k, r.Snapshot())
  {
    PutValid(t, k, r);
    forall m | m in t.at ensures t.at[m] != r { assert t.at[m] in t.at.Values; }
  }

  lemma {:induction false} HaltStays(d: Dict<Rule>, q: Query, n: nat)
    requires n <= |d.keys|
    requires var w := Visits(d, d.keys[..n], q); w.capped || w.raised
    ensures Evaluate(d, q) == Visits(d, d.keys[..n], q)
    decreases |d.keys| - n
  {
    if n == |d.keys| {
      assert d.keys[..n] == d.keys;
    } else {
      assert d.keys[..n + 1][..n] == d.keys[..n];
      HaltStays(d, q, n + 1);
    }
  }

  lemma {:induction false} ErrorStays(d: Dict<Rule>, rows: seq<Row>, n: nat)
    requires n <= |rows| && Rebuilt(d, rows[..n]).None?
    ensures Rebuilt(d, rows).None?
    decreases |rows| - n
  {
    if n == |rows| {
      assert rows[..n] == rows;
    } else {
      assert rows[..n + 1][..n] == rows[..n];
      ErrorStays(d, rows, n + 1);
    }
  }
}
