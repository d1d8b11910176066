/** The trust engine's arithmetic: damped propagation for any graph and any
    number of steps, the weighted score, penalties, injection and decay. */
module TrustGraph {
  import opened Flows

  const W_HISTORY := 0.3
  const W_BEHAVIOR := 0.3
  const W_PERMISSIONS := 0.2
  const W_REPUTATION := 0.2
  const DECAY_RATE := 0.01
  const NEUTRAL_SCORE := 0.5
  const DAMPING := 0.85
  const PENALTY_HIGH := 0.15
  const PENALTY_CRITICAL := 0.25

  // ---- propagation ----

  /** Edge weights `weight(j, i)` from j to i, and the divisor used for j's edges. */
  datatype Graph = Graph(n: nat, weight: Flow, outDegree: nat -> real)

  function Share(g: Graph, j: nat, i: nat): real {
    if g.outDegree(j) != 0.0 then g.weight(j, i) / g.outDegree(j) else 0.0
  }

  predicate Divisible(g: Graph) {
    forall j: nat :: j < g.n ==> g.outDegree(j) > 0.0
  }

  /** score(j) * w(j, i) / out_degree(j) */
  function Contribution(g: Graph, s: seq<real>): Flow {
    (j: nat, i: nat) => if j < |s| then s[j] * Share(g, j, i) else 0.0
  }

  function Incoming(g: Graph, s: seq<real>, i: nat): real {
    Into(Contribution(g, s), i, g.n)
  }

  /** `base` plus the damped inflow, for each of `n` nodes. */
  function Affine(base: real, d: real, f: Flow, n: nat): (r: seq<real>)
    ensures |r| == n
  {
    seq(n, i requires 0 <= i < n => base + d * Into(f, i, n))
  }

  function Step(g: Graph, d: real, s: seq<real>): (r: seq<real>)
    requires g.n == |s|
    ensures |r| == g.n
  {
    if g.n == 0 then [] else Affine((1.0 - d) / g.n as real, d, Contribution(g, s), g.n)
  }

  function Steps(g: Graph, d: real, s: seq<real>, k: nat): (r: seq<real>)
    requires g.n == |s|
    ensures |r| == |s|
  {
    if k == 0 then s else Step(g, d, Steps(g, d, s, k - 1))
  }

  /** Weights are non-negative and each node's out-degree is the sum of its out-weights. */
  ghost predicate Normalised(g: Graph) {
    && Divisible(g)
    && (forall j: nat, i: nat :: j < g.n && i < g.n ==> g.weight(j, i) >= 0.0)
    && (forall j: nat :: j < g.n ==> OutOf(g.weight, j, g.n) == g.outDegree(j))
  }

  lemma {:induction false} ContributionScales(g: Graph, s: seq<real>, j: nat, m: nat)
    requires j < |s| && g.outDegree(j) != 0.0
    ensures OutOf(Contribution(g, s), j, m) == s[j] * (OutOf(g.weight, j, m) / g.outDegree(j))
  {
    if m > 0 {
      ContributionScales(g, s, j, m - 1);
    }
  }

  lemma PassesOnAll(g: Graph, s: seq<real>, j: nat)
    requires Normalised(g) && j < g.n == |s|
    ensures OutOf(Contribution(g, s), j, g.n) == s[j]
  {
    ContributionScales(g, s, j, g.n);
    assert OutOf(g.weight, j, g.n) == g.outDegree(j);
  }

  lemma {:induction false} SentIsMass(g: Graph, s: seq<real>, f: Flow, k: nat)
    requires k <= g.n == |s|
    requires forall j: nat :: j < g.n ==> OutOf(f, j, g.n) == s[j]
    ensures Sent(f, g.n, k) == Mass(s, k)
  {
    if k > 0 {
      SentIsMass(g, s, f, k - 1);
      assert OutOf(f, k - 1, g.n) == s[k - 1];
    }
  }

  /** In a normalised graph all that is there is received by somebody. */
  lemma ReceivedIsMass(g: Graph, s: seq<real>)
    requires Normalised(g) && g.n == |s|
    ensures Received(Contribution(g, s), g.n, g.n) == Mass(s, g.n)
  {
    var f := Contribution(g, s);
    forall j: nat | j < g.n ensures OutOf(f, j, g.n) == s[j] { PassesOnAll(g, s, j); }
    SentIsMass(g, s, f, g.n);
    SentIsReceived(f, g.n, g.n);
  }

  // ---- mass ----

  function Linear(m: real, base: real, d: real, x: real): real {
    m * base + d * x
  }

  lemma {:induction false} MassOfAffine(base: real, d: real, f: Flow, n: nat, m: nat)
    requires m <= n
    ensures Mass(Affine(base, d, f, n), m) == Linear(m as real, base, d, Received(f, m, n))
  {
    if m == 0 {
      assert Linear(0.0, base, d, 0.0) == 0.0;
    } else {
      MassOfAffine(base, d, f, n, m - 1);
      assert Affine(base, d, f, n)[m - 1] == base + d * Into(f, m - 1, n);
    }
  }

  /** What a step makes of a total of m. */
  function Blend(d: real, m: real): real {
    (1.0 - d) + d * m
  }

  lemma LinearOfShare(n: real, d: real, x: real)
    requires n != 0.0
    ensures Linear(n, (1.0 - d) / n, d, x) == Blend(d, x)
  {
  }

  /** One step takes mass M to (1 - d) + d * M. */
  lemma MassStep(g: Graph, d: real, s: seq<real>)
    requires Normalised(g) && g.n == |s| > 0
    ensures Mass(Step(g, d, s), g.n) == Blend(d, Mass(s, g.n))
  {
    var base, x := (1.0 - d) / g.n as real, Received(Contribution(g, s), g.n, g.n);
    MassOfAffine(base, d, Contribution(g, s), g.n, g.n);
    ReceivedIsMass(g, s);
    LinearOfShare(g.n as real, d, x);
  }

  /** Mass 1 is kept for ever. */
  lemma {:induction false} MassConserved(g: Graph, d: real, s: seq<real>, k: nat)
    requires Normalised(g) && g.n == |s| > 0 && Mass(s, g.n) == 1.0
    ensures Mass(Steps(g, d, s, k), g.n) == 1.0
  {
    if k > 0 {
      MassConserved(g, d, s, k - 1);
      MassStep(g, d, Steps(g, d, s, k - 1));
    }
  }

  lemma IncomingNonNegative(g: Graph, s: seq<real>, i: nat)
    requires Normalised(g) && g.n == |s| && i < g.n && NonNegative(s)
    ensures Incoming(g, s, i) >= 0.0
  {
    assert forall j: nat :: j < g.n ==> Contribution(g, s)(j, i) >= 0.0;
    IntoNonNegative(Contribution(g, s), i, g.n);
  }

  lemma StepNonNegative(g: Graph, d: real, s: seq<real>)
    requires Normalised(g) && g.n == |s| && NonNegative(s) && 0.0 <= d <= 1.0
    ensures NonNegative(Step(g, d, s))
  {
    forall i | 0 <= i < g.n ensures Step(g, d, s)[i] >= 0.0 {
      IncomingNonNegative(g, s, i);
      assert (1.0 - d) / (g.n as real) >= 0.0;
    }
  }

  lemma {:induction false} StepsNonNegative(g: Graph, d: real, s: seq<real>, k: nat)
    requires Normalised(g) && g.n == |s| && NonNegative(s) && 0.0 <= d <= 1.0
    ensures NonNegative(Steps(g, d, s, k))
  {
    if k > 0 {
      StepsNonNegative(g, d, s, k - 1);
      StepNonNegative(g, d, Steps(g, d, s, k - 1));
    }
  }

  /** Scores that start as a distribution stay in [0, 1] after any number of steps. */
  lemma ScoresStayInUnitInterval(g: Graph, d: real, s: seq<real>, k: nat, i: nat)
    requires Normalised(g) && g.n == |s| && NonNegative(s) && Mass(s, g.n) == 1.0 && 0.0 <= d <= 1.0 && i < g.n
    ensures 0.0 <= Steps(g, d, s, k)[i] <= 1.0
  {
    MassConserved(g, d, s, k);
    StepsNonNegative(g, d, s, k);
    PartAtMostMass(Steps(g, d, s, k), i, g.n);
  }

  // ---- forgetting the start ----

  function Gap(s: seq<real>, t: seq<real>): (v: seq<real>)
    requires |s| == |t|
    ensures |v| == |s|
  {
    seq(|s|, i requires 0 <= i < |s| => Abs(s[i] - t[i]))
  }

  /** The L1 distance. */
  function Distance(s: seq<real>, t: seq<real>): real
    requires |s| == |t|
  {
    Mass(Gap(s, t), |s|)
  }

  lemma IncomingGap(g: Graph, s: seq<real>, t: seq<real>, i: nat)
    requires Normalised(g) && g.n == |s| == |t| && i < g.n
    ensures Abs(Incoming(g, s, i) - Incoming(g, t, i)) <= Incoming(g, Gap(s, t), i)
  {
    var f, h, z := Contribution(g, s), Contribution(g, t), Contribution(g, Gap(s, t));
    forall j: nat | j < g.n ensures Abs(f(j, i) - h(j, i)) <= z(j, i) {
      assert Gap(s, t)[j] == Abs(s[j] - t[j]);
    }
    IntoGap(f, h, z, i, g.n);
  }

  lemma DampedGap(base: real, x: real, y: real, z: real, d: real)
    requires Abs(x - y) <= z && d >= 0.0
    ensures Abs((base + d * x) - (base + d * y)) <= 0.0 + d * z
  {
  }

  /** The damped inflow of every node. */
  function Damped(g: Graph, d: real, s: seq<real>): (w: seq<real>)
    ensures |w| == g.n
  {
    Affine(0.0, d, Contribution(g, s), g.n)
  }

  lemma DampedMass(g: Graph, d: real, s: seq<real>)
    requires Normalised(g) && g.n == |s|
    ensures Mass(Damped(g, d, s), g.n) == Linear(g.n as real, 0.0, d, Mass(s, g.n))
  {
    MassOfAffine(0.0, d, Contribution(g, s), g.n, g.n);
    ReceivedIsMass(g, s);
  }

  lemma NodeGap(g: Graph, d: real, s: seq<real>, t: seq<real>, i: nat)
    requires Normalised(g) && g.n == |s| == |t| && d >= 0.0 && i < g.n
    ensures Gap(Step(g, d, s), Step(g, d, t))[i] <= Damped(g, d, Gap(s, t))[i]
  {
    IncomingGap(g, s, t, i);
    var base, x, y, z := (1.0 - d) / g.n as real, Incoming(g, s, i), Incoming(g, t, i), Incoming(g, Gap(s, t), i);
    DampedGap(base, x, y, z, d);
    assert Step(g, d, s)[i] == base + d * x && Step(g, d, t)[i] == base + d * y;
    assert Damped(g, d, Gap(s, t))[i] == 0.0 + d * z;
  }

  lemma StepWithinDamped(g: Graph, d: real, s: seq<real>, t: seq<real>)
    requires Normalised(g) && g.n == |s| == |t| && d >= 0.0
    ensures Distance(Step(g, d, s), Step(g, d, t)) <= Mass(Damped(g, d, Gap(s, t)), g.n)
  {
    var v, w := Gap(Step(g, d, s), Step(g, d, t)), Damped(g, d, Gap(s, t));
    forall i | 0 <= i < |v| ensures v[i] <= w[i] { NodeGap(g, d, s, t, i); }
    MassMonotone(v, w, g.n);
  }

  predicate Shrinks(before: real, after: real, factor: real) {
    after <= factor * before
  }

  lemma NoBase(m: real, d: real, before: real, after: real)
    requires after <= Linear(m, 0.0, d, before)
    ensures Shrinks(before, after, d)
  {
  }

  /** One step shrinks the distance at least by the damping factor. */
  lemma StepContracts(g: Graph, d: real, s: seq<real>, t: seq<real>)
    requires Normalised(g) && g.n == |s| == |t| && d >= 0.0
    ensures Shrinks(Distance(s, t), Distance(Step(g, d, s), Step(g, d, t)), d)
  {
    StepWithinDamped(g, d, s, t);
    DampedMass(g, d, Gap(s, t));
    NoBase(g.n as real, d, Distance(s, t), Distance(Step(g, d, s), Step(g, d, t)));
  }

  function Pow(d: real, k: nat): real {
    if k == 0 then 1.0 else d * Pow(d, k - 1)
  }

  lemma {:induction false} ShrinksEachTime(dist: nat -> real, d: real, k: nat)
    requires d >= 0.0 && forall j: nat :: j > 0 ==> Shrinks(dist(j - 1), dist(j), d)
    ensures Shrinks(dist(0), dist(k), Pow(d, k))
  {
    if k > 0 {
      ShrinksEachTime(dist, d, k - 1);
    }
  }

  /** Two starting vectors are within d^k of their initial distance after k steps. */
  lemma Contraction(g: Graph, d: real, s: seq<real>, t: seq<real>, k: nat)
    requires Normalised(g) && g.n == |s| == |t| && d >= 0.0
    ensures Shrinks(Distance(s, t), Distance(Steps(g, d, s, k), Steps(g, d, t, k)), Pow(d, k))
  {
    var dist := (j: nat) => Distance(Steps(g, d, s, j), Steps(g, d, t, j));
    forall j: nat | j > 0 ensures Shrinks(dist(j - 1), dist(j), d) {
      StepContracts(g, d, Steps(g, d, s, j - 1), Steps(g, d, t, j - 1));
    }
    ShrinksEachTime(dist, d, k);
    assert dist(0) == Distance(s, t) && dist(k) == Distance(Steps(g, d, s, k), Steps(g, d, t, k));
  }

  // ---- tenant isolation ----

  ghost predicate AgreeOn(s: seq<real>, t: seq<real>, inside: nat -> bool)
    requires |s| == |t|
  {
    forall i: nat :: i < |s| && inside(i) ==> s[i] == t[i]
  }

  /** No edge enters the tenant's nodes from outside. */
  ghost predicate NoEdgesInto(g: Graph, inside: nat -> bool) {
    forall j: nat, i: nat :: j < g.n && i < g.n && inside(i) && !inside(j) ==> g.weight(j, i) == 0.0
  }

  lemma IncomingAgrees(g: Graph, s: seq<real>, t: seq<real>, inside: nat -> bool, i: nat)
    requires Divisible(g) && g.n == |s| == |t| && i < g.n && inside(i)
    requires NoEdgesInto(g, inside) && AgreeOn(s, t, inside)
    ensures Incoming(g, s, i) == Incoming(g, t, i)
  {
    var f, h := Contribution(g, s), Contribution(g, t);
    forall j: nat | j < g.n ensures f(j, i) == h(j, i) {
      if !inside(j) { assert g.weight(j, i) == 0.0 && Share(g, j, i) == 0.0; }
    }
    IntoSame(f, h, i, g.n);
  }

  lemma StepIsolates(g: Graph, d: real, s: seq<real>, t: seq<real>, inside: nat -> bool)
    requires Divisible(g) && g.n == |s| == |t| && NoEdgesInto(g, inside) && AgreeOn(s, t, inside)
    ensures AgreeOn(Step(g, d, s), Step(g, d, t), inside)
  {
    forall i: nat | i < g.n && inside(i) ensures Step(g, d, s)[i] == Step(g, d, t)[i] {
      IncomingAgrees(g, s, t, inside, i);
    }
  }

  /** Without edges from outside, a tenant's scores after any number of steps do
      not depend on anybody else's. */
  lemma {:induction false} TenantIsolation(g: Graph, d: real, s: seq<real>, t: seq<real>, inside: nat -> bool, k: nat)
    requires Divisible(g) && g.n == |s| == |t| && NoEdgesInto(g, inside) && AgreeOn(s, t, inside)
    ensures AgreeOn(Steps(g, d, s, k), Steps(g, d, t, k), inside)
  {
    if k > 0 {
      TenantIsolation(g, d, s, t, inside, k - 1);
      StepIsolates(g, d, Steps(g, d, s, k - 1), Steps(g, d, t, k - 1), inside);
    }
  }

  function Zeros(n: nat): seq<real> {
    seq(n, _ => 0.0)
  }

  /** And isolation needs it: for any damping but 0, one step already isolates a
      tenant from the others if and only if no edge enters it from outside. */
  lemma IsolatedIffNoEdgesInto(g: Graph, d: real, inside: nat -> bool)
    requires Divisible(g) && d != 0.0
    ensures (forall s: seq<real>, t: seq<real> :: |s| == g.n && |t| == g.n && AgreeOn(s, t, inside)
              ==> AgreeOn(Step(g, d, s), Step(g, d, t), inside))
            <==> NoEdgesInto(g, inside)
  {
    if NoEdgesInto(g, inside) {
      forall s: seq<real>, t: seq<real> | |s| == g.n && |t| == g.n && AgreeOn(s, t, inside)
        ensures AgreeOn(Step(g, d, s), Step(g, d, t), inside)
      {
        StepIsolates(g, d, s, t, inside);
      }
    } else {
      var j: nat, i: nat :| j < g.n && i < g.n && inside(i) && !inside(j) && g.weight(j, i) != 0.0;
      LeakShows(g, d, inside, j, i);
    }
  }

  lemma LeakShows(g: Graph, d: real, inside: nat -> bool, j: nat, i: nat)
    requires Divisible(g) && d != 0.0
    requires j < g.n && i < g.n && inside(i) && !inside(j) && g.weight(j, i) != 0.0
    ensures var s, t := Zeros(g.n), Zeros(g.n)[j := 1.0];
            AgreeOn(s, t, inside) && !AgreeOn(Step(g, d, s), Step(g, d, t), inside)
  {
    var s, t := Zeros(g.n), Zeros(g.n)[j := 1.0];
    IntoFromOne(Contribution(g, s), j, i, g.n);
    IntoFromOne(Contribution(g, t), j, i, g.n);
    assert Step(g, d, s)[i] != Step(g, d, t)[i];
  }

  // ---- the weighted score under penalties ----

  predicate Unit(x: real) {
    0.0 <= x <= 1.0
  }

  function TrustScore(history: real, behavior: real, permissions: real, reputation: real): real {
    W_HISTORY * history + W_BEHAVIOR * behavior + W_PERMISSIONS * permissions + W_REPUTATION * reputation
  }

  /** A convex combination: between the least and the greatest of its factors. */
  lemma ScoreBetweenFactors(h: real, b: real, perm: real, rep: real, lo: real, hi: real)
    requires lo <= h <= hi && lo <= b <= hi && lo <= perm <= hi && lo <= rep <= hi
    ensures lo <= TrustScore(h, b, perm, rep) <= hi
  {
  }

  /** What each factor is worth: history and behaviour 0.3, permissions and reputation 0.2. */
  lemma FactorWeights(h: real, b: real, perm: real, rep: real, x: real)
    ensures TrustScore(h + x, b, perm, rep) - TrustScore(h, b, perm, rep) == 0.3 * x
    ensures TrustScore(h, b + x, perm, rep) - TrustScore(h, b, perm, rep) == 0.3 * x
    ensures TrustScore(h, b, perm + x, rep) - TrustScore(h, b, perm, rep) == 0.2 * x
    ensures TrustScore(h, b, perm, rep + x) - TrustScore(h, b, perm, rep) == 0.2 * x
    ensures TrustScore(0.0, 0.0, 0.0, 0.0) == 0.0
  {
  }

  function Hit(b: real, p: real): real {
    if b - p >= 0.0 then b - p else 0.0
  }

  function Hits(b: real, ps: seq<real>): real {
    if ps == [] then b else Hit(Hits(b, ps[..|ps| - 1]), ps[|ps| - 1])
  }

  predicate Penalties(ps: seq<real>) {
    forall i :: 0 <= i < |ps| ==> 0.0 < ps[i]
  }

  /** Any number of penalties amounts to one of their sum, and the score strictly
      falls with the last of them until behaviour has reached the floor. */
  lemma {:induction false} HitsAccumulate(h: real, b: real, perm: real, rep: real, ps: seq<real>)
    requires Unit(b) && Penalties(ps)
    ensures Mass(ps, |ps|) >= 0.0
    ensures Hits(b, ps) == if b - Mass(ps, |ps|) >= 0.0 then b - Mass(ps, |ps|) else 0.0
    ensures ps != [] ==>
              var before := Hits(b, ps[..|ps| - 1]);
              (TrustScore(h, Hits(b, ps), perm, rep) < TrustScore(h, before, perm, rep) <==> before > 0.0)
    decreases |ps|
  {
    if ps != [] {
      var front := ps[..|ps| - 1];
      HitsAccumulate(h, b, perm, rep, front);
      MassOfPrefix(ps, front, |front|);
    }
  }

  // ---- injection ----

  /** An injected node raises reputation by at most d / (n + 1) while the agent takes penalty `p`. */
  predicate InjectionCase(n: nat, h: real, b0: real, perm: real, rep0: real, delta: real, p: real) {
    && Unit(h) && Unit(b0) && Unit(perm) && Unit(rep0)
    && 0.0 < delta <= DAMPING / (n as real + 1.0)
    && PENALTY_HIGH <= p <= PENALTY_CRITICAL && b0 >= p
  }

  predicate InjectionFails(h: real, b0: real, perm: real, rep0: real, delta: real, p: real) {
    TrustScore(h, b0 - p, perm, if rep0 + delta <= 1.0 then rep0 + delta else 1.0) < TrustScore(h, b0, perm, rep0)
  }

  /** Injection never pays off if and only if the graph has at least three nodes. */
  lemma InjectionFailsIff(n: nat)
    ensures (forall h, b0, perm, rep0, delta, p :: InjectionCase(n, h, b0, perm, rep0, delta, p)
              ==> InjectionFails(h, b0, perm, rep0, delta, p))
            <==> n >= 3
  {
    var bound := DAMPING / (n as real + 1.0);
    assert bound * (n as real + 1.0) == DAMPING;
    if n >= 3 {
      assert bound <= 0.2125 by {
        if bound > 0.2125 { Monotone(4.0, n as real + 1.0, bound); }
      }
    } else {
      assert bound > 0.25 by {
        if bound <= 0.25 { Monotone(bound, 0.25, n as real + 1.0); }
      }
      assert InjectionCase(n, 0.0, 1.0, 0.0, 0.0, if bound <= 1.0 then bound else 1.0, PENALTY_HIGH);
      assert !InjectionFails(0.0, 1.0, 0.0, 0.0, if bound <= 1.0 then bound else 1.0, PENALTY_HIGH);
    }
  }

  /** Node n has been injected into a graph of n nodes, with score `x`; `i` is another node. */
  ghost predicate Injected(g: Graph, n: nat, s: seq<real>, x: real, i: nat) {
    Normalised(g) && g.n == |s| == n + 1 && s[n] == x && i < n
  }

  /** What the injected node adds to the score of node i in one step. */
  function Lift(g: Graph, d: real, n: nat, s: seq<real>, i: nat): real
    requires g.n == |s| == n + 1 && i < n
  {
    Step(g, d, s)[i] - Step(g, d, s[n := 0.0])[i]
  }

  lemma StepAt(g: Graph, d: real, s: seq<real>, i: nat)
    requires g.n == |s| && i < g.n
    ensures Step(g, d, s)[i] == (1.0 - d) / g.n as real + d * Into(Contribution(g, s), i, g.n)
  {
  }

  lemma LiftIsShare(g: Graph, d: real, n: nat, s: seq<real>, x: real, i: nat)
    requires Injected(g, n, s, x, i)
    ensures Lift(g, d, n, s, i) == d * (x * Share(g, n, i))
  {
    var t := s[n := 0.0];
    var f, h := Contribution(g, s), Contribution(g, t);
    OnlyLastDiffers(f, h, i, n);
    StepAt(g, d, s, i);
    StepAt(g, d, t, i);
    AffineGap((1.0 - d) / g.n as real, d, Into(h, i, n + 1), Into(f, i, n + 1), f(n, i));
  }

  lemma ShareBounded(g: Graph, j: nat, i: nat)
    requires Normalised(g) && j < g.n && i < g.n
    ensures 0.0 <= Share(g, j, i) <= 1.0
  {
    OutOfAtLeast(g.weight, j, i, g.n);
    assert g.weight(j, i) <= g.outDegree(j);
  }

  /** Every node endorses node 0 and nothing else. */
  function Endorsing(n: nat): Graph {
    Graph(n, (j, i) => if i == 0 then 1.0 else 0.0, j => 1.0)
  }

  lemma {:induction false} EndorsingOut(n: nat, j: nat, m: nat)
    ensures OutOf(Endorsing(n).weight, j, m) == if m == 0 then 0.0 else 1.0
  {
    if m > 0 { EndorsingOut(n, j, m - 1); }
  }

  lemma EndorsementLifts(n: nat, d: real, x: real) returns (g: Graph, s: seq<real>)
    requires n >= 1
    ensures Injected(g, n, s, x, 0) && Lift(g, d, n, s, 0) == d * x
  {
    g, s := Endorsing(n + 1), Zeros(n + 1)[n := x];
    forall j: nat | j < g.n ensures OutOf(g.weight, j, g.n) == g.outDegree(j) { EndorsingOut(n + 1, j, g.n); }
    LiftIsShare(g, d, n, s, x, 0);
    assert Share(g, n, 0) == 1.0;
  }

  /** No step of any graph lets a node injected with score `x` add more than d * part. */
  ghost predicate LiftsAtMost(n: nat, d: real, x: real, part: real) {
    forall g, s, i :: Injected(g, n, s, x, i) ==> Lift(g, d, n, s, i) <= d * part
  }

  lemma LiftsAtMostIff(n: nat, d: real, x: real, part: real)
    requires n >= 1 && d > 0.0 && part > 0.0
    ensures LiftsAtMost(n, d, x, part) <==> x <= part
  {
    if x <= part {
      forall g, s, i | Injected(g, n, s, x, i) ensures Lift(g, d, n, s, i) <= d * part {
        LiftIsShare(g, d, n, s, x, i);
        ShareBounded(g, n, i);
        LiftAtMost(d, x, Share(g, n, i), part);
      }
    } else {
      var g, s := EndorsementLifts(n, d, x);
      LargerScaled(d, part, x);
    }
  }

  /** The bound that the injection argument starts from, d / (n + 1), holds for a step of
      every graph if and only if the injected node's score is at most 1 / (n + 1). */
  lemma LiftBoundIff(n: nat, d: real, x: real)
    requires n >= 1 && d > 0.0
    ensures LiftsAtMost(n, d, x, 1.0 / (n as real + 1.0)) <==> x <= 1.0 / (n as real + 1.0)
  {
    LiftsAtMostIff(n, d, x, 1.0 / (n as real + 1.0));
  }

  // ---- decay ----

  function Decay(s: real, days: real): real {
    var amount := DECAY_RATE * days;
    if s > NEUTRAL_SCORE then if s - amount >= NEUTRAL_SCORE then s - amount else NEUTRAL_SCORE
    else if s < NEUTRAL_SCORE then if s + amount <= NEUTRAL_SCORE then s + amount else NEUTRAL_SCORE
    else NEUTRAL_SCORE
  }

  /** Decaying day by day or all at once is the same; it never moves away from
      neutral, never crosses it, and is there exactly when the distance is used up. */
  lemma DecayLaws(s: real, days1: real, days2: real)
    requires days1 >= 0.0 && days2 >= 0.0
    ensures Decay(Decay(s, days1), days2) == Decay(s, days1 + days2)
    ensures Abs(Decay(s, days1) - NEUTRAL_SCORE) <= Abs(s - NEUTRAL_SCORE)
    ensures (Decay(s, days1) - NEUTRAL_SCORE) * (s - NEUTRAL_SCORE) >= 0.0
    ensures Decay(s, days1) == NEUTRAL_SCORE <==> Abs(s - NEUTRAL_SCORE) <= DECAY_RATE * days1
  {
  }
}
