/** Exactly when the gRPC transport delivers in the order of the sends. */
module TransportOrder {
  import opened Subsequences
  import opened Transports

  function Convertible(xs: seq<Event>): seq<Event> {
    if xs == [] then []
    else
      var front, e := Convertible(xs[..|xs| - 1]), xs[|xs| - 1];
      if e.convertible then front + [e] else front
  }

  /** What is delivered, then what waits, is what was sent and can be converted, in order. */
  predicate InOrder(g: Grpc) {
    g.delivered + Convertible(g.buffer) == Convertible(g.accepted)
  }

  /** In a flush of the batch some call succeeds after one that failed. */
  predicate Overtakes(batch: seq<Event>, ok: nat -> bool) {
    exists i, j :: 0 <= i < j < |batch| && Fails(batch, ok, i) && Succeeds(batch, ok, j)
  }

  predicate Fails(batch: seq<Event>, ok: nat -> bool, i: nat)
    requires i < |batch|
  {
    batch[i].convertible && !ok(i)
  }

  predicate Succeeds(batch: seq<Event>, ok: nat -> bool, i: nat)
    requires i < |batch|
  {
    batch[i].convertible && ok(i)
  }

  // ---- one flush ----

  lemma {:induction false} ConvertibleIn(xs: seq<Event>)
    ensures forall x :: x in Convertible(xs) <==> x in xs && x.convertible
  {
    if xs != [] {
      ConvertibleIn(xs[..|xs| - 1]);
      assert xs == xs[..|xs| - 1] + [xs[|xs| - 1]];
    }
  }

  lemma {:induction false} ConvertibleDistinct(xs: seq<Event>)
    requires Distinct(xs)
    ensures Distinct(Convertible(xs))
  {
    if xs != [] {
      var front, last := xs[..|xs| - 1], xs[|xs| - 1];
      ConvertibleDistinct(front);
      ConvertibleIn(front);
      assert last !in front;
    }
  }

  lemma {:induction false} ConvertibleAll(xs: seq<Event>)
    requires forall x :: x in xs ==> x.convertible
    ensures Convertible(xs) == xs
  {
    if xs != [] {
      ConvertibleAll(xs[..|xs| - 1]);
      assert xs == xs[..|xs| - 1] + [xs[|xs| - 1]];
    }
  }

  lemma {:induction false} SplitIn(batch: seq<Event>, ok: nat -> bool, n: nat)
    requires n <= |batch|
    ensures forall x :: x in Delivered(batch, ok, n) <==>
              exists i :: 0 <= i < n && Succeeds(batch, ok, i) && batch[i] == x
    ensures forall x :: x in Rebuffered(batch, ok, n) <==>
              exists i :: 0 <= i < n && Fails(batch, ok, i) && batch[i] == x
  {
    if n > 0 { SplitIn(batch, ok, n - 1); }
  }

  /** Nothing has failed among the first n. */
  lemma {:induction false} NoneFailed(batch: seq<Event>, ok: nat -> bool, n: nat)
    requires n <= |batch| && forall i :: 0 <= i < n ==> !Fails(batch, ok, i)
    ensures Rebuffered(batch, ok, n) == []
  {
    if n > 0 {
      NoneFailed(batch, ok, n - 1);
      assert !Fails(batch, ok, n - 1);
    }
  }

  lemma {:induction false} PartsJoin(batch: seq<Event>, ok: nat -> bool, n: nat)
    requires n <= |batch| && !Overtakes(batch, ok)
    ensures Delivered(batch, ok, n) + Rebuffered(batch, ok, n) == Convertible(batch[..n])
  {
    if n > 0 {
      PartsJoin(batch, ok, n - 1);
      var e, front := batch[n - 1], batch[..n - 1];
      assert batch[..n][..n - 1] == front && batch[..n][n - 1] == e;
      if Succeeds(batch, ok, n - 1) {
        NoneFailed(batch, ok, n - 1);
        assert Delivered(batch, ok, n - 1) == Convertible(front);
      }
    }
  }

  lemma {:induction false} ConvertibleKeepsBefore(xs: seq<Event>, i: nat, j: nat)
    requires i < j < |xs| && xs[i].convertible && xs[j].convertible
    ensures Before(Convertible(xs), xs[i], xs[j])
  {
    var front, c := xs[..|xs| - 1], Convertible(xs);
    if j == |xs| - 1 {
      ConvertibleIn(front);
      assert front[i] in front && front[i] == xs[i];
      var k :| 0 <= k < |Convertible(front)| && Convertible(front)[k] == xs[i];
      assert c[k] == xs[i] && c[|c| - 1] == xs[j];
    } else {
      ConvertibleKeepsBefore(front, i, j);
      var before := Convertible(front);
      var k, m :| 0 <= k < m < |before| && before[k] == front[i] && before[m] == front[j];
      assert c[k] == xs[i] && c[m] == xs[j];
    }
  }

  lemma OvertakingShows(batch: seq<Event>, ok: nat -> bool)
    requires Distinct(batch) && Overtakes(batch, ok)
    ensures Delivered(batch, ok, |batch|) + Rebuffered(batch, ok, |batch|) != Convertible(batch)
  {
    var i, j :| 0 <= i < j < |batch| && Fails(batch, ok, i) && Succeeds(batch, ok, j);
    var d, r := Delivered(batch, ok, |batch|), Rebuffered(batch, ok, |batch|);
    ConvertibleDistinct(batch);
    ConvertibleKeepsBefore(batch, i, j);
    SplitIn(batch, ok, |batch|);
    BeforeAcross(d, r, batch[j], batch[i]);
  }

  /** A flush of distinct events keeps the order if and only if no call succeeds after
      one that failed. */
  lemma FlushInOrderIff(g: Grpc, ok: nat -> bool)
    requires InOrder(g) && Distinct(g.buffer)
    ensures InOrder(GrpcFlush(g, ok)) <==> !Overtakes(g.buffer, ok)
  {
    var b := g.buffer;
    var d, r := Delivered(b, ok, |b|), Rebuffered(b, ok, |b|);
    assert b[..|b|] == b;
    SplitIn(b, ok, |b|);
    ConvertibleAll(r);
    if Overtakes(b, ok) { OvertakingShows(b, ok); } else { PartsJoin(b, ok, |b|); }
    SamePrefix(g.delivered, d + r, Convertible(b));
    assert (g.delivered + d) + r == g.delivered + (d + r);
  }

  /** Repeated events do not matter to the one half. */
  lemma FlushKeepsOrder(g: Grpc, ok: nat -> bool)
    requires InOrder(g) && !Overtakes(g.buffer, ok)
    ensures InOrder(GrpcFlush(g, ok))
  {
    var b := g.buffer;
    var d, r := Delivered(b, ok, |b|), Rebuffered(b, ok, |b|);
    assert b[..|b|] == b;
    SplitIn(b, ok, |b|);
    ConvertibleAll(r);
    PartsJoin(b, ok, |b|);
    assert (g.delivered + d) + r == g.delivered + (d + r);
  }

  // ---- runs ----

  /** Whether this step flushes a batch in which a call succeeds after one that failed. */
  predicate StepOvertakes(g: Grpc, batchSize: int, op: GrpcOp) {
    match op
    case GSend(e, ok) => !g.closed && |g.buffer| + 1 >= batchSize && Overtakes(g.buffer + [e], ok)
    case GFlush(ok) => Overtakes(g.buffer, ok)
    case GClose(ok) => Overtakes(g.buffer, ok)
  }

  predicate NeverOvertakes(batchSize: int, ops: seq<GrpcOp>) {
    ops == [] ||
    (NeverOvertakes(batchSize, ops[..|ops| - 1])
     && !StepOvertakes(GrpcRun(GRPC_NEW, batchSize, ops[..|ops| - 1]), batchSize, ops[|ops| - 1]))
  }

  lemma {:induction false} ConvertibleSubsequence(xs: seq<Event>, ys: seq<Event>)
    requires Subsequence(xs, ys)
    ensures Subsequence(Convertible(xs), Convertible(ys))
    decreases |ys|
  {
    if xs != [] {
      var front := ys[..|ys| - 1];
      if Subsequence(xs, front) {
        ConvertibleSubsequence(xs, front);
        SubsequenceSnoc(Convertible(xs), Convertible(front), ys[|ys| - 1]);
      } else {
        ConvertibleSubsequence(xs[..|xs| - 1], front);
        SubsequenceSnoc(Convertible(xs[..|xs| - 1]), Convertible(front), ys[|ys| - 1]);
      }
    }
  }

  /** Order once lost is never regained. */
  lemma FlushNeverRestores(g: Grpc, ok: nat -> bool)
    requires Subsequence(g.buffer, g.accepted) && Distinct(g.accepted) && InOrder(GrpcFlush(g, ok))
    ensures InOrder(g)
  {
    var b, sent := g.buffer, Convertible(g.accepted);
    var d, r := Delivered(b, ok, |b|), Rebuffered(b, ok, |b|);
    SplitIn(b, ok, |b|);
    ConvertibleAll(r);
    assert sent == g.delivered + (d + r);
    ConvertibleDistinct(g.accepted);
    ConvertibleSubsequence(b, g.accepted);
    SuffixIsSubsequence(g.delivered, d + r);
    ConvertibleIn(b);
    forall x ensures x in Convertible(b) <==> x in d + r {
      if x in Convertible(b) {
        var i :| 0 <= i < |b| && b[i] == x;
        assert Succeeds(b, ok, i) || Fails(b, ok, i);
      }
    }
    SubsequenceUnique(Convertible(b), d + r, sent);
  }

  function Sent(g: Grpc, e: Event): Grpc {
    g.(buffer := g.buffer + [e], accepted := g.accepted + [e])
  }

  lemma SendKeepsOrder(g: Grpc, e: Event)
    ensures InOrder(Sent(g, e)) <==> InOrder(g)
  {
    assert (g.buffer + [e])[..|g.buffer|] == g.buffer && (g.accepted + [e])[..|g.accepted|] == g.accepted;
    if e.convertible {
      assert g.delivered + (Convertible(g.buffer) + [e]) == (g.delivered + Convertible(g.buffer)) + [e];
      assert (Convertible(g.accepted) + [e])[..|Convertible(g.accepted)|] == Convertible(g.accepted);
      assert ((g.delivered + Convertible(g.buffer)) + [e])[..|g.delivered + Convertible(g.buffer)|]
             == g.delivered + Convertible(g.buffer);
    }
  }

  lemma FlushOrder(g: Grpc, ok: nat -> bool)
    requires Subsequence(g.buffer, g.accepted) && Distinct(g.accepted)
    ensures InOrder(GrpcFlush(g, ok)) <==> InOrder(g) && !Overtakes(g.buffer, ok)
  {
    SubsequenceDistinct(g.buffer, g.accepted);
    if InOrder(g) { FlushInOrderIff(g, ok); }
    if InOrder(GrpcFlush(g, ok)) { FlushNeverRestores(g, ok); }
  }

  lemma StepOrder(g: Grpc, batchSize: int, op: GrpcOp)
    requires Subsequence(g.buffer, g.accepted) && Distinct(GrpcStep(g, batchSize, op).accepted)
    ensures InOrder(GrpcStep(g, batchSize, op)) <==> InOrder(g) && !StepOvertakes(g, batchSize, op)
  {
    match op
    case GSend(e, ok) =>
      if !g.closed {
        SendKeepsOrder(g, e);
        SubsequenceSnoc(g.buffer, g.accepted, e);
        if |g.buffer| + 1 >= batchSize { FlushOrder(Sent(g, e), ok); }
      }
    case GFlush(ok) => FlushOrder(g, ok);
    case GClose(ok) =>
      FlushOrder(g.(closed := true), ok);
      assert InOrder(g.(closed := true)) == InOrder(g);
  }

  /** At the end of any run of distinct sends, what is delivered followed by what waits is
      what was sent, in order, if and only if no flush of the run had a call succeed
      after one that failed. */
  lemma {:induction false} GrpcInOrderIff(batchSize: int, ops: seq<GrpcOp>)
    requires Distinct(GrpcRun(GRPC_NEW, batchSize, ops).accepted)
    ensures InOrder(GrpcRun(GRPC_NEW, batchSize, ops)) <==> NeverOvertakes(batchSize, ops)
    decreases |ops|
  {
    if ops != [] {
      var g, op := GrpcRun(GRPC_NEW, batchSize, ops[..|ops| - 1]), ops[|ops| - 1];
      assert g.accepted <= GrpcStep(g, batchSize, op).accepted;
      GrpcInOrderIff(batchSize, ops[..|ops| - 1]);
      GrpcConserves(batchSize, ops[..|ops| - 1]);
      StepOrder(g, batchSize, op);
    }
  }

  /** The one half for any sends, repeated ones included. */
  lemma {:induction false} GrpcKeepsOrder(batchSize: int, ops: seq<GrpcOp>)
    requires NeverOvertakes(batchSize, ops)
    ensures InOrder(GrpcRun(GRPC_NEW, batchSize, ops))
    decreases |ops|
  {
    if ops != [] {
      var g, op := GrpcRun(GRPC_NEW, batchSize, ops[..|ops| - 1]), ops[|ops| - 1];
      GrpcKeepsOrder(batchSize, ops[..|ops| - 1]);
      match op
      case GSend(e, ok) =>
        if !g.closed {
          SendKeepsOrder(g, e);
          if |g.buffer| + 1 >= batchSize { FlushKeepsOrder(Sent(g, e), ok); }
        }
      case GFlush(ok) => FlushKeepsOrder(g, ok);
      case GClose(ok) => FlushKeepsOrder(g.(closed := true), ok);
    }
  }
}
