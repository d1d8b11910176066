/** What the transports get done: what is posted, what waits, and what is refused. */
module TransportProgress {
  import opened Subsequences
  import opened Transports

  lemma SerializableSnoc(xs: seq<Event>, e: Event)
    ensures Serializable(xs + [e]) == if e.serializable then Serializable(xs) + [e] else Serializable(xs)
  {
    assert (xs + [e])[..|xs|] == xs;
    assert Serializable(xs) + [] == Serializable(xs);
  }

  /** Exactly the events that serialize are posted, each as often as it was sent, in order. */
  lemma {:induction false} SerializableIs(xs: seq<Event>, x: Event)
    ensures Subsequence(Serializable(xs), xs)
    ensures multiset(Serializable(xs))[x] == if x.serializable then multiset(xs)[x] else 0
  {
    if xs != [] {
      var front, last := xs[..|xs| - 1], xs[|xs| - 1];
      SerializableIs(front, x);
      assert xs == front + [last];
      SerializableSnoc(front, last);
      SubsequenceSnoc(Serializable(front), front, last);
    }
  }

  // ---- HTTP ----

  /** The sends that come before the transport is closed. */
  function SendsWhileOpen(ops: seq<HttpOp>): seq<Event> {
    if ops == [] then []
    else
      var before, op := SendsWhileOpen(ops[..|ops| - 1]), ops[|ops| - 1];
      if op.Send? && !Closes(ops[..|ops| - 1]) then before + [op.event] else before
  }

  predicate Closes(ops: seq<HttpOp>) {
    ops != [] && (ops[|ops| - 1].Close? || Closes(ops[..|ops| - 1]))
  }

  /** Accepted are the sends before the first close, whatever becomes of the flushes. */
  lemma {:induction false} HttpAccepts(batchSize: int, endpointOk: bool, ops: seq<HttpOp>)
    ensures var h := HttpRun(HTTP_NEW, batchSize, endpointOk, ops);
            h.accepted == SendsWhileOpen(ops) && (h.closed <==> Closes(ops))
    decreases |ops|
  {
    if ops != [] {
      HttpAccepts(batchSize, endpointOk, ops[..|ops| - 1]);
    }
  }

  /** From the first close on a send is refused and changes nothing. */
  lemma HttpRefusesClosed(batchSize: int, endpointOk: bool, ops: seq<HttpOp>, e: Event, responds: bool)
    requires exists i :: 0 <= i < |ops| && ops[i].Close?
    ensures HttpRun(HTTP_NEW, batchSize, endpointOk, ops + [Send(e, responds)])
            == HttpRun(HTTP_NEW, batchSize, endpointOk, ops)
  {
    var i :| 0 <= i < |ops| && ops[i].Close?;
    ClosesAt(ops, i);
    HttpAccepts(batchSize, endpointOk, ops);
    HttpRunSnoc(HTTP_NEW, batchSize, endpointOk, ops, Send(e, responds));
  }

  lemma {:induction false} ClosesAt(ops: seq<HttpOp>, i: nat)
    requires i < |ops| && ops[i].Close?
    ensures Closes(ops)
    decreases |ops|
  {
    if i < |ops| - 1 { ClosesAt(ops[..|ops| - 1], i); }
  }

  /** The operation leads to a flush: it asks for one, or is a send that fills the batch. */
  predicate Flushes(ops: seq<HttpOp>, op: HttpOp, waiting: nat, batchSize: int) {
    if op.Send? then !Closes(ops) && waiting + 1 >= batchSize else true
  }

  predicate Added(ops: seq<HttpOp>, op: HttpOp) {
    op.Send? && !Closes(ops)
  }

  /** One more operation over a well-formed endpoint. A flush that is answered leaves nothing
      waiting, and all accepted sends that serialize are posted. One that is not, and an
      operation without a flush, post nothing and lose nothing. */
  lemma HttpDrains(batchSize: int, ops: seq<HttpOp>, op: HttpOp)
    ensures var h := HttpRun(HTTP_NEW, batchSize, true, ops);
            var t := HttpRun(HTTP_NEW, batchSize, true, ops + [op]);
            if Flushes(ops, op, |h.buffer|, batchSize) && op.responds then
              t.buffer == [] && t.delivered == Serializable(SendsWhileOpen(ops + [op]))
            else
              t.delivered == h.delivered && t.buffer == h.buffer + if Added(ops, op) then [op.event] else []
  {
    var h := HttpRun(HTTP_NEW, batchSize, true, ops);
    HttpRunSnoc(HTTP_NEW, batchSize, true, ops, op);
    HttpAccepts(batchSize, true, ops);
    HttpAccepts(batchSize, true, ops + [op]);
    HttpExactFifo(batchSize, ops + [op]);
    HttpNext(h, batchSize, op);
  }

  lemma HttpNext(h: Http, batchSize: int, op: HttpOp)
    ensures var t := HttpStep(h, batchSize, true, op);
            var added := op.Send? && !h.closed;
            if (if op.Send? then added && |h.buffer| + 1 >= batchSize else true) && op.responds then
              t.buffer == [] && (Fifo(t) ==> t.delivered == Serializable(t.accepted))
            else t.delivered == h.delivered && t.buffer == h.buffer + if added then [op.event] else []
  {
    var t := HttpStep(h, batchSize, true, op);
    assert h.buffer + [] == h.buffer;
    assert t.buffer == [] ==> t.delivered + Serializable(t.buffer) == t.delivered;
  }

  /** Over a malformed endpoint nothing is ever posted and each flush forgets its batch. */
  lemma {:induction false} MalformedPostsNothing(batchSize: int, ops: seq<HttpOp>)
    ensures var h := HttpRun(HTTP_NEW, batchSize, false, ops);
            && h.delivered == []
            && (ops != [] ==>
                  var before := HttpRun(HTTP_NEW, batchSize, false, ops[..|ops| - 1]);
                  Flushes(ops[..|ops| - 1], ops[|ops| - 1], |before.buffer|, batchSize) ==> h.buffer == [])
    decreases |ops|
  {
    if ops != [] {
      MalformedPostsNothing(batchSize, ops[..|ops| - 1]);
      HttpAccepts(batchSize, false, ops[..|ops| - 1]);
    }
  }

  /** While every flush is answered, less than a batch waits. */
  lemma {:induction false} LessThanABatch(batchSize: int, ops: seq<HttpOp>)
    requires batchSize >= 1 && forall i :: 0 <= i < |ops| ==> ops[i].responds
    ensures |HttpRun(HTTP_NEW, batchSize, true, ops).buffer| < batchSize
    decreases |ops|
  {
    if ops != [] {
      var front, op := ops[..|ops| - 1], ops[|ops| - 1];
      LessThanABatch(batchSize, front);
      HttpDrains(batchSize, front, op);
      assert ops == front + [op];
    }
  }

  // ---- gRPC ----

  predicate GrpcCloses(ops: seq<GrpcOp>) {
    ops != [] && (ops[|ops| - 1].GClose? || GrpcCloses(ops[..|ops| - 1]))
  }

  function GrpcSendsWhileOpen(ops: seq<GrpcOp>): seq<Event> {
    if ops == [] then []
    else
      var before, op := GrpcSendsWhileOpen(ops[..|ops| - 1]), ops[|ops| - 1];
      if op.GSend? && !GrpcCloses(ops[..|ops| - 1]) then before + [op.event] else before
  }

  lemma {:induction false} GrpcAccepts(batchSize: int, ops: seq<GrpcOp>)
    ensures var g := GrpcRun(GRPC_NEW, batchSize, ops);
            g.accepted == GrpcSendsWhileOpen(ops) && (g.closed <==> GrpcCloses(ops))
    decreases |ops|
  {
    if ops != [] { GrpcAccepts(batchSize, ops[..|ops| - 1]); }
  }

  lemma GrpcRefusesClosed(batchSize: int, ops: seq<GrpcOp>, e: Event, ok: nat -> bool)
    requires exists i :: 0 <= i < |ops| && ops[i].GClose?
    ensures GrpcRun(GRPC_NEW, batchSize, ops + [GSend(e, ok)]) == GrpcRun(GRPC_NEW, batchSize, ops)
  {
    var i :| 0 <= i < |ops| && ops[i].GClose?;
    GrpcClosesAt(ops, i);
    GrpcAccepts(batchSize, ops);
    GrpcRunSnoc(GRPC_NEW, batchSize, ops, GSend(e, ok));
  }

  lemma {:induction false} GrpcClosesAt(ops: seq<GrpcOp>, i: nat)
    requires i < |ops| && ops[i].GClose?
    ensures GrpcCloses(ops)
    decreases |ops|
  {
    if i < |ops| - 1 { GrpcClosesAt(ops[..|ops| - 1], i); }
  }

  datatype Fate = Posted | Waiting | Dropped

  /** The call for a convertible event posts it, or on failure it is put back to wait. */
  function FateOf(e: Event, ok: bool): Fate {
    if !e.convertible then Dropped else if ok then Posted else Waiting
  }

  /** `xs` are the events of the batch with this fate, in order. */
  ghost predicate Picked(xs: seq<Event>, b: seq<Event>, ok: nat -> bool, n: nat, fate: Fate)
    requires n <= |b|
  {
    if n == 0 then xs == []
    else if FateOf(b[n - 1], ok(n - 1)) == fate
    then xs != [] && xs[|xs| - 1] == b[n - 1] && Picked(xs[..|xs| - 1], b, ok, n - 1, fate)
    else Picked(xs, b, ok, n - 1, fate)
  }

  lemma {:induction false} FlushPicks(b: seq<Event>, ok: nat -> bool, n: nat)
    requires n <= |b|
    ensures Picked(Delivered(b, ok, n), b, ok, n, Posted)
    ensures Picked(Rebuffered(b, ok, n), b, ok, n, Waiting)
    ensures Picked(Unconvertible(b, n), b, ok, n, Dropped)
  {
    if n > 0 { FlushPicks(b, ok, n - 1); }
  }

  /** One more operation: what waits is flushed, each event to its fate; or nothing
      happens but that an accepted send waits. */
  lemma GrpcDrains(batchSize: int, ops: seq<GrpcOp>, op: GrpcOp)
    returns (sent: seq<Event>, back: seq<Event>, dropped: seq<Event>)
    ensures var g := GrpcRun(GRPC_NEW, batchSize, ops);
            var t := GrpcRun(GRPC_NEW, batchSize, ops + [op]);
            var added := op.GSend? && !GrpcCloses(ops);
            var b := g.buffer + if added then [op.event] else [];
            if op.GSend? && !(added && |b| >= batchSize) then
              t.delivered == g.delivered && t.buffer == b && t.unconvertible == g.unconvertible
            else
              && t.delivered == g.delivered + sent && t.buffer == back && t.unconvertible == g.unconvertible + dropped
              && Picked(sent, b, op.ok, |b|, Posted) && Picked(back, b, op.ok, |b|, Waiting)
              && Picked(dropped, b, op.ok, |b|, Dropped)
  {
    var g := GrpcRun(GRPC_NEW, batchSize, ops);
    GrpcRunSnoc(GRPC_NEW, batchSize, ops, op);
    GrpcAccepts(batchSize, ops);
    assert g.buffer + [] == g.buffer;
    var b := g.buffer + if op.GSend? && !GrpcCloses(ops) then [op.event] else [];
    sent, back, dropped := Delivered(b, op.ok, |b|), Rebuffered(b, op.ok, |b|), Unconvertible(b, |b|);
    FlushPicks(b, op.ok, |b|);
  }
}
