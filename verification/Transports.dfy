/** The SDK's three transports: what leaves, what waits, and in which order. */
module Transports {
  import opened Subsequences

  /** `serializable`: ToJSON succeeds; `convertible`: eventToProto knows its type. */
  datatype Event = Event(id: nat, serializable: bool, convertible: bool)

  function Serializable(xs: seq<Event>): seq<Event> {
    if xs == [] then []
    else Serializable(xs[..|xs| - 1]) + if xs[|xs| - 1].serializable then [xs[|xs| - 1]] else []
  }

  lemma {:induction false} SerializableAppend(xs: seq<Event>, ys: seq<Event>)
    ensures Serializable(xs + ys) == Serializable(xs) + Serializable(ys)
    decreases |ys|
  {
    if ys == [] {
      assert xs + ys == xs;
    } else {
      assert (xs + ys)[..|xs + ys| - 1] == xs + ys[..|ys| - 1];
      SerializableAppend(xs, ys[..|ys| - 1]);
    }
  }

  // ---- HTTP: exact FIFO ----

  /** A transport, the sends it accepted, and the bodies posted so far, concatenated. */
  datatype Http = Http(buffer: seq<Event>, closed: bool, accepted: seq<Event>, delivered: seq<Event>)

  /** `endpointOk`: http.NewRequest accepts the endpoint. `responds`: the POST gets any response. */
  function HttpFlush(h: Http, endpointOk: bool, responds: bool): Http {
    if h.buffer == [] then h
    else if !endpointOk then h.(buffer := [])
    else if responds then h.(buffer := [], delivered := h.delivered + Serializable(h.buffer))
    else h
  }

  datatype HttpOp = Send(event: Event, responds: bool) | Flush(responds: bool) | Close(responds: bool)

  function HttpStep(h: Http, batchSize: int, endpointOk: bool, op: HttpOp): Http {
    match op
    case Send(e, responds) =>
      if h.closed then h
      else
        var h1 := h.(buffer := h.buffer + [e], accepted := h.accepted + [e]);
        if |h1.buffer| >= batchSize then HttpFlush(h1, endpointOk, responds) else h1
    case Flush(responds) => HttpFlush(h, endpointOk, responds)
    case Close(responds) => HttpFlush(h.(closed := true), endpointOk, responds)
  }

  function HttpRun(h: Http, batchSize: int, endpointOk: bool, ops: seq<HttpOp>): Http {
    if ops == [] then h
    else HttpStep(HttpRun(h, batchSize, endpointOk, ops[..|ops| - 1]), batchSize, endpointOk, ops[|ops| - 1])
  }

  const HTTP_NEW := Http([], false, [], [])

  predicate Fifo(h: Http) {
    h.delivered + Serializable(h.buffer) == Serializable(h.accepted)
  }

  predicate WaitingIsSuffix(h: Http) {
    |h.buffer| <= |h.accepted| && h.accepted[|h.accepted| - |h.buffer|..] == h.buffer
  }

  lemma HttpFlushFifo(h: Http, responds: bool)
    requires Fifo(h) && WaitingIsSuffix(h)
    ensures Fifo(HttpFlush(h, true, responds)) && WaitingIsSuffix(HttpFlush(h, true, responds))
  {
  }

  lemma HttpAppendFifo(h: Http, e: Event)
    requires Fifo(h) && WaitingIsSuffix(h)
    ensures var h1 := h.(buffer := h.buffer + [e], accepted := h.accepted + [e]); Fifo(h1) && WaitingIsSuffix(h1)
  {
    SerializableAppend(h.buffer, [e]);
    SerializableAppend(h.accepted, [e]);
    var h1 := h.(buffer := h.buffer + [e], accepted := h.accepted + [e]);
    assert h1.delivered + Serializable(h1.buffer) == (h.delivered + Serializable(h.buffer)) + Serializable([e]);
    assert h1.accepted[|h1.accepted| - |h1.buffer|..] == h1.buffer;
  }

  lemma HttpStepFifo(h: Http, batchSize: int, op: HttpOp)
    requires Fifo(h) && WaitingIsSuffix(h)
    ensures var t := HttpStep(h, batchSize, true, op); Fifo(t) && WaitingIsSuffix(t)
  {
    match op
    case Send(e, responds) =>
      HttpAppendFifo(h, e);
      HttpFlushFifo(h.(buffer := h.buffer + [e], accepted := h.accepted + [e]), responds);
    case Flush(responds) => HttpFlushFifo(h, responds);
    case Close(responds) => HttpFlushFifo(h.(closed := true), responds);
  }

  /** In every state of every run over a well-formed endpoint, the bodies posted
      so far followed by the buffer are exactly the accepted sends in order, less
      the events that do not serialize. */
  lemma {:induction false} HttpExactFifo(batchSize: int, ops: seq<HttpOp>)
    ensures var h := HttpRun(HTTP_NEW, batchSize, true, ops); Fifo(h) && WaitingIsSuffix(h)
    decreases |ops|
  {
    if ops != [] {
      HttpExactFifo(batchSize, ops[..|ops| - 1]);
      HttpStepFifo(HttpRun(HTTP_NEW, batchSize, true, ops[..|ops| - 1]), batchSize, ops[|ops| - 1]);
    }
  }

  lemma HttpRunSnoc(h: Http, batchSize: int, endpointOk: bool, ops: seq<HttpOp>, op: HttpOp)
    ensures HttpRun(h, batchSize, endpointOk, ops + [op])
            == HttpStep(HttpRun(h, batchSize, endpointOk, ops), batchSize, endpointOk, op)
  {
  }

  /** FIFO holds in all runs exactly for endpoints that make a request: with a
      malformed one a flush forgets its batch. */
  lemma HttpFifoIffEndpointOk(batchSize: int, endpointOk: bool)
    ensures (forall ops: seq<HttpOp> :: Fifo(HttpRun(HTTP_NEW, batchSize, endpointOk, ops))) <==> endpointOk
  {
    if endpointOk {
      forall ops: seq<HttpOp> ensures Fifo(HttpRun(HTTP_NEW, batchSize, endpointOk, ops)) {
        HttpExactFifo(batchSize, ops);
      }
    } else {
      var e := Event(0, true, true);
      HttpRunSnoc(HTTP_NEW, batchSize, endpointOk, [], Send(e, true));
      HttpRunSnoc(HTTP_NEW, batchSize, endpointOk, [Send(e, true)], Flush(true));
      assert [] + [Send(e, true)] == [Send(e, true)];
      var h := HttpRun(HTTP_NEW, batchSize, endpointOk, [Send(e, true)] + [Flush(true)]);
      assert h.accepted == [e] && h.buffer == [] && h.delivered == [];
      SerializableAppend([], [e]);
      assert !Fifo(h);
    }
  }

  class HTTPTransport {
    const batchSize: int
    const endpointOk: bool
    var buffer: seq<Event>
    var closed: bool
    ghost var accepted: seq<Event>
    ghost var delivered: seq<Event>

    constructor (batchSize: int, endpointOk: bool)
      ensures this.batchSize == batchSize && this.endpointOk == endpointOk && Contents() == HTTP_NEW
    {
      this.batchSize, this.endpointOk := batchSize, endpointOk;
      buffer, closed := [], false;
      accepted, delivered := [], [];
    }

    ghost function Contents(): Http
      reads this
    {
      Http(buffer, closed, accepted, delivered)
    }

    /** A closed transport and a failed flush are errors; after the latter the event is
        still waiting, or was dropped with its batch when the endpoint is malformed. */
    method SendEvent(e: Event, responds: bool) returns (ok: bool)
      modifies this
      ensures Contents() == HttpStep(old(Contents()), batchSize, endpointOk, Send(e, responds))
      ensures ok <==> !old(closed) && (|old(buffer)| + 1 < batchSize || (endpointOk && responds))
    {
      if closed { return false; }
      buffer := buffer + [e];
      accepted := accepted + [e];
      if |buffer| >= batchSize {
        ok := FlushLocked(responds);
      } else {
        ok := true;
      }
    }

    method FlushLocked(responds: bool) returns (ok: bool)
      modifies this
      ensures Contents() == HttpFlush(old(Contents()), endpointOk, responds)
      ensures ok <==> old(buffer) == [] || (endpointOk && responds)
    {
      if |buffer| == 0 { return true; }
      var batch := buffer;
      buffer := [];
      var body := [];
      for i := 0 to |batch|
        invariant body == Serializable(batch[..i])
        invariant Contents() == old(Contents()).(buffer := [])
      {
        assert batch[..i + 1][..i] == batch[..i];
        if batch[i].serializable {
          body := body + [batch[i]];
        }
      }
      assert batch[..|batch|] == batch;
      if !endpointOk { return false; }
      if !responds {
        buffer := batch + buffer;
        return false;
      }
      delivered := delivered + body;
      return true;
    }

    method CloseTransport(responds: bool)
      requires !closed  // closing twice closes a closed channel
      modifies this
      ensures Contents() == HttpStep(old(Contents()), batchSize, endpointOk, Close(responds))
    {
      closed := true;
      var _ := FlushLocked(responds);
    }
  }

  // ---- gRPC: nothing lost, order kept in the buffer ----

  datatype Grpc = Grpc(buffer: seq<Event>, closed: bool, accepted: seq<Event>,
                       delivered: seq<Event>, unconvertible: seq<Event>)

  /** One flush: each event of the batch is converted and sent on its own; `ok(i)`
      says whether the i-th call succeeds. */
  function Delivered(batch: seq<Event>, ok: nat -> bool, n: nat): seq<Event>
    requires n <= |batch|
  {
    if n == 0 then []
    else if batch[n - 1].convertible && ok(n - 1) then Delivered(batch, ok, n - 1) + [batch[n - 1]]
    else Delivered(batch, ok, n - 1)
  }

  function Rebuffered(batch: seq<Event>, ok: nat -> bool, n: nat): seq<Event>
    requires n <= |batch|
  {
    if n == 0 then []
    else if batch[n - 1].convertible && !ok(n - 1) then Rebuffered(batch, ok, n - 1) + [batch[n - 1]]
    else Rebuffered(batch, ok, n - 1)
  }

  function Unconvertible(batch: seq<Event>, n: nat): seq<Event>
    requires n <= |batch|
  {
    if n == 0 then []
    else if batch[n - 1].convertible then Unconvertible(batch, n - 1)
    else Unconvertible(batch, n - 1) + [batch[n - 1]]
  }

  function GrpcFlush(g: Grpc, ok: nat -> bool): Grpc {
    var b := g.buffer;
    g.(buffer := Rebuffered(b, ok, |b|), delivered := g.delivered + Delivered(b, ok, |b|),
       unconvertible := g.unconvertible + Unconvertible(b, |b|))
  }

  datatype GrpcOp = GSend(event: Event, ok: nat -> bool) | GFlush(ok: nat -> bool) | GClose(ok: nat -> bool)

  function GrpcStep(g: Grpc, batchSize: int, op: GrpcOp): Grpc {
    match op
    case GSend(e, ok) =>
      if g.closed then g
      else
        var g1 := g.(buffer := g.buffer + [e], accepted := g.accepted + [e]);
        if |g1.buffer| >= batchSize then GrpcFlush(g1, ok) else g1
    case GFlush(ok) => GrpcFlush(g, ok)
    case GClose(ok) => GrpcFlush(g.(closed := true), ok)
  }

  function GrpcRun(g: Grpc, batchSize: int, ops: seq<GrpcOp>): Grpc {
    if ops == [] then g else GrpcStep(GrpcRun(g, batchSize, ops[..|ops| - 1]), batchSize, ops[|ops| - 1])
  }

  const GRPC_NEW := Grpc([], false, [], [], [])

  lemma {:induction false} RebufferedKeepsOrder(batch: seq<Event>, ok: nat -> bool, n: nat)
    requires n <= |batch|
    ensures Subsequence(Rebuffered(batch, ok, n), batch[..n])
    ensures Subsequence(Delivered(batch, ok, n), batch[..n])
  {
    if n > 0 {
      RebufferedKeepsOrder(batch, ok, n - 1);
      assert batch[..n] == batch[..n - 1] + [batch[n - 1]];
      SubsequenceSnoc(Rebuffered(batch, ok, n - 1), batch[..n - 1], batch[n - 1]);
      SubsequenceSnoc(Delivered(batch, ok, n - 1), batch[..n - 1], batch[n - 1]);
    }
  }

  /** How often `x` occurs. */
  function Count(xs: seq<Event>, x: Event): nat {
    multiset(xs)[x]
  }

  /** What became of the first `n` events of the batch, as occurrences of `x`. */
  function Fates(batch: seq<Event>, ok: nat -> bool, n: nat, x: Event): nat
    requires n <= |batch|
  {
    Count(Delivered(batch, ok, n), x) + Count(Rebuffered(batch, ok, n), x) + Count(Unconvertible(batch, n), x)
  }

  lemma {:induction false} BatchConserved(batch: seq<Event>, ok: nat -> bool, n: nat, x: Event)
    requires n <= |batch|
    ensures Count(batch[..n], x) == Fates(batch, ok, n, x)
  {
    if n > 0 {
      BatchConserved(batch, ok, n - 1, x);
      assert batch[..n] == batch[..n - 1] + [batch[n - 1]];
    }
  }

  predicate Conserved(g: Grpc) {
    multiset(g.accepted) == multiset(g.delivered) + multiset(g.unconvertible) + multiset(g.buffer)
  }

  lemma SplitFlush(all: seq<Event>, del: seq<Event>, unc: seq<Event>, b: seq<Event>,
                   d: seq<Event>, r: seq<Event>, u: seq<Event>)
    requires multiset(all) == multiset(del) + multiset(unc) + multiset(b)
    requires forall x :: Count(b, x) == Count(d, x) + Count(r, x) + Count(u, x)
    ensures multiset(all) == multiset(del + d) + multiset(unc + u) + multiset(r)
  {
    forall x ensures multiset(b)[x] == multiset(d)[x] + multiset(r)[x] + multiset(u)[x] {
      assert Count(b, x) == Count(d, x) + Count(r, x) + Count(u, x);
    }
    assert multiset(b) == multiset(d) + multiset(r) + multiset(u);
  }

  lemma GrpcFlushKeeps(g: Grpc, ok: nat -> bool)
    requires Conserved(g) && Subsequence(g.buffer, g.accepted)
    ensures Conserved(GrpcFlush(g, ok)) && Subsequence(GrpcFlush(g, ok).buffer, g.accepted)
  {
    var b := g.buffer;
    assert b[..|b|] == b;
    forall x
      ensures Count(b, x) == Fates(b, ok, |b|, x)
    {
      BatchConserved(b, ok, |b|, x);
    }
    SplitFlush(g.accepted, g.delivered, g.unconvertible, b,
               Delivered(b, ok, |b|), Rebuffered(b, ok, |b|), Unconvertible(b, |b|));
    RebufferedKeepsOrder(b, ok, |b|);
    SubsequenceTrans(Rebuffered(b, ok, |b|), b, g.accepted);
  }

  lemma GrpcStepKeeps(g: Grpc, batchSize: int, op: GrpcOp)
    requires Conserved(g) && Subsequence(g.buffer, g.accepted)
    ensures var t := GrpcStep(g, batchSize, op); Conserved(t) && Subsequence(t.buffer, t.accepted)
  {
    match op
    case GSend(e, ok) =>
      SubsequenceSnoc(g.buffer, g.accepted, e);
      var g1 := g.(buffer := g.buffer + [e], accepted := g.accepted + [e]);
      assert Conserved(g1);
      GrpcFlushKeeps(g1, ok);
    case GFlush(ok) => GrpcFlushKeeps(g, ok);
    case GClose(ok) => GrpcFlushKeeps(g.(closed := true), ok);
  }

  /** In every state of every run no accepted event is lost or duplicated, and
      the buffer keeps the order of the sends. */
  lemma {:induction false} GrpcConserves(batchSize: int, ops: seq<GrpcOp>)
    ensures var g := GrpcRun(GRPC_NEW, batchSize, ops); Conserved(g) && Subsequence(g.buffer, g.accepted)
    decreases |ops|
  {
    if ops != [] {
      GrpcConserves(batchSize, ops[..|ops| - 1]);
      GrpcStepKeeps(GrpcRun(GRPC_NEW, batchSize, ops[..|ops| - 1]), batchSize, ops[|ops| - 1]);
    }
  }

  lemma GrpcRunSnoc(g: Grpc, batchSize: int, ops: seq<GrpcOp>, op: GrpcOp)
    ensures GrpcRun(g, batchSize, ops + [op]) == GrpcStep(GrpcRun(g, batchSize, ops), batchSize, op)
  {
  }

  /** Unlike over HTTP, a failed call lets later events overtake. */
  lemma GrpcReorders(a: Event, b: Event) returns (ops: seq<GrpcOp>)
    requires a.convertible && b.convertible
    ensures var g := GrpcRun(GRPC_NEW, 2, ops); g.accepted == [a, b] && g.delivered == [b, a]
  {
    var firstFails: nat -> bool := (i: nat) => i != 0;
    var allOk: nat -> bool := (i: nat) => true;
    ops := [] + [GSend(a, allOk)];
    GrpcRunSnoc(GRPC_NEW, 2, [], GSend(a, allOk));
    GrpcRunSnoc(GRPC_NEW, 2, ops, GSend(b, firstFails));
    GrpcRunSnoc(GRPC_NEW, 2, ops + [GSend(b, firstFails)], GFlush(allOk));
    ops := ops + [GSend(b, firstFails)] + [GFlush(allOk)];
    FailedCallOvertaken(a, b, allOk, firstFails);
  }

  lemma FailedCallOvertaken(a: Event, b: Event, allOk: nat -> bool, firstFails: nat -> bool)
    requires a.convertible && b.convertible && allOk(0) && !firstFails(0) && firstFails(1)
    ensures var g1 := GrpcStep(GRPC_NEW, 2, GSend(a, allOk));
            var g2 := GrpcStep(g1, 2, GSend(b, firstFails));
            var g3 := GrpcStep(g2, 2, GFlush(allOk));
            g3.accepted == [a, b] && g3.delivered == [b, a]
  {
    assert GrpcStep(GRPC_NEW, 2, GSend(a, allOk)) == Grpc([a], false, [a], [], []) by { assert [] + [a] == [a]; }
    FirstCallFails(a, b, firstFails);
    OneFlush(a, allOk);
  }

  lemma FirstCallFails(a: Event, b: Event, ok: nat -> bool)
    requires a.convertible && b.convertible && !ok(0) && ok(1)
    ensures GrpcStep(Grpc([a], false, [a], [], []), 2, GSend(b, ok)) == Grpc([a], false, [a, b], [b], [])
  {
    TwoFlush(a, b, ok);
    assert [a] + [b] == [a, b];
  }

  lemma OneFlush(a: Event, ok: nat -> bool)
    requires a.convertible && ok(0)
    ensures Delivered([a], ok, 1) == [a] && Rebuffered([a], ok, 1) == [] && Unconvertible([a], 1) == []
  {
  }

  lemma TwoFlush(a: Event, b: Event, ok: nat -> bool)
    requires a.convertible && b.convertible && !ok(0) && ok(1)
    ensures Delivered([a, b], ok, 2) == [b] && Rebuffered([a, b], ok, 2) == [a] && Unconvertible([a, b], 2) == []
  {
    assert Delivered([a, b], ok, 1) == [] && Rebuffered([a, b], ok, 1) == [a] && Unconvertible([a, b], 1) == [];
  }

  /** The buffer is a slice: the first `used` cells of `data`. Truncating keeps the
      cells, so re-buffering during a flush overwrites them; the batch is a copy. */
  class GRPCTransport {
    const batchSize: int
    var data: array<Event>
    var used: nat
    var closed: bool
    ghost var accepted: seq<Event>
    ghost var delivered: seq<Event>
    ghost var unconvertible: seq<Event>

    constructor (batchSize: nat)
      ensures this.batchSize == batchSize && fresh(data) && Valid() && Contents() == GRPC_NEW
    {
      this.batchSize := batchSize;
      data, used, closed := new Event[batchSize], 0, false;
      accepted, delivered, unconvertible := [], [], [];
    }

    ghost predicate Valid()
      reads this
    {
      used <= data.Length
    }

    ghost function Contents(): Grpc
      reads this, data
      requires Valid()
    {
      Grpc(data[..used], closed, accepted, delivered, unconvertible)
    }

    method Copied(size: nat) returns (copy: array<Event>)
      requires Valid() && used <= size
      ensures fresh(copy) && copy.Length == size && copy[..used] == data[..used]
    {
      copy := new Event[size];
      for i := 0 to used
        invariant copy[..i] == data[..i]
      {
        copy[i] := data[i];
      }
    }

    /** In place while there is room, else into a new array. */
    method Append(e: Event)
      requires Valid()
      modifies this`data, this`used, data
      ensures Valid() && (data == old(data) || fresh(data))
      ensures data[..used] == old(data[..used]) + [e]
    {
      if used == data.Length {
        data := Copied(2 * used + 1);
      }
      data[used] := e;
      used := used + 1;
    }

    method SendEvent(e: Event, ok: nat -> bool) returns (open: bool)
      requires Valid()
      modifies this, data
      ensures Valid() && (data == old(data) || fresh(data))
      ensures Contents() == GrpcStep(old(Contents()), batchSize, GSend(e, ok))
      ensures open == !old(closed)
    {
      if closed { return false; }
      Append(e);
      accepted := accepted + [e];
      if used >= batchSize {
        FlushLocked(ok);
      }
      return true;
    }

    method FlushLocked(ok: nat -> bool)
      requires Valid()
      modifies this, data
      ensures Valid() && (data == old(data) || fresh(data))
      ensures Contents() == GrpcFlush(old(Contents()), ok)
    {
      if used == 0 { return; }
      var batch := Copied(used);
      ghost var b := batch[..];
      assert b == batch[..used];
      used := 0;
      for i := 0 to batch.Length
        invariant Valid() && (data == old(data) || fresh(data)) && data != batch && batch[..] == b
        invariant closed == old(closed) && accepted == old(accepted)
        invariant data[..used] == Rebuffered(b, ok, i)
        invariant delivered == old(delivered) + Delivered(b, ok, i)
        invariant unconvertible == old(unconvertible) + Unconvertible(b, i)
      {
        var e := batch[i];
        assert e == b[i];
        if !e.convertible {
          unconvertible := unconvertible + [e];
          continue;
        }
        if ok(i) {
          delivered := delivered + [e];
        } else {
          Append(e);
        }
      }
    }

    method CloseTransport(ok: nat -> bool)
      requires Valid() && !closed  // closing twice closes a closed channel
      modifies this, data
      ensures Valid() && (data == old(data) || fresh(data))
      ensures Contents() == GrpcStep(old(Contents()), batchSize, GClose(ok))
    {
      closed := true;
      FlushLocked(ok);
    }
  }

  // ---- the in-memory transport: the last maxSize sends ----

  class BufferTransport {
    const maxSize: int
    var events: seq<Event>
    ghost var sent: seq<Event>  // the serializable sends since the last drain

    constructor (maxSize: int)
      ensures Valid() && this.maxSize == (if maxSize <= 0 then 5000 else maxSize) && sent == []
    {
      this.maxSize := if maxSize <= 0 then 5000 else maxSize;
      events, sent := [], [];
    }

    /** Exactly the most recent sends, as many as fit. */
    ghost predicate Valid()
      reads this
    {
      && maxSize > 0
      && events == if |sent| <= maxSize then sent else sent[|sent| - maxSize..]
    }

    method SendEvent(e: Event) returns (ok: bool)
      requires Valid()
      modifies this
      ensures Valid() && ok == e.serializable
      ensures sent == if e.serializable then old(sent) + [e] else old(sent)
    {
      if !e.serializable { return false; }
      if |events| >= maxSize {
        events := events[1..];
      }
      events := events + [e];
      sent := sent + [e];
      return true;
    }

    method Drain() returns (out: seq<Event>)
      requires Valid()
      modifies this
      ensures Valid() && out == old(events) && events == [] && sent == []
    {
      out := events;
      events, sent := [], [];
    }
  }
}
