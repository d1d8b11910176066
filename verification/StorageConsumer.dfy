/** The consumer object itself: its buffer, its counters and its two flush
    paths, updated in place and proved to follow the protocol's steps. */
module StorageConsumer {
  import opened Decoding
  import opened DeliveryProtocol
  import opened Options

  /** `acts` is a run of the protocol from `s` to `t`. */
  ghost predicate Leads(cfg: Config, s: State, acts: seq<Action>, t: State) {
    Exec(cfg, s, acts) == Some(t)
  }

  lemma Stay(cfg: Config, s: State)
    ensures Leads(cfg, s, [], s)
  {
  }

  lemma Advance(cfg: Config, s: State, acts: seq<Action>, t: State, a: Action)
    returns (more: seq<Action>)
    requires Leads(cfg, s, acts, t) && Enabled(cfg, t, a)
    requires OneFlush(t)
    ensures Leads(cfg, s, more, Apply(cfg, t, a)) && OneFlush(Apply(cfg, t, a))
  {
    var step := Then(cfg, t, a, []);
    ExecAppend(cfg, s, acts, step);
    StepKeepsOneFlush(cfg, t, a);
    more := acts + step;
  }

  lemma AdvanceRead(cfg: Config, s: State, p: string, due: bool, verdict: Verdict)
    returns (acts: seq<Action>)
    requires OneFlush(s) && s.task == Reading && s.running && At(s.broker.position, p) < |LogOf(s, p)|
    requires verdict == Classify(LogOf(s, p)[At(s.broker.position, p)])
    ensures var t := Received(cfg, s, p, due, verdict); Leads(cfg, s, acts, t) && OneFlush(t)
  {
    acts := Advance(cfg, s, [], s, Read(p, due));
  }

  lemma AdvanceAttempt(cfg: Config, s: State, acts: seq<Action>, t: State, ok: bool)
    returns (more: seq<Action>)
    requires Leads(cfg, s, acts, t) && OneFlush(t) && Enabled(cfg, t, Attempt(ok))
    ensures Leads(cfg, s, more, Attempted(t, ok)) && OneFlush(Attempted(t, ok))
  {
    more := Advance(cfg, s, acts, t, Attempt(ok));
  }

  lemma AdvanceDlq(cfg: Config, s: State, acts: seq<Action>, t: State, ok: bool)
    returns (more: seq<Action>)
    requires Leads(cfg, s, acts, t) && OneFlush(t) && Enabled(cfg, t, DlqSend(ok))
    ensures Leads(cfg, s, more, DlqOffer(t, ok)) && OneFlush(DlqOffer(t, ok))
  {
    more := Advance(cfg, s, acts, t, DlqSend(ok));
  }

  lemma AdvanceDone(cfg: Config, s: State, acts: seq<Action>, t: State)
    returns (more: seq<Action>)
    requires Leads(cfg, s, acts, t) && OneFlush(t) && Enabled(cfg, t, DlqDone)
    ensures Leads(cfg, s, more, FlushReturned(t)) && OneFlush(FlushReturned(t))
  {
    more := Advance(cfg, s, acts, t, DlqDone);
  }

  lemma AdvanceCommit(cfg: Config, s: State, acts: seq<Action>, t: State, outcome: CommitOutcome)
    returns (more: seq<Action>)
    requires Leads(cfg, s, acts, t) && OneFlush(t) && t.task == Committing
    ensures Leads(cfg, s, more, CommitReturned(t, outcome)) && OneFlush(CommitReturned(t, outcome))
  {
    more := Advance(cfg, s, acts, t, Commit(outcome));
  }

  lemma AdvanceStop(cfg: Config, s: State)
    returns (acts: seq<Action>)
    requires OneFlush(s) && s.running
    ensures Leads(cfg, s, acts, StopTaken(s)) && OneFlush(StopTaken(s))
  {
    acts := Advance(cfg, s, [], s, StopCalled);
  }

  lemma AdvanceCancel(cfg: Config, s: State, acts: seq<Action>, t: State)
    returns (more: seq<Action>)
    requires Leads(cfg, s, acts, t) && OneFlush(t) && t.stopper == Closing
    ensures Leads(cfg, s, more, Cancelled(t, false)) && OneFlush(Cancelled(t, false))
  {
    more := Advance(cfg, s, acts, t, Cancel(false));
  }

  lemma Chain(cfg: Config, s: State, xs: seq<Action>, t: State, ys: seq<Action>, u: State)
    returns (all: seq<Action>)
    requires Leads(cfg, s, xs, t) && Leads(cfg, t, ys, u)
    ensures Leads(cfg, s, all, u)
  {
    ExecAppend(cfg, s, xs, ys);
    all := xs + ys;
  }

  predicate SameOffsets(w: State, t: State) {
    t.broker == w.broker && t.producer == w.producer
  }

  /** The flush is over and its caller has moved on. */
  predicate Returned(w: State, t: State) {
    && t.flight == Grounded
    && t.stopper == (if w.stopper == FinalFlush then Closing else w.stopper)
    && t.task == (if w.task == Flushing then Committing else w.task)
  }

  /** The first `n` events of the batch went to the dead-letter topic, or
      nowhere when there is no producer. */
  ghost predicate Offered(batch: seq<Entry>, ackOk: nat -> bool, n: nat, w: State, t: State)
    requires n <= |batch|
  {
    if w.producer then
      forall i: nat :: i < n ==> batch[i].src in if ackOk(i) then t.fate.acked else t.fate.unacked
    else t.fate.acked == w.fate.acked && t.fate.unacked == w.fate.unacked
  }

  function Acks(ackOk: nat -> bool, n: nat): nat {
    if n == 0 then 0 else Acks(ackOk, n - 1) + if ackOk(n - 1) then 1 else 0
  }

  /** The batch was stored and counted. */
  predicate Wrote(batch: seq<Entry>, w: State, t: State) {
    && t.fate.deliveries == w.fate.deliveries + [batch]
    && (forall i :: 0 <= i < |batch| ==> batch[i].src in t.fate.handled)
    && t.fate.acked == w.fate.acked && t.fate.unacked == w.fate.unacked
    && t.metrics.written == w.metrics.written + |batch| && t.metrics.dlq == w.metrics.dlq
    && t.metrics.batches == w.metrics.batches + 1
  }

  /** Nothing was stored; each event went to the dead-letter topic, the acknowledged ones counted. */
  ghost predicate GaveUp(batch: seq<Entry>, ackOk: nat -> bool, w: State, t: State) {
    && t.fate.deliveries == w.fate.deliveries && t.fate.handled == w.fate.handled
    && Offered(batch, ackOk, |batch|, w, t)
    && t.metrics.written == w.metrics.written
    && t.metrics.dlq == w.metrics.dlq + (if w.producer then Acks(ackOk, |batch|) else 0)
    && t.metrics.batches == w.metrics.batches
  }

  ghost predicate FlushedAs(cfg: Config, batch: seq<Entry>, attemptOk: nat -> bool, ackOk: nat -> bool,
                            w: State, t: State)
  {
    if exists k: nat :: 1 <= k <= cfg.maxRetries && attemptOk(k) then Wrote(batch, w, t)
    else GaveUp(batch, ackOk, w, t)
  }

  /** What the commit after a flush leaves: the loop goes on with the offsets committed up
      to the positions; or it is left, and the broker has them or has not. */
  predicate CommitEnds(before: map<string, nat>, read: map<string, nat>, t: State, outcome: CommitOutcome) {
    match outcome
    case CommitOk => t.task == Reading && t.broker.committed == before + read
    case CommitLost => t.task == Disconnected && !t.producer && t.broker.committed == before
    case CommitUnknown => t.task == Disconnected && !t.producer && t.broker.committed == before + read
  }

  /** Nothing but the position of p has moved at the broker. */
  predicate OnlyRead(w: State, t: State, p: string, o: nat) {
    t.broker == w.broker.(position := w.broker.position[p := o + 1])
  }

  /** `w` is `s` after reading the event into the buffer, or into a batch if it is due. */
  predicate EventRead(cfg: Config, s: State, w: State, e: Entry, due: bool) {
    var grown := s.buffer + [e];
    && OnlyRead(s, w, e.src.partition, e.src.offset) && w.fate == s.fate && w.producer == s.producer
    && w.metrics.written == s.metrics.written && w.metrics.dlq == s.metrics.dlq && w.metrics.batches == s.metrics.batches
    && (if |grown| >= cfg.batchSize || due
        then w.flight == Flight(grown, 0, 0) && w.buffer == [] && w.task == Flushing
        else w.buffer == grown && w.task == s.task)
  }

  lemma ReadsEvent(cfg: Config, s: State, p: string, due: bool, e: Event)
    ensures EventRead(cfg, s, Received(cfg, s, p, due, Accepted(e)), Entry(Source(p, At(s.broker.position, p)), e), due)
  {
  }

  lemma ReadsNoEvent(cfg: Config, s: State, p: string, due: bool, verdict: Verdict)
    requires !verdict.Accepted?
    ensures var w, o := Received(cfg, s, p, due, verdict), At(s.broker.position, p);
            && OnlyRead(s, w, p, o) && w.buffer == s.buffer
            && (if verdict.Raises? then w.task == Disconnected && w.fate == s.fate
                else w.task == s.task && w.fate == s.fate.(refused := s.fate.refused + {Source(p, o)}))
  {
  }

  lemma AttemptStores(batch: seq<Entry>, w: State, t: State)
    requires t.flight.Flight? && t == w.(flight := t.flight) && t.flight.batch == batch
    ensures Wrote(batch, w, Attempted(t, true))
  {
  }

  /** A flush is judged by the fates, the producer and two counters alone. */
  lemma SameToFlush(cfg: Config, batch: seq<Entry>, attemptOk: nat -> bool, ackOk: nat -> bool, s: State, w: State, t: State)
    requires w.fate == s.fate && w.producer == s.producer
    requires w.metrics.written == s.metrics.written && w.metrics.dlq == s.metrics.dlq && w.metrics.batches == s.metrics.batches
    requires FlushedAs(cfg, batch, attemptOk, ackOk, w, t)
    ensures FlushedAs(cfg, batch, attemptOk, ackOk, s, t)
  {
  }

  lemma CommitKeeps(t: State, outcome: CommitOutcome)
    ensures var u := CommitReturned(t, outcome);
            && u.fate == t.fate && u.metrics == t.metrics && u.broker.position == t.broker.position
            && CommitEnds(t.broker.committed, t.broker.position, u, outcome)
  {
  }

  /** The first `i` events of the batch have been offered. */
  ghost predicate Sending(batch: seq<Entry>, ackOk: nat -> bool, i: nat, w: State, t: State) {
    && i <= |batch| && w.flight.Flight? && w.flight.batch == batch
    && t == w.(flight := w.flight.(sent := i), metrics := t.metrics, fate := t.fate)
    && t.fate.deliveries == w.fate.deliveries && t.fate.handled == w.fate.handled
    && Offered(batch, ackOk, i, w, t)
    && t.metrics.dlq == w.metrics.dlq + (if w.producer then Acks(ackOk, i) else 0)
    && t.metrics.consumed == w.metrics.consumed && t.metrics.written == w.metrics.written
    && t.metrics.batches == w.metrics.batches && t.metrics.rejected == w.metrics.rejected
  }

  lemma OfferNext(batch: seq<Entry>, ackOk: nat -> bool, i: nat, w: State, t: State)
    requires i < |batch| && Sending(batch, ackOk, i, w, t)
    ensures Sending(batch, ackOk, i + 1, w, DlqOffer(t, ackOk(i)))
    ensures DlqOffer(t, ackOk(i)).metrics.dlq == t.metrics.dlq + if w.producer && ackOk(i) then 1 else 0
  {
  }

  class BaseStorageConsumer {
    const cfg: Config
    const flushInterval: real

    var buffer: seq<Entry>
    var lastFlush: real
    var running: bool
    var producer: bool  // whether `_producer` is set
    var eventsConsumed: nat
    var eventsWritten: nat
    var eventsDlq: nat
    var batchesWritten: nat
    var deserializationErrors: nat

    // the cluster, the suspended callers and the history around this object
    ghost var world: State

    constructor (cfg: Config, flushInterval: real, now: real, ghost world: State)
      requires Init(world)
      ensures Valid() && this.world == world && this.cfg == cfg && this.flushInterval == flushInterval
    {
      this.cfg, this.flushInterval := cfg, flushInterval;
      buffer, lastFlush, running, producer := [], now, false, false;
      eventsConsumed, eventsWritten, eventsDlq, batchesWritten, deserializationErrors := 0, 0, 0, 0, 0;
      this.world := world;
    }

    ghost predicate Mirrors(w: State)
      reads this
    {
      && w.running == running && w.producer == producer
      && w.metrics.consumed == eventsConsumed && w.metrics.written == eventsWritten
      && w.metrics.dlq == eventsDlq && w.metrics.batches == batchesWritten
      && w.metrics.rejected == deserializationErrors
    }

    ghost predicate Valid()
      reads this
    {
      OneFlush(world) && Mirrors(world) && world.buffer == buffer
    }

    /** One message of the read loop, with the flush and the commit it may lead to. */
    method HandleMessage(p: string, o: nat, m: Message, now: real, attemptOk: nat -> bool, ackOk: nat -> bool,
                         committed: CommitOutcome) returns (ghost acts: seq<Action>)
      requires Valid() && running && world.task == Reading
      requires o == At(world.broker.position, p) < |LogOf(world, p)| && m == LogOf(world, p)[o]
      modifies this
      ensures Valid() && Leads(cfg, old(world), acts, world)
      ensures eventsConsumed == old(eventsConsumed) + 1
      ensures Classify(m).Raises? ==>
                && OnlyRead(old(world), world, p, o) && world.task == Disconnected && !producer
                && world.fate == old(world.fate) && buffer == old(buffer)
      ensures Classify(m).Rejected? ==>
                && OnlyRead(old(world), world, p, o) && world.task == Reading
                && world.fate == old(world.fate).(refused := old(world.fate.refused) + {Source(p, o)})
                && buffer == old(buffer) && deserializationErrors == old(deserializationErrors) + 1
      ensures Classify(m).Accepted? ==>
                Buffered(old(buffer) + [Entry(Source(p, o), Classify(m).event)], old(lastFlush), now,
                         attemptOk, ackOk, committed, old(world))
    {
      var verdict := Classify(m);
      ghost var before := world;
      ghost var due := now - lastFlush >= flushInterval;
      ghost var w := Received(cfg, world, p, due, verdict);
      acts := AdvanceRead(cfg, before, p, due, verdict);
      eventsConsumed := eventsConsumed + 1;
      match verdict {
        case Rejected =>
          ReadsNoEvent(cfg, before, p, due, verdict);
          deserializationErrors := deserializationErrors + 1;
          world := w;
        case Raises =>
          ReadsNoEvent(cfg, before, p, due, verdict);
          producer := false;
          world := w;
        case Accepted(e) =>
          ReadsEvent(cfg, before, p, due, e);
          ghost var more := Buffer(Entry(Source(p, o), e), now, attemptOk, ackOk, committed, before, w);
          acts := Chain(cfg, before, acts, w, more, world);
      }
    }

    predicate FlushDue(grown: seq<Entry>, last: real, now: real) {
      |grown| >= cfg.batchSize || now - last >= flushInterval
    }

    /** One more event in the buffer, and the flush and the commit when they are due:
        `w` is the state before the event was read. */
    ghost predicate Buffered(grown: seq<Entry>, last: real, now: real, attemptOk: nat -> bool, ackOk: nat -> bool,
                             committed: CommitOutcome, w: State)
      requires grown != []
      reads this
    {
      var src := grown[|grown| - 1].src;
      if FlushDue(grown, last, now) then
        && buffer == [] && lastFlush == now
        && world.broker.position == w.broker.position[src.partition := src.offset + 1]
        && FlushedAs(cfg, grown, attemptOk, ackOk, w, world)
        && CommitEnds(w.broker.committed, world.broker.position, world, committed)
      else
        && buffer == grown && lastFlush == last
        && OnlyRead(w, world, src.partition, src.offset) && world.task == Reading && world.fate == w.fate
    }

    method Buffer(e: Entry, now: real, attemptOk: nat -> bool, ackOk: nat -> bool,
                  committed: CommitOutcome, ghost before: State, ghost w: State) returns (ghost acts: seq<Action>)
      requires OneFlush(w) && Mirrors(w) && before.buffer == buffer
      requires before.task == Reading && EventRead(cfg, before, w, e, now - lastFlush >= flushInterval)
      modifies this
      ensures Valid() && Leads(cfg, w, acts, world)
      ensures eventsConsumed == old(eventsConsumed)
      ensures Buffered(old(buffer) + [e], old(lastFlush), now, attemptOk, ackOk, committed, before)
    {
      ghost var grown := buffer + [e];
      buffer := buffer + [e];
      if |buffer| >= cfg.batchSize || now - lastFlush >= flushInterval {
        acts := FlushAndCommit(now, attemptOk, ackOk, committed, w);
        SameToFlush(cfg, grown, attemptOk, ackOk, before, w, world);
      } else {
        world := w;
        Stay(cfg, w);
        acts := [];
      }
    }

    /** Flush the full or overdue buffer, then commit. */
    method FlushAndCommit(now: real, attemptOk: nat -> bool, ackOk: nat -> bool, committed: CommitOutcome,
                          ghost w: State) returns (ghost acts: seq<Action>)
      requires OneFlush(w) && Mirrors(w) && w.buffer == [] && w.flight == Flight(buffer, 0, 0) && buffer != []
      requires w.task == Flushing
      modifies this
      ensures Valid() && Leads(cfg, w, acts, world)
      ensures buffer == [] && lastFlush == now && eventsConsumed == old(eventsConsumed)
      ensures FlushedAs(cfg, old(buffer), attemptOk, ackOk, w, world)
      ensures world.broker.position == w.broker.position
      ensures CommitEnds(w.broker.committed, w.broker.position, world, committed)
    {
      acts := FlushBuffer(now, attemptOk, ackOk, w);
      acts := AdvanceCommit(cfg, w, acts, world, committed);
      ghost var flushed := world;
      producer := producer && committed.CommitOk?;
      world := CommitReturned(world, committed);
      CommitKeeps(flushed, committed);
    }

    /** Retry the batch, then dead-letter it. `w` is the protocol state just
        after the batch was taken out of the buffer. */
    method FlushBuffer(now: real, attemptOk: nat -> bool, ackOk: nat -> bool, ghost w: State)
      returns (ghost acts: seq<Action>)
      requires OneFlush(w) && Mirrors(w) && w.buffer == [] && w.flight == Flight(buffer, 0, 0) && buffer != []
      modifies this
      ensures Valid() && buffer == [] && lastFlush == now && eventsConsumed == old(eventsConsumed)
      ensures Leads(cfg, w, acts, world) && SameOffsets(w, world) && Returned(w, world)
      ensures FlushedAs(cfg, old(buffer), attemptOk, ackOk, w, world)
    {
      var batch := buffer;
      buffer := [];
      lastFlush := now;
      world := w;
      var stored;
      stored, acts := Store(batch, attemptOk);
      if !stored {
        ghost var failed := world;
        ghost var sends := SendToDlq(batch, ackOk);
        acts := Chain(cfg, w, acts, failed, sends, world);
      }
    }

    /** `process_batch`, tried up to `maxRetries` times. */
    method Store(batch: seq<Entry>, attemptOk: nat -> bool) returns (stored: bool, ghost acts: seq<Action>)
      requires OneFlush(world) && Mirrors(world) && world.buffer == buffer == []
      requires world.flight == Flight(batch, 0, 0)
      modifies this`eventsWritten, this`batchesWritten, this`world
      ensures Leads(cfg, old(world), acts, world) && Mirrors(world) && world.buffer == []
      ensures SameOffsets(old(world), world)
      ensures stored == exists k: nat :: 1 <= k <= cfg.maxRetries && attemptOk(k)
      ensures stored ==> Returned(old(world), world) && Wrote(batch, old(world), world)
      ensures stored ==>
                && eventsWritten == old(eventsWritten) + |batch| && batchesWritten == old(batchesWritten) + 1
      ensures !stored ==>
                && world == old(world).(flight := Flight(batch, if cfg.maxRetries > 0 then cfg.maxRetries else 0, 0))
                && eventsWritten == old(eventsWritten)
    {
      ghost var w := world;
      acts := [];
      var attempt := 1;
      while attempt <= cfg.maxRetries
        invariant 1 <= attempt && (attempt <= cfg.maxRetries + 1 || attempt == 1)
        invariant Leads(cfg, w, acts, world) && Mirrors(world)
        invariant world == w.(flight := Flight(batch, attempt - 1, 0))
        invariant eventsWritten == old(eventsWritten) && batchesWritten == old(batchesWritten)
        invariant forall k: nat :: 1 <= k < attempt ==> !attemptOk(k)
      {
        ghost var tried := world;
        acts := AdvanceAttempt(cfg, w, acts, world, attemptOk(attempt));
        world := Attempted(world, attemptOk(attempt));
        if attemptOk(attempt) {
          AttemptStores(batch, w, tried);
          eventsWritten := eventsWritten + |batch|;
          batchesWritten := batchesWritten + 1;
          return true, acts;
        }
        attempt := attempt + 1;
      }
      stored := false;
    }

    /** Offer every event of the batch to the dead-letter topic; failures are only logged. */
    method SendToDlq(batch: seq<Entry>, ackOk: nat -> bool) returns (ghost acts: seq<Action>)
      requires OneFlush(world) && Mirrors(world) && world.buffer == buffer == []
      requires world.flight.Flight? && world.flight.batch == batch && world.flight.sent == 0
      requires world.flight.failed >= cfg.maxRetries
      modifies this`eventsDlq, this`world
      ensures Valid()
      ensures Leads(cfg, old(world), acts, world)
      ensures SameOffsets(old(world), world) && Returned(old(world), world)
      ensures world.fate.deliveries == old(world.fate.deliveries) && world.fate.handled == old(world.fate.handled)
      ensures Offered(batch, ackOk, |batch|, old(world), world) && world.metrics.written == old(world.metrics.written)
      ensures batchesWritten == old(batchesWritten)
      ensures eventsDlq == old(eventsDlq) + if producer then Acks(ackOk, |batch|) else 0
    {
      ghost var before := world;
      acts := [];
      for i := 0 to |batch|
        invariant Leads(cfg, before, acts, world) && Mirrors(world)
        invariant Sending(batch, ackOk, i, before, world)
      {
        OfferNext(batch, ackOk, i, before, world);
        acts := AdvanceDlq(cfg, before, acts, world, ackOk(i));
        if producer && ackOk(i) {
          eventsDlq := eventsDlq + 1;
        }
        world := DlqOffer(world, ackOk(i));
      }
      acts := AdvanceDone(cfg, before, acts, world);
      world := FlushReturned(world);
    }

    /** Stopping an idle consumer: the final flush is not followed by a commit,
        so whatever it stored is delivered again after the next start. */
    method Stop(reading: bool, now: real, attemptOk: nat -> bool, ackOk: nat -> bool) returns (ghost acts: seq<Action>)
      requires Valid() && running && world.task == if reading then Reading else Disconnected
      modifies this
      ensures Valid() && !running && buffer == []
      ensures Leads(cfg, old(world), acts, world)
      ensures world.task == Ended && world.stopper == Stopped
      ensures world.broker == old(world.broker)
      ensures if old(buffer) == [] then world.fate == old(world.fate)
              else FlushedAs(cfg, old(buffer), attemptOk, ackOk, old(world), world)
    {
      ghost var before := world;
      acts := AdvanceStop(cfg, before);
      ghost var w := StopTaken(before);
      running := false;
      if buffer != [] {
        ghost var flushing := FlushBuffer(now, attemptOk, ackOk, w);
        acts := Chain(cfg, before, acts, w, flushing, world);
      } else {
        world := w;
      }
      acts := AdvanceCancel(cfg, before, acts, world);
      producer := producer && !reading;  // the cancelled read loop's `finally`
      world := Cancelled(world, false);
    }
  }
}
