/** The at-least-once delivery protocol of the storage consumers. */
module DeliveryProtocol {
  import opened Decoding
  import opened Options

  // A state machine over the await points: one consumer task, one concurrent `stop`,
  // Kafka's committed offsets, and a process that may die at any step.

  datatype Source = Source(partition: string, offset: nat)

  /** A buffered event; `src` records where it was read and is never inspected by the code. */
  datatype Entry = Entry(src: Source, event: Event)

  /** A batch taken out of the buffer: failed attempts so far, then DLQ sends so far. */
  datatype Flight = Grounded | Flight(batch: seq<Entry>, failed: nat, sent: nat)

  /** Where the consumer task is suspended. */
  datatype Task = Disconnected | Reading | Flushing | Committing | Ended

  /** Where `stop` is suspended. */
  datatype Stopper = NotStopping | FinalFlush | Closing | Stopped

  datatype Config = Config(batchSize: int, maxRetries: int)

  datatype Metrics = Metrics(
    consumed: nat, written: nat, dlq: nat, batches: nat, rejected: nat,
    // not kept by the code: DLQ sends offered, events met by no producer,
    // reads that raised, events dropped by a cancelled flush
    offered: nat, skipped: nat, raised: nat, abandoned: nat)

  const NO_METRICS := Metrics(0, 0, 0, 0, 0, 0, 0, 0, 0)

  /** History: what became of each source, and every batch that some
      `process_batch` call stored, in order. */
  datatype Fate = Fate(
    handled: set<Source>,
    refused: set<Source>,
    acked: set<Source>,
    unacked: set<Source>,
    deliveries: seq<seq<Entry>>)

  /** Kafka's side: the partitions, the group's committed offsets, and the
      position of the current connection. */
  datatype Broker = Broker(
    log: map<string, seq<Message>>,
    committed: map<string, nat>,
    position: map<string, nat>)

  datatype State = State(
    broker: Broker,
    running: bool,
    task: Task,
    stopper: Stopper,
    producer: bool,
    buffer: seq<Entry>,
    flight: Flight,
    metrics: Metrics,
    fate: Fate)

  datatype CommitOutcome = CommitOk | CommitLost | CommitUnknown

  datatype Action =
    | Produce(partition: string, message: Message)
    | Start
    | Connect
    | ConnectFails(leavesProducer: bool)
    | Read(partition: string, flushDue: bool)
    | ReadWhileStopping(partition: string)
    | ReadError
    | Attempt(ok: bool)
    | DlqSend(ok: bool)
    | DlqDone
    | Commit(outcome: CommitOutcome)
    | LoopEnds
    | StopCalled
    | Cancel(commitApplied: bool)
    | ProcessDies(commitApplied: bool)

  function At<T>(m: map<T, nat>, k: T): nat {
    if k in m then m[k] else 0
  }

  function LogOf(s: State, p: string): seq<Message> {
    if p in s.broker.log then s.broker.log[p] else []
  }

  function Sources(b: seq<Entry>): set<Source> {
    set i | 0 <= i < |b| :: b[i].src
  }

  predicate Connected(s: State) {
    s.task == Reading || s.task == Flushing || s.task == Committing
  }

  // ---- steps ----

  predicate Enabled(cfg: Config, s: State, a: Action) {
    match a
    case Produce(_, _) => true
    case Start => !s.running && s.stopper == Stopped
    case Connect => s.task == Disconnected && s.running
    case ConnectFails(_) => s.task == Disconnected && s.running
    case Read(p, _) => s.task == Reading && s.running && At(s.broker.position, p) < |LogOf(s, p)|
    case ReadWhileStopping(p) => s.task == Reading && !s.running && At(s.broker.position, p) < |LogOf(s, p)|
    case ReadError => s.task == Reading
    case Attempt(_) => s.flight.Flight? && s.flight.failed < cfg.maxRetries && s.flight.sent == 0
    case DlqSend(_) => s.flight.Flight? && s.flight.failed >= cfg.maxRetries && s.flight.sent < |s.flight.batch|
    case DlqDone => s.flight.Flight? && s.flight.failed >= cfg.maxRetries && s.flight.sent >= |s.flight.batch|
    case Commit(_) => s.task == Committing
    case LoopEnds => s.task == Disconnected && !s.running
    case StopCalled => s.running && s.stopper == NotStopping
    case Cancel(_) => s.stopper == Closing
    case ProcessDies(_) => true
  }

  predicate FlushStep(a: Action) {
    a.Attempt? || a.DlqSend? || a.DlqDone?
  }

  /** Leaving `_run_consumer` by its `finally`: both clients are dropped. */
  function Leave(s: State, t: Task): State {
    s.(task := t, producer := false)
  }

  /** `_flush_buffer` up to its first await. */
  function TakeBatch(s: State): State {
    s.(flight := Flight(s.buffer, 0, 0), buffer := [])
  }

  /** `_flush_buffer` returned to whichever of the two callers awaited it. */
  function FlushReturned(s: State): State {
    if s.stopper == FinalFlush then s.(flight := Grounded, stopper := Closing)
    else if s.task == Flushing then s.(flight := Grounded, task := Committing)
    else s.(flight := Grounded)
  }

  function Received(cfg: Config, s: State, p: string, flushDue: bool, verdict: Verdict): State {
    var o := At(s.broker.position, p);
    var src := Source(p, o);
    var s1 := s.(broker := s.broker.(position := s.broker.position[p := o + 1]),
                 metrics := s.metrics.(consumed := s.metrics.consumed + 1));
    match verdict
    case Rejected =>
      s1.(fate := s.fate.(refused := s.fate.refused + {src}),
          metrics := s1.metrics.(rejected := s1.metrics.rejected + 1))
    case Raises =>
      Leave(s1.(metrics := s1.metrics.(raised := s1.metrics.raised + 1)), Disconnected)
    case Accepted(e) =>
      var s2 := s1.(buffer := s.buffer + [Entry(src, e)]);
      if |s2.buffer| >= cfg.batchSize || flushDue then TakeBatch(s2).(task := Flushing) else s2
  }

  /** One `process_batch` call on the batch in flight. */
  function Attempted(s: State, ok: bool): State
    requires s.flight.Flight?
  {
    var b := s.flight.batch;
    if ok then
      FlushReturned(s.(fate := s.fate.(handled := s.fate.handled + Sources(b), deliveries := s.fate.deliveries + [b]),
                       metrics := s.metrics.(written := s.metrics.written + |b|, batches := s.metrics.batches + 1)))
    else s.(flight := s.flight.(failed := s.flight.failed + 1))
  }

  /** The broker records the positions as committed. */
  function Published(b: Broker): Broker {
    b.(committed := b.committed + b.position)
  }

  function CommitPosition(s: State): State {
    s.(broker := Published(s.broker))
  }

  function DlqOffer(s: State, ok: bool): State
    requires s.flight.Flight? && s.flight.sent < |s.flight.batch|
  {
    var src := s.flight.batch[s.flight.sent].src;
    var rest := s.flight.(sent := s.flight.sent + 1);
    if !s.producer then
      s.(flight := rest, metrics := s.metrics.(skipped := s.metrics.skipped + 1))
    else if ok then
      s.(flight := rest, fate := s.fate.(acked := s.fate.acked + {src}),
         metrics := s.metrics.(offered := s.metrics.offered + 1, dlq := s.metrics.dlq + 1))
    else
      s.(flight := rest, fate := s.fate.(unacked := s.fate.unacked + {src}),
         metrics := s.metrics.(offered := s.metrics.offered + 1))
  }

  function CommitReturned(s: State, outcome: CommitOutcome): State {
    match outcome
    case CommitOk => CommitPosition(s).(task := Reading)
    case CommitLost => Leave(s, Disconnected)
    case CommitUnknown => Leave(CommitPosition(s), Disconnected)
  }

  function StopTaken(s: State): State {
    if s.buffer == [] then s.(running := false, stopper := Closing)
    else TakeBatch(s).(running := false, stopper := FinalFlush)
  }

  /** `stop` cancels the coroutine; a batch it had in flight is dropped with it. */
  function Cancelled(s: State, applied: bool): State {
    if s.task == Flushing && s.flight.Flight? && s.flight.sent <= |s.flight.batch| then
      s.(task := Ended, stopper := Stopped, producer := false, flight := Grounded,
         metrics := s.metrics.(abandoned := s.metrics.abandoned + |s.flight.batch| - s.flight.sent))
    else
      s.(task := Ended, stopper := Stopped, producer := s.producer && !Connected(s),
         broker := if s.task == Committing && applied then Published(s.broker) else s.broker)
  }

  function Apply(cfg: Config, s: State, a: Action): State
    requires Enabled(cfg, s, a)
  {
    match a
    case Produce(p, m) => s.(broker := s.broker.(log := s.broker.log[p := LogOf(s, p) + [m]]))
    case Start => s.(running := true, task := Disconnected, stopper := NotStopping)
    case Connect => s.(task := Reading, broker := s.broker.(position := s.broker.committed), producer := true)
    case ConnectFails(left) => s.(producer := left)
    case Read(p, due) => Received(cfg, s, p, due, Classify(LogOf(s, p)[At(s.broker.position, p)]))
    case ReadWhileStopping(p) =>
      Leave(s.(broker := s.broker.(position := s.broker.position[p := At(s.broker.position, p) + 1])), Ended)
    case ReadError => Leave(s, Disconnected)
    case Attempt(ok) => Attempted(s, ok)
    case DlqSend(ok) => DlqOffer(s, ok)
    case DlqDone => FlushReturned(s)
    case Commit(outcome) => CommitReturned(s, outcome)
    case LoopEnds => s.(task := Ended)
    case StopCalled => StopTaken(s)
    case Cancel(applied) => Cancelled(s, applied)
    case ProcessDies(applied) =>
      s.(running := false, task := Ended, stopper := Stopped, producer := false,
         buffer := [], flight := Grounded, metrics := NO_METRICS,
         broker := if s.task == Committing && applied then Published(s.broker) else s.broker)
  }

  function Exec(cfg: Config, s: State, acts: seq<Action>): Option<State>
    decreases |acts|
  {
    if acts == [] then Some(s)
    else if Enabled(cfg, s, acts[0]) then Exec(cfg, Apply(cfg, s, acts[0]), acts[1..])
    else None
  }

  lemma Then(cfg: Config, s: State, a: Action, rest: seq<Action>) returns (acts: seq<Action>)
    requires Enabled(cfg, s, a)
    ensures acts == [a] + rest && Exec(cfg, s, acts) == Exec(cfg, Apply(cfg, s, a), rest)
  {
    acts := [a] + rest;
    assert acts[1..] == rest;
  }

  lemma {:induction false} ExecAppend(cfg: Config, s: State, xs: seq<Action>, ys: seq<Action>)
    requires Exec(cfg, s, xs).Some?
    ensures Exec(cfg, s, xs + ys) == Exec(cfg, Exec(cfg, s, xs).value, ys)
    decreases |xs|
  {
    if xs == [] {
      assert xs + ys == ys;
    } else {
      assert (xs + ys)[1..] == xs[1..] + ys;
      ExecAppend(cfg, Apply(cfg, s, xs[0]), xs[1..], ys);
    }
  }

  /** A freshly constructed consumer; whatever its group committed in earlier
      lives counts as settled in them. */
  ghost predicate Init(s: State) {
    && !s.running && s.task == Ended && s.stopper == Stopped && !s.producer
    && s.buffer == [] && s.flight == Grounded && s.metrics == NO_METRICS
    && s.fate.deliveries == [] && CommitSafe(s)
  }

  // ---- commit never overtakes processing ----

  predicate Below(m: map<string, nat>, src: Source) {
    src.offset < At(m, src.partition)
  }

  predicate Settled(s: State, src: Source) {
    src in s.fate.handled || src in s.fate.refused || src in s.fate.acked || src in s.fate.unacked
  }

  predicate InMemory(s: State, src: Source) {
    || src in Sources(s.buffer)
    || (s.flight.Flight? && s.flight.sent <= |s.flight.batch| && src in Sources(s.flight.batch[s.flight.sent..]))
  }

  ghost predicate CommitSafe(s: State) {
    forall src :: Below(s.broker.committed, src) ==> Settled(s, src)
  }

  ghost predicate ReadAccounted(s: State) {
    forall src :: Below(s.broker.position, src) ==> Settled(s, src) || InMemory(s, src)
  }

  /** Only one flush is ever in progress, although the coroutine and `stop` both
      start them: a task flushing or committing has an empty buffer, so `stop`
      has nothing to flush. */
  predicate OneFlush(s: State) {
    && (s.task == Flushing ==> s.flight.Flight? && s.buffer == [] && s.stopper != FinalFlush)
    && (s.task == Committing ==> s.flight == Grounded && s.buffer == [] && s.stopper != FinalFlush)
    && (s.stopper == FinalFlush ==> s.flight.Flight?)
    && (s.flight.Flight? ==> s.task == Flushing || s.stopper == FinalFlush)
    && (s.flight.Flight? ==> s.flight.sent <= |s.flight.batch|)
    && (s.running <==> s.stopper == NotStopping)
    && (s.stopper == Stopped ==> s.task == Ended)
  }

  ghost predicate Inv(s: State) {
    && OneFlush(s)
    && CommitSafe(s)
    && (Connected(s) ==> s.producer && ReadAccounted(s))
  }

  lemma AppendOne(b: seq<Entry>, e: Entry)
    ensures Sources(b + [e]) == Sources(b) + {e.src}
  {
    forall src | src in Sources(b)
      ensures src in Sources(b + [e])
    {
      var i :| 0 <= i < |b| && b[i].src == src;
      assert (b + [e])[i].src == src;
    }
    assert (b + [e])[|b|].src == e.src;
  }

  lemma ReceivedKeepsInv(cfg: Config, s: State, p: string, due: bool, verdict: Verdict)
    requires Inv(s) && Enabled(cfg, s, Read(p, due))
    ensures Inv(Received(cfg, s, p, due, verdict))
  {
    var t := Received(cfg, s, p, due, verdict);
    var o := At(s.broker.position, p);
    forall src | Below(t.broker.position, src)
      ensures Settled(t, src) || !Connected(t) || InMemory(t, src)
    {
      assert src == Source(p, o) || Below(s.broker.position, src);
      match verdict
      case Rejected =>
      case Raises =>
      case Accepted(e) =>
        AppendOne(s.buffer, Entry(Source(p, o), e));
        var b := s.buffer + [Entry(Source(p, o), e)];
        assert b[0..] == b;
    }
    assert CommitSafe(t) by {
      forall src | Below(t.broker.committed, src) ensures Settled(t, src) { assert Below(s.broker.committed, src); }
    }
  }

  lemma DlqOfferKeepsInv(cfg: Config, s: State, ok: bool)
    requires Inv(s) && Enabled(cfg, s, DlqSend(ok))
    ensures Inv(DlqOffer(s, ok))
  {
  }

  lemma AttemptOkKeepsInv(cfg: Config, s: State)
    requires Inv(s) && Enabled(cfg, s, Attempt(true))
    ensures Inv(Apply(cfg, s, Attempt(true)))
  {
    var t := Apply(cfg, s, Attempt(true));
    assert s.flight.batch[0..] == s.flight.batch;
    forall src | Below(t.broker.position, src)
      ensures Settled(t, src) || !Connected(t) || InMemory(t, src)
    {
      assert Below(s.broker.position, src);
    }
    forall src | Below(t.broker.committed, src) ensures Settled(t, src) { assert Below(s.broker.committed, src); }
  }

  /** Committing publishes positions at a moment when nothing read is still in memory. */
  lemma CommitPositionSafe(s: State)
    requires Inv(s) && s.task == Committing
    ensures CommitSafe(CommitPosition(s))
  {
    var t := CommitPosition(s);
    forall src | Below(t.broker.committed, src)
      ensures Settled(t, src)
    {
      if src.partition in s.broker.position {
        assert Below(s.broker.position, src);
        assert Settled(s, src) || InMemory(s, src);
      } else {
        assert Below(s.broker.committed, src);
      }
    }
  }

  lemma StepKeepsInv(cfg: Config, s: State, a: Action)
    requires Inv(s) && Enabled(cfg, s, a)
    ensures Inv(Apply(cfg, s, a))
  {
    if s.task == Committing { CommitPositionSafe(s); }
    match a
    case Read(p, due) => ReceivedKeepsInv(cfg, s, p, due, Classify(LogOf(s, p)[At(s.broker.position, p)]));
    case DlqSend(ok) => DlqOfferKeepsInv(cfg, s, ok);
    case Attempt(ok) =>
      if ok { AttemptOkKeepsInv(cfg, s); } else { OthersKeepInv(cfg, s, a); }
    case _ => OthersKeepInv(cfg, s, a);
  }

  lemma ReceivedKeepsOneFlush(cfg: Config, s: State, p: string, due: bool, verdict: Verdict)
    requires OneFlush(s) && s.task == Reading && s.running
    ensures OneFlush(Received(cfg, s, p, due, verdict))
  {
  }

  lemma OthersKeepOneFlush(cfg: Config, s: State, a: Action)
    requires OneFlush(s) && Enabled(cfg, s, a) && !a.Read?
    ensures OneFlush(Apply(cfg, s, a))
  {
  }

  lemma StepKeepsOneFlush(cfg: Config, s: State, a: Action)
    requires OneFlush(s) && Enabled(cfg, s, a)
    ensures OneFlush(Apply(cfg, s, a))
  {
    match a
    case Read(p, due) => ReceivedKeepsOneFlush(cfg, s, p, due, Classify(LogOf(s, p)[At(s.broker.position, p)]));
    case _ => OthersKeepOneFlush(cfg, s, a);
  }

  /** Every other step leaves the history alone and the committed offsets too,
      unless it commits. */
  lemma OthersKeepCommitted(cfg: Config, s: State, a: Action)
    requires Enabled(cfg, s, a) && !a.Read? && !a.DlqSend? && a != Attempt(true)
    ensures var t := Apply(cfg, s, a);
            && t.fate == s.fate
            && (t.broker.committed == s.broker.committed
                || (s.task == Committing && t.broker.committed == CommitPosition(s).broker.committed))
  {
    match a
    case Commit(outcome) =>
    case Cancel(_) =>
    case ProcessDies(_) =>
    case Attempt(_) =>
    case DlqDone =>
    case StopCalled =>
    case _ =>
  }

  lemma OthersKeepCommitSafe(cfg: Config, s: State, a: Action)
    requires CommitSafe(s) && Enabled(cfg, s, a)
    requires !a.Read? && !a.DlqSend? && a != Attempt(true)
    requires s.task == Committing ==> CommitSafe(CommitPosition(s))
    ensures CommitSafe(Apply(cfg, s, a))
  {
    OthersKeepCommitted(cfg, s, a);
    var t := Apply(cfg, s, a);
    var u := if t.broker.committed == s.broker.committed then s else CommitPosition(s);
    assert CommitSafe(u);
    forall src | Below(t.broker.committed, src)
      ensures Settled(t, src)
    {
      assert Below(u.broker.committed, src);
    }
  }

  /** Every other step leaves memory and positions alone, or disconnects, or
      reconnects at the committed offsets. */
  lemma OthersKeepReadAccounted(cfg: Config, s: State, a: Action)
    requires Inv(s) && Enabled(cfg, s, a)
    requires !a.Read? && !a.DlqSend? && a != Attempt(true)
    requires Connected(Apply(cfg, s, a))
    ensures Apply(cfg, s, a).producer && ReadAccounted(Apply(cfg, s, a))
  {
    var t := Apply(cfg, s, a);
    forall src | Below(t.broker.position, src)
      ensures Settled(t, src) || InMemory(t, src)
    {
      if a.Connect? {
        assert Below(s.broker.committed, src);
      } else {
        assert Below(s.broker.position, src);
        if a.StopCalled? && s.buffer != [] { assert s.buffer[0..] == s.buffer; }
        if a.DlqDone? { assert s.flight.batch[s.flight.sent..] == []; }
      }
    }
  }

  lemma OthersKeepInv(cfg: Config, s: State, a: Action)
    requires Inv(s) && Enabled(cfg, s, a)
    requires !a.Read? && !a.DlqSend? && a != Attempt(true)
    requires s.task == Committing ==> CommitSafe(CommitPosition(s))
    ensures Inv(Apply(cfg, s, a))
  {
    OthersKeepOneFlush(cfg, s, a);
    OthersKeepCommitSafe(cfg, s, a);
    if Connected(Apply(cfg, s, a)) { OthersKeepReadAccounted(cfg, s, a); }
  }

  lemma {:induction false} RunKeepsInv(cfg: Config, s: State, acts: seq<Action>)
    requires Inv(s) && Exec(cfg, s, acts).Some?
    ensures Inv(Exec(cfg, s, acts).value)
    decreases |acts|
  {
    if acts != [] {
      StepKeepsInv(cfg, s, acts[0]);
      RunKeepsInv(cfg, Apply(cfg, s, acts[0]), acts[1..]);
    }
  }

  /** Commit never overtakes processing, in every run from start-up: whatever
      the interleaving, an offset below the committed one was stored by a
      successful batch, refused by the decoder, or offered to the dead-letter queue. */
  lemma CommitNeverOvertakes(cfg: Config, s: State, acts: seq<Action>, src: Source)
    requires Init(s) && Exec(cfg, s, acts).Some?
    requires Below(Exec(cfg, s, acts).value.broker.committed, src)
    ensures Settled(Exec(cfg, s, acts).value, src)
  {
    RunKeepsInv(cfg, s, acts);
  }
}
