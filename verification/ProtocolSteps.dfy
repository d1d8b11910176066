/** What each step of the delivery protocol moves at the broker and in the process. */
module ProtocolSteps {
  import opened Decoding
  import opened DeliveryProtocol
  import opened Options

  /** A commit is on its way, and the broker gets it: by its answer, or unseen when the
      coroutine is cancelled or the process dies meanwhile. */
  predicate CommitArrives(s: State, a: Action) {
    s.task == Committing
    && match a
       case Commit(outcome) => outcome == CommitOk || outcome == CommitUnknown
       case Cancel(applied) => applied
       case ProcessDies(applied) => applied
       case _ => false
  }

  /** Exactly then the committed offsets move, and to the positions. */
  lemma CommittedMoves(cfg: Config, s: State, a: Action)
    requires Enabled(cfg, s, a)
    ensures Apply(cfg, s, a).broker.committed
            == if CommitArrives(s, a) then s.broker.committed + s.broker.position else s.broker.committed
  {
  }

  /** The positions move by one message that is read, wanted or not, and go back to the
      committed offsets on connecting. */
  lemma PositionMoves(cfg: Config, s: State, a: Action)
    requires Enabled(cfg, s, a)
    ensures Apply(cfg, s, a).broker.position
            == match a
               case Read(p, _) => s.broker.position[p := At(s.broker.position, p) + 1]
               case ReadWhileStopping(p) => s.broker.position[p := At(s.broker.position, p) + 1]
               case Connect => s.broker.committed
               case _ => s.broker.position
  {
  }

  /** The read loop is left for good or for a new connection. */
  predicate LeavesLoop(s: State, a: Action) {
    match a
    case Read(p, _) =>
      At(s.broker.position, p) < |LogOf(s, p)| && Classify(LogOf(s, p)[At(s.broker.position, p)]).Raises?
    case ReadWhileStopping(_) => true
    case ReadError => true
    case Commit(outcome) => outcome != CommitOk
    case Cancel(_) => Connected(s)
    case ProcessDies(_) => true
    case _ => false
  }

  /** There is a producer from connecting until the loop is left, and after a failed
      connect perhaps. */
  lemma ProducerIs(cfg: Config, s: State, a: Action)
    requires Enabled(cfg, s, a) && OneFlush(s)
    ensures var t := Apply(cfg, s, a);
            && (LeavesLoop(s, a) ==> !t.producer && !Connected(t))
            && (a == Connect ==> t.producer && t.task == Reading)
            && (a.ConnectFails? ==> t.producer == a.leavesProducer && t.task == s.task)
            && (!LeavesLoop(s, a) && a != Connect && !a.ConnectFails? ==> t.producer == s.producer)
  {
  }

  /** Death of the process leaves only the broker's offsets and what became of the messages. */
  lemma DeathLeaves(cfg: Config, s: State, applied: bool)
    ensures var t := Apply(cfg, s, ProcessDies(applied));
            && t.fate == s.fate && t.broker.log == s.broker.log
            && t.buffer == [] && t.flight == Grounded && !t.running && t.task == Ended && t.stopper == Stopped
            && t.metrics == NO_METRICS
  {
  }

  /** Stopping: first what waits is flushed, then the coroutine is cancelled, and a batch it
      had in flight is dropped. */
  lemma StopSteps(cfg: Config, s: State, applied: bool)
    requires OneFlush(s)
    ensures Enabled(cfg, s, StopCalled) ==>
              var t := Apply(cfg, s, StopCalled);
              && !t.running && t.buffer == [] && t.task == s.task
              && (if s.buffer == [] then t.stopper == Closing && t.flight == s.flight
                  else t.stopper == FinalFlush && t.flight == Flight(s.buffer, 0, 0))
    ensures Enabled(cfg, s, Cancel(applied)) ==>
              var t := Apply(cfg, s, Cancel(applied));
              && t.task == Ended && t.stopper == Stopped && t.flight == Grounded && t.fate == s.fate
              && t.metrics == s.metrics.(abandoned := s.metrics.abandoned
                                          + if s.task == Flushing then |s.flight.batch| - s.flight.sent else 0)
  {
  }
}
