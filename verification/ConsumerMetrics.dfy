/** The consumer's own counters: every message it read is in exactly one place. */
module ConsumerMetrics {
  import opened Decoding
  import opened DeliveryProtocol
  import opened Options

  function InFlight(s: State): int {
    if s.flight.Flight? then |s.flight.batch| - s.flight.sent else 0
  }

  /** Every message read in this process's life is in exactly one place. */
  predicate Balanced(cfg: Config, s: State) {
    && s.metrics.consumed == s.metrics.rejected + |s.buffer| + InFlight(s) + s.metrics.written
                             + s.metrics.offered + s.metrics.skipped + s.metrics.raised + s.metrics.abandoned
    && s.metrics.dlq <= s.metrics.offered
    && (cfg.batchSize >= 1 ==> |s.buffer| < cfg.batchSize)
    && (s.flight.Flight? && s.flight.failed < cfg.maxRetries ==> s.flight.sent == 0)
  }

  lemma ReceivedKeepsBalance(cfg: Config, s: State, p: string, due: bool, verdict: Verdict)
    requires OneFlush(s) && Balanced(cfg, s) && Enabled(cfg, s, Read(p, due))
    ensures Balanced(cfg, Received(cfg, s, p, due, verdict))
  {
  }

  lemma FlushStepKeepsBalance(cfg: Config, s: State, a: Action)
    requires OneFlush(s) && Balanced(cfg, s) && Enabled(cfg, s, a) && FlushStep(a)
    ensures Balanced(cfg, Apply(cfg, s, a))
  {
  }

  lemma OthersKeepBalance(cfg: Config, s: State, a: Action)
    requires OneFlush(s) && Balanced(cfg, s) && Enabled(cfg, s, a) && !a.Read? && !FlushStep(a)
    ensures Balanced(cfg, Apply(cfg, s, a))
  {
  }

  /** The metrics balance in every state of every run. */
  lemma {:induction false} RunKeepsBalance(cfg: Config, s: State, acts: seq<Action>)
    requires Inv(s) && Balanced(cfg, s) && Exec(cfg, s, acts).Some?
    ensures Balanced(cfg, Exec(cfg, s, acts).value)
    decreases |acts|
  {
    if acts != [] {
      var a := acts[0];
      StepKeepsInv(cfg, s, a);
      match a {
        case Read(p, due) => ReceivedKeepsBalance(cfg, s, p, due, Classify(LogOf(s, p)[At(s.broker.position, p)]));
        case _ => if FlushStep(a) { FlushStepKeepsBalance(cfg, s, a); } else { OthersKeepBalance(cfg, s, a); }
      }
      RunKeepsBalance(cfg, Apply(cfg, s, a), acts[1..]);
    }
  }

  predicate Harmless(a: Action) {
    !a.StopCalled? && (a.Produce? ==> !Classify(a.message).Raises?)
  }

  ghost predicate NothingRaises(s: State) {
    forall p, o :: 0 <= o < |LogOf(s, p)| ==> !Classify(LogOf(s, p)[o]).Raises?
  }

  ghost predicate Unharmed(s: State) {
    && NothingRaises(s)
    && (s.stopper == NotStopping || s.stopper == Stopped)
    && s.metrics.raised == s.metrics.skipped == s.metrics.abandoned == 0
  }

  lemma HarmlessStep(cfg: Config, s: State, a: Action)
    requires Inv(s) && Unharmed(s) && Harmless(a) && Enabled(cfg, s, a)
    ensures Unharmed(Apply(cfg, s, a))
  {
    var t := Apply(cfg, s, a);
    forall p, o | 0 <= o < |LogOf(t, p)|
      ensures !Classify(LogOf(t, p)[o]).Raises?
    {
      if a.Produce? && p == a.partition && o == |LogOf(s, p)| {
        assert LogOf(t, p)[o] == a.message;
      } else {
        assert LogOf(t, p)[o] == LogOf(s, p)[o];
      }
    }
  }

  lemma {:induction false} HarmlessRun(cfg: Config, s: State, acts: seq<Action>)
    requires Inv(s) && Unharmed(s) && Exec(cfg, s, acts).Some?
    requires forall i :: 0 <= i < |acts| ==> Harmless(acts[i])
    ensures Unharmed(Exec(cfg, s, acts).value)
    decreases |acts|
  {
    if acts != [] {
      assert Harmless(acts[0]);
      StepKeepsInv(cfg, s, acts[0]);
      HarmlessStep(cfg, s, acts[0]);
      forall i | 0 <= i < |acts[1..]| ensures Harmless(acts[1..][i]) { assert acts[1..][i] == acts[i + 1]; }
      HarmlessRun(cfg, Apply(cfg, s, acts[0]), acts[1..]);
    }
  }

  /** The metrics balance at every loop head of a run without `stop` whose
      messages all decode to objects, reconnects and lost commits included. */
  lemma ConsumerAccounting(cfg: Config, s: State, acts: seq<Action>)
    requires Init(s) && cfg.batchSize >= 1 && NothingRaises(s) && Exec(cfg, s, acts).Some?
    requires forall i :: 0 <= i < |acts| ==> Harmless(acts[i])
    requires Exec(cfg, s, acts).value.task == Reading
    ensures var t := Exec(cfg, s, acts).value;
            && t.metrics.consumed == t.metrics.rejected + |t.buffer| + t.metrics.written + t.metrics.offered
            && t.metrics.dlq <= t.metrics.offered
            && |t.buffer| < cfg.batchSize
  {
    RunKeepsInv(cfg, s, acts);
    RunKeepsBalance(cfg, s, acts);
    HarmlessRun(cfg, s, acts);
  }
}
