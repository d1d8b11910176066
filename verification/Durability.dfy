/** What a commit does not promise, and exactly when a committed event is kept
    somewhere. */
module Durability {
  import opened Decoding
  import opened DeliveryProtocol
  import opened Options

  /** Stored, refused, or acknowledged by the dead-letter topic. */
  predicate Durable(s: State, src: Source) {
    src in s.fate.handled || src in s.fate.refused || src in s.fate.acked
  }

  predicate SendFails(a: Action) {
    a == DlqSend(false)
  }

  lemma {:induction false} UnackedGrowsByFailedSends(cfg: Config, s: State, acts: seq<Action>)
    requires Exec(cfg, s, acts).Some?
    requires forall i :: 0 <= i < |acts| ==> !SendFails(acts[i])
    ensures Exec(cfg, s, acts).value.fate.unacked == s.fate.unacked
    decreases |acts|
  {
    if acts != [] {
      assert !SendFails(acts[0]);
      forall i | 0 <= i < |acts[1..]| ensures !SendFails(acts[1..][i]) { assert acts[1..][i] == acts[i + 1]; }
      UnackedGrowsByFailedSends(cfg, Apply(cfg, s, acts[0]), acts[1..]);
    }
  }

  /** A run in which no dead-letter send fails loses nothing that it commits. */
  lemma CommittedIsDurable(cfg: Config, s: State, acts: seq<Action>, src: Source)
    requires Init(s) && s.fate.unacked == {} && Exec(cfg, s, acts).Some?
    requires forall i :: 0 <= i < |acts| ==> !SendFails(acts[i])
    requires Below(Exec(cfg, s, acts).value.broker.committed, src)
    ensures Durable(Exec(cfg, s, acts).value, src)
  {
    CommitNeverOvertakes(cfg, s, acts, src);
    UnackedGrowsByFailedSends(cfg, s, acts);
  }

  /** One event in a flush by the coroutine, nothing stored, refused or acknowledged yet. */
  predicate LoneFlight(s: State, p: string, failed: nat) {
    && s.flight.Flight? && |s.flight.batch| == 1 && s.flight.batch[0].src == Source(p, 0)
    && s.flight.failed == failed && s.flight.sent == 0
    && s.task == Flushing && s.stopper == NotStopping && s.producer
    && At(s.broker.position, p) == 1 && s.fate.handled == s.fate.refused == s.fate.acked == {}
  }

  /** And the condition is needed, whatever the configuration: storage down for
      every attempt plus one failed dead-letter send commits an event kept nowhere. */
  lemma FailedSendLosesCommittedEvent(cfg: Config, s: State, p: string, m: Message)
    returns (acts: seq<Action>)
    requires Init(s) && s.broker.log == map[] && s.broker.committed == map[]
    requires s.fate.handled == s.fate.refused == s.fate.acked == {}
    requires Classify(m).Accepted?
    ensures Exec(cfg, s, acts).Some?
    ensures var t := Exec(cfg, s, acts).value;
            Below(t.broker.committed, Source(p, 0)) && !Durable(t, Source(p, 0))
  {
    var n := if cfg.maxRetries > 0 then cfg.maxRetries else 0;
    var opening, s1 := ReadsOne(cfg, s, p, m);
    var attempts := seq(n, _ => Attempt(false));
    FailedAttempts(cfg, s1, n);
    var loses := SendFailsThenCommits(cfg, Exec(cfg, s1, attempts).value, p, n);
    ExecAppend(cfg, s1, attempts, loses);
    ExecAppend(cfg, s, opening, attempts + loses);
    acts := opening + (attempts + loses);
  }

  lemma ReadsOne(cfg: Config, s: State, p: string, m: Message)
    returns (acts: seq<Action>, t: State)
    requires Init(s) && s.broker.log == map[] && s.broker.committed == map[]
    requires s.fate.handled == s.fate.refused == s.fate.acked == {}
    requires Classify(m).Accepted?
    ensures Exec(cfg, s, acts) == Some(t) && LoneFlight(t, p, 0)
  {
    var s1 := Apply(cfg, s, Produce(p, m));
    var s2 := Apply(cfg, s1, Start);
    var s3 := Apply(cfg, s2, Connect);
    assert LogOf(s3, p) == [m];
    t := Received(cfg, s3, p, true, Classify(m));
    acts := Then(cfg, s3, Read(p, true), []);
    acts := Then(cfg, s2, Connect, acts);
    acts := Then(cfg, s1, Start, acts);
    acts := Then(cfg, s, Produce(p, m), acts);
  }

  lemma SendFailsThenCommits(cfg: Config, s: State, p: string, n: nat) returns (acts: seq<Action>)
    requires LoneFlight(s, p, n) && n >= cfg.maxRetries
    ensures Exec(cfg, s, acts).Some?
    ensures var t := Exec(cfg, s, acts).value;
            Below(t.broker.committed, Source(p, 0)) && !Durable(t, Source(p, 0))
  {
    var s1 := Apply(cfg, s, DlqSend(false));
    var s2 := Apply(cfg, s1, DlqDone);
    acts := Then(cfg, s2, Commit(CommitOk), []);
    acts := Then(cfg, s1, DlqDone, acts);
    acts := Then(cfg, s, DlqSend(false), acts);
  }

  lemma {:induction false} FailedAttempts(cfg: Config, s: State, n: nat)
    requires n == 0 || (s.flight.Flight? && s.flight.sent == 0 && s.flight.failed + n <= cfg.maxRetries)
    ensures Exec(cfg, s, seq(n, _ => Attempt(false)))
            == Some(if n == 0 then s else s.(flight := s.flight.(failed := s.flight.failed + n)))
    decreases n
  {
    if n > 0 {
      assert seq(n, _ => Attempt(false))[1..] == seq(n - 1, _ => Attempt(false));
      FailedAttempts(cfg, Apply(cfg, s, Attempt(false)), n - 1);
    }
  }

  /** A run from start-up whose dead-letter sends fail only if they `mayFail`. */
  ghost predicate Possible(cfg: Config, mayFail: bool, s: State, acts: seq<Action>) {
    && Init(s) && s.fate.unacked == {} && Exec(cfg, s, acts).Some?
    && (mayFail || forall i :: 0 <= i < |acts| ==> !SendFails(acts[i]))
  }

  /** Whatever the run has committed is kept. */
  ghost predicate CommitsKept(cfg: Config, s: State, acts: seq<Action>)
    requires Exec(cfg, s, acts).Some?
  {
    var t := Exec(cfg, s, acts).value;
    forall src :: Below(t.broker.committed, src) ==> Durable(t, src)
  }

  ghost predicate KeepsCommitted(cfg: Config, mayFail: bool) {
    forall s: State, acts: seq<Action> :: Possible(cfg, mayFail, s, acts) ==> CommitsKept(cfg, s, acts)
  }

  /** For every configuration, all runs keep what they commit if and only if dead-letter
      sends cannot fail. */
  lemma KeepsCommittedIff(cfg: Config, mayFail: bool)
    ensures KeepsCommitted(cfg, mayFail) <==> !mayFail
  {
    if mayFail {
      var m := Message(Some(2), true, Loaded(Object(map[])), None, NoSuffix);
      var s := State(Broker(map[], map[], map[]), false, Ended, Stopped, false, [], Grounded, NO_METRICS,
                     Fate({}, {}, {}, {}, []));
      var acts := FailedSendLosesCommittedEvent(cfg, s, "", m);
      assert Possible(cfg, mayFail, s, acts) && !CommitsKept(cfg, s, acts);
    } else {
      forall s: State, acts: seq<Action> | Possible(cfg, mayFail, s, acts) ensures CommitsKept(cfg, s, acts) {
        forall src | Below(Exec(cfg, s, acts).value.broker.committed, src)
          ensures Durable(Exec(cfg, s, acts).value, src)
        {
          CommittedIsDurable(cfg, s, acts, src);
        }
      }
    }
  }

  // ---- a message that raises ----

  /** Offset o of p holds a message whose decoding raises, and no connected consumer
      has read past it, nor has the group committed past it. */
  predicate Blocked(s: State, p: string, o: nat) {
    && o < |LogOf(s, p)| && Classify(LogOf(s, p)[o]).Raises?
    && At(s.broker.committed, p) <= o && (Connected(s) ==> At(s.broker.position, p) <= o)
  }

  lemma ReadKeepsBlocked(cfg: Config, s: State, q: string, due: bool, p: string, o: nat)
    requires Blocked(s, p, o) && Enabled(cfg, s, Read(q, due))
    ensures Blocked(Apply(cfg, s, Read(q, due)), p, o)
  {
    var verdict := Classify(LogOf(s, q)[At(s.broker.position, q)]);
    var t := Received(cfg, s, q, due, verdict);
    assert t.broker.position == s.broker.position[q := At(s.broker.position, q) + 1];
    assert Connected(t) ==> !verdict.Raises?;
  }

  lemma OthersKeepBlocked(cfg: Config, s: State, a: Action, p: string, o: nat)
    requires Blocked(s, p, o) && Enabled(cfg, s, a) && !a.Read? && !a.Produce? && !FlushStep(a)
    ensures Blocked(Apply(cfg, s, a), p, o)
  {
    var t := Apply(cfg, s, a);
    assert t.broker.log == s.broker.log;
    assert t.broker.committed == s.broker.committed
           || (Connected(s) && t.broker.committed == s.broker.committed + s.broker.position);
  }

  lemma FlushKeepsBroker(cfg: Config, s: State, a: Action)
    requires Enabled(cfg, s, a) && FlushStep(a)
    ensures Apply(cfg, s, a).broker == s.broker && Connected(Apply(cfg, s, a)) == Connected(s)
  {
  }

  /** Such a message stops its partition for ever: no run commits past it, whatever
      restarts and reconnects it has. `Decoding.RaisesIff` says which messages these are. */
  lemma {:induction false} NoCommitPastRaising(cfg: Config, s: State, acts: seq<Action>, p: string, o: nat)
    requires Blocked(s, p, o) && Exec(cfg, s, acts).Some?
    ensures Blocked(Exec(cfg, s, acts).value, p, o)
    decreases |acts|
  {
    if acts != [] {
      var a := acts[0];
      if a.Read? {
        ReadKeepsBlocked(cfg, s, a.partition, a.flushDue, p, o);
      } else if a.Produce? {
        assert LogOf(s, p) <= LogOf(Apply(cfg, s, a), p);
      } else if FlushStep(a) {
        FlushKeepsBroker(cfg, s, a);
      } else {
        OthersKeepBlocked(cfg, s, a, p, o);
      }
      NoCommitPastRaising(cfg, Apply(cfg, s, a), acts[1..], p, o);
    }
  }
}
