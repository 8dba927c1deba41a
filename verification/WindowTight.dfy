/** The window bound is exact: for every window, every number of publishers and every minimum some
    run with honest followers reaches it. */
module WindowTight {
  import opened Base
  import opened ReplBuffer
  import opened ReplServer
  import opened Protocol
  import opened WindowProof
  import opened DeliveryProof

  /** The publishers under way are lo, ..., hi - 1, all past the window check. */
  ghost predicate Batch(s: State, t: Topic, data: Bytes, lo: nat, hi: nat) {
    forall p: PubId :: if lo <= p < hi then p in s.pubs && s.pubs[p] == Admitted(t, data) else p !in s.pubs
  }

  /** No tick so far, `n` messages numbered, and `a` the only acknowledgement if not 0. */
  ghost predicate Quiet(s: State, t: Topic, n: nat, a: uint64) {
    && s.tick.Idle? && s.ack == (if a == 0 then map[] else map[t := map["n" := a]])
    && SeqOf(s.rep, t) == n == |Given(s, t)|
  }

  ghost predicate Calm(s: State, t: Topic, data: Bytes, lo: nat, hi: nat, n: nat, a: uint64) {
    Quiet(s, t, n, a) && Batch(s, t, data, lo, hi)
  }

  /** The run so far is within the limits and its followers are honest. */
  ghost predicate Good(c: Config, steps: seq<Step>, t: Topic, k: nat, m: nat) {
    Limits(c, steps, t, k, m) && AllHonest(c, steps)
  }

  function Range(lo: nat, hi: nat): (r: set<PubId>)
    ensures forall p :: p in r <==> lo <= p < hi
    ensures lo <= hi ==> |r| == hi - lo
  {
    if hi <= lo then {} else Range(lo, hi - 1) + {hi - 1}
  }

  lemma BatchSize(s: State, t: Topic, data: Bytes, lo: nat, hi: nat)
    requires lo <= hi && Batch(s, t, data, lo, hi)
    ensures |AdmittedOn(s, t)| == hi - lo
  {
    assert AdmittedOn(s, t) == Range(lo, hi);
  }

  lemma Append(c: Config, steps: seq<Step>, step: Step, t: Topic, k: nat, m: nat)
    requires Good(c, steps, t, k, m) && |AdmittedOn(Do(c, After(c, steps), step), t)| <= k
    requires MinsAtMost(Do(c, After(c, steps), step), t, m)
    requires step.Ack? ==> ReceivedBy(After(c, steps).wire, step.node, step.topic, step.num)
    ensures After(c, steps + [step]) == Do(c, After(c, steps), step)
    ensures Good(c, steps + [step], t, k, m)
  {
    hide Do, AdmittedOn, AllHonest, MinsAtMost, ReceivedBy;
    Go(c, steps, step);
    assert (steps + [step])[..|steps|] == steps;
  }

  lemma OneMin(c: Config, s: State, t: Topic, n: nat, a: uint64)
    requires Quiet(s, t, n, a) && (a > 0 ==> c.grpc)
    ensures Cutoff(Readable(c, s), t) == a
  {
    CutoffIsMin(Readable(c, s), t);
    assert a > 0 ==> "n" in s.ack[t];
  }

  lemma EnterStates(c: Config, s: State, t: Topic, data: Bytes, lo: nat, hi: nat, n: nat, a: uint64, m: nat)
    requires Calm(s, t, data, lo, hi, n, a) && (a > 0 ==> c.grpc)
    requires n < a + Window(c) && n < I64 && a < I64 && a <= m && lo <= hi
    ensures var s1 := Do(c, s, Begin(hi, t, data));
            var s2 := Do(c, s1, ReadAcks(hi));
            var s3 := Do(c, s2, CheckWindow(hi));
            && |AdmittedOn(s1, t)| == |AdmittedOn(s2, t)| == hi - lo && |AdmittedOn(s3, t)| == hi + 1 - lo
            && MinsAtMost(s1, t, m) && MinsAtMost(s2, t, m) && MinsAtMost(s3, t, m)
            && Calm(s3, t, data, lo, hi + 1, n, a) && s3.wire == s.wire
  {
    var s1 := Do(c, s, Begin(hi, t, data));
    var s2 := Do(c, s1, ReadAcks(hi));
    var s3 := Do(c, s2, CheckWindow(hi));
    OneMin(c, s, t, n, a);
    IntDiffExactIff(n, a);
    Admission(c, s, hi, t, data);
    hide Do, Window;
    BatchAndOne(s1, t, data, lo, hi, m);
    BatchAndOne(s2, t, data, lo, hi, m);
    BatchSize(s3, t, data, lo, hi + 1);
  }

  /** A batch and one more publisher that has not passed the check yet. */
  lemma BatchAndOne(s: State, t: Topic, data: Bytes, lo: nat, hi: nat, m: nat)
    requires lo <= hi && hi in s.pubs && Batch(s.(pubs := s.pubs - {hi}), t, data, lo, hi)
    requires !s.pubs[hi].Admitted? && (s.pubs[hi].HasMin? ==> s.pubs[hi].min <= m)
    ensures |AdmittedOn(s, t)| == hi - lo && MinsAtMost(s, t, m)
  {
    var s0 := s.(pubs := s.pubs - {hi});
    BatchSize(s0, t, data, lo, hi);
    assert AdmittedOn(s, t) == AdmittedOn(s0, t);
    forall p | p in s.pubs && p != hi ensures s.pubs[p].Admitted? {
      assert p in s0.pubs;
    }
  }

  /** One more publisher passes the check. */
  lemma Enter(c: Config, steps: seq<Step>, t: Topic, data: Bytes, lo: nat, hi: nat, n: nat, a: uint64, k: nat, m: nat)
    returns (more: seq<Step>)
    requires Good(c, steps, t, k, m) && Calm(After(c, steps), t, data, lo, hi, n, a) && (a > 0 ==> c.grpc)
    requires n < a + Window(c) && n < I64 && a < I64 && a <= m && lo <= hi && hi + 1 - lo <= k
    ensures Good(c, more, t, k, m) && Calm(After(c, more), t, data, lo, hi + 1, n, a)
    ensures After(c, more).wire == After(c, steps).wire
  {
    hide Do, AdmittedOn, Calm, Window, MinsAtMost, Good;
    var begin, read, check := Begin(hi, t, data), ReadAcks(hi), CheckWindow(hi);
    EnterStates(c, After(c, steps), t, data, lo, hi, n, a, m);
    Append(c, steps, begin, t, k, m);
    Append(c, steps + [begin], read, t, k, m);
    more := steps + [begin] + [read];
    Append(c, more, check, t, k, m);
    more := more + [check];
  }

  lemma NumberSend(c: Config, s: State, t: Topic, data: Bytes, p: PubId, n: nat, a: uint64)
    requires Quiet(s, t, n, a) && p in s.pubs && s.pubs[p] == Admitted(t, data) && n < U64 - 1
    ensures var s1 := Do(c, s, Number(p));
            var s2 := Do(c, s1, Send(p, {}));
            && Quiet(s2, t, n + 1, a) && s2.pubs == s.pubs - {p}
            && s2.wire == if c.grpc then Broadcast(s.wire, Msg(t, data, n + 1), {}) else s.wire
  {
  }

  /** The longest-waiting publisher is numbered and broadcasts. */
  lemma Leave(c: Config, steps: seq<Step>, t: Topic, data: Bytes, lo: nat, hi: nat, n: nat, a: uint64, k: nat, m: nat)
    returns (more: seq<Step>)
    requires Good(c, steps, t, k, m) && Calm(After(c, steps), t, data, lo, hi, n, a)
    requires lo < hi && n < U64 - 1
    ensures Good(c, more, t, k, m) && Calm(After(c, more), t, data, lo + 1, hi, n + 1, a)
    ensures var w := After(c, steps).wire;
            After(c, more).wire == if c.grpc then Broadcast(w, Msg(t, data, n + 1), {}) else w
  {
    var s0 := After(c, steps);
    var number, send := Number(lo), Send(lo, {});
    var s1 := Do(c, s0, number);
    var s2 := Do(c, s1, send);
    AdmittedStep(c, s0, number, t);
    AdmittedStep(c, s1, send, t);
    NumberSend(c, s0, t, data, lo, n, a);
    hide Do, AdmittedOn, Quiet;
    Append(c, steps, number, t, k, m);
    more := steps + [number];
    Append(c, more, send, t, k, m);
    more := more + [send];
  }

  /** Node "n" has received all that was sent to it. */
  ghost predicate Listening(w: Wire) {
    0 in w.subs && 0 in w.streams && w.streams[0].node == "n" && w.streams[0].received == |w.streams[0].sent|
  }

  lemma ReceiveLast(w: Wire, w1: Wire, msg: Msg)
    requires Listening(w) && w1 == Broadcast(w, msg, {})
    ensures 0 in w1.streams && w1.streams[0].received < |w1.streams[0].sent|
    ensures Listening(ReceiveOne(w1, 0)) && ReceivedBy(ReceiveOne(w1, 0), "n", msg.topic, msg.num)
  {
    var st := ReceiveOne(w1, 0).streams[0];
    assert st.sent[|st.sent| - 1] == msg;
    assert ReceivedOn(ReceiveOne(w1, 0), 0, "n", msg.topic, msg.num);
  }

  lemma AckStates(c: Config, s: State, t: Topic, n: nat, a: uint64)
    requires c.grpc && t != "" && Quiet(s, t, n, a) && Enabled(c, s, Receive(0)) && 0 < n < U64
    ensures var s1 := Do(c, s, Receive(0));
            var s2 := Do(c, s1, Ack(t, "n", n));
            Quiet(s2, t, n, n) && s2.pubs == s1.pubs == s.pubs && s2.wire == s1.wire == ReceiveOne(s.wire, 0)
  {
    var nodes: NodeAcks := At(s.ack, t, map[]);
    assert nodes["n" := n] == map["n" := n];
    assert s.ack[t := nodes["n" := n]] == map[t := map["n" := n]];
  }

  /** One message is published, received and acknowledged. */
  lemma PublishAndAck(c: Config, steps: seq<Step>, t: Topic, data: Bytes, n: nat, k: nat, m: nat)
    returns (more: seq<Step>)
    requires c.grpc && t != "" && n < m < I64 && 1 <= k
    requires Good(c, steps, t, k, m) && Calm(After(c, steps), t, data, n, n, n, n) && Listening(After(c, steps).wire)
    ensures Good(c, more, t, k, m) && Calm(After(c, more), t, data, n + 1, n + 1, n + 1, n + 1)
    ensures Listening(After(c, more).wire)
  {
    hide Do, Quiet, Good, Broadcast, ReceiveOne, ReceivedBy;
    more := Enter(c, steps, t, data, n, n, n, n, k, m);
    more := Leave(c, more, t, data, n, n + 1, n, n, k, m);
    var s := After(c, more);
    ReceiveLast(After(c, steps).wire, s.wire, Msg(t, data, n + 1));
    AckStates(c, s, t, n + 1, n);
    BatchSize(s, t, data, n + 1, n + 1);
    assert AdmittedOn(Do(c, s, Receive(0)), t) == AdmittedOn(s, t);
    Append(c, more, Receive(0), t, k, m);
    more := more + [Receive(0)];
    Append(c, more, Ack(t, "n", n + 1), t, k, m);
    more := more + [Ack(t, "n", n + 1)];
  }

  lemma Beginning(c: Config, t: Topic, data: Bytes, k: nat, m: nat) returns (steps: seq<Step>)
    requires c.boot == EMPTY_REP && (m > 0 ==> c.grpc)
    ensures Good(c, steps, t, k, m) && Calm(After(c, steps), t, data, 0, 0, 0, 0)
    ensures m > 0 ==> Listening(After(c, steps).wire)
  {
    var open := Open(0, "n");
    steps := [];
    assert AdmittedOn(Start(c), t) == {};
    if m > 0 {
      assert AdmittedOn(Do(c, Start(c), open), t) == {};
      Append(c, steps, open, t, k, m);
      steps := steps + [open];
    }
  }

  /** `n` messages published one after another, the first `m` of them acknowledged. */
  lemma {:induction false} PublishInTurn(c: Config, t: Topic, data: Bytes, n: nat, k: nat, m: nat)
    returns (steps: seq<Step>)
    requires c.boot == EMPTY_REP && (m > 0 ==> c.grpc && t != "")
    requires n < m + Window(c) < I64 && 1 <= k
    ensures Good(c, steps, t, k, m) && Calm(After(c, steps), t, data, n, n, n, if n < m then n else m)
    ensures 0 < m && n <= m ==> Listening(After(c, steps).wire)
  {
    hide Window, Good, Calm, Listening;
    if n == 0 {
      steps := Beginning(c, t, data, k, m);
    } else {
      steps := PublishInTurn(c, t, data, n - 1, k, m);
      if n <= m {
        steps := PublishAndAck(c, steps, t, data, n - 1, k, m);
      } else {
        steps := Enter(c, steps, t, data, n - 1, n - 1, n - 1, m, k, m);
        steps := Leave(c, steps, t, data, n - 1, n, n - 1, m, k, m);
      }
    }
  }

  /** `j` more publishers pass the check before any of them is numbered. */
  lemma {:induction false} PassTogether(c: Config, t: Topic, data: Bytes, n: nat, j: nat, k: nat, m: nat)
    returns (steps: seq<Step>)
    requires c.boot == EMPTY_REP && (m > 0 ==> c.grpc && t != "")
    requires m <= n < m + Window(c) < I64 && 1 <= k && j <= k
    ensures Good(c, steps, t, k, m) && Calm(After(c, steps), t, data, n, n + j, n, m)
  {
    if j == 0 {
      steps := PublishInTurn(c, t, data, n, k, m);
    } else {
      steps := PassTogether(c, t, data, n, j - 1, k, m);
      steps := Enter(c, steps, t, data, n, n + j - 1, n, m, k, m);
    }
  }

  lemma {:induction false} NumberAll(c: Config, t: Topic, data: Bytes, n: nat, j: nat, k: nat, m: nat)
    returns (steps: seq<Step>)
    requires c.boot == EMPTY_REP && (m > 0 ==> c.grpc && t != "")
    requires m <= n < m + Window(c) && m + Window(c) + k < I64 && 1 <= k && j <= k
    ensures Good(c, steps, t, k, m) && Calm(After(c, steps), t, data, n + j, n + k, n + j, m)
  {
    if j == 0 {
      steps := PassTogether(c, t, data, n, k, k, m);
    } else {
      steps := NumberAll(c, t, data, n, j - 1, k, m);
      steps := Leave(c, steps, t, data, n + j - 1, n + k, n + j - 1, m, k, m);
    }
  }

  /** Main result: for every m, with honest followers, some run of a fresh process reaches
      m + window + k - 1. Without acknowledgements m can only be 0. */
  lemma WindowBoundReached(c: Config, t: Topic, data: Bytes, k: nat, m: nat) returns (steps: seq<Step>)
    requires c.boot == EMPTY_REP && (m > 0 ==> c.grpc && t != "")
    requires 1 <= k && m + Window(c) + k < I64
    ensures Limits(c, steps, t, k, m) && AllHonest(c, steps)
    ensures SeqOf(After(c, steps).rep, t) == m + (if c.window > 0 then c.window else 1024) + k - 1
  {
    steps := NumberAll(c, t, data, m + Window(c) - 1, k, k, m);
  }
}
