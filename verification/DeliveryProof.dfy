/** What an acknowledgement says about delivery. */
module DeliveryProof {
  import opened Base
  import opened ReplBuffer
  import opened ReplServer
  import opened Protocol
  import opened BufferProof
  import opened StreamProof

  ghost predicate NumberedOn(s: State, p: PubId, t: Topic) {
    p in s.pubs && s.pubs[p].Numbered? && s.pubs[p].topic == t
  }

  /** At most one publisher of the topic is between numbering and broadcasting. */
  ghost predicate Serial(s: State, t: Topic) {
    forall p, q :: NumberedOn(s, p, t) && NumberedOn(s, q, t) ==> p == q
  }

  /** ... in every state of the run. */
  ghost predicate SerialRun(c: Config, steps: seq<Step>, t: Topic) {
    Serial(After(c, steps), t) && (steps != [] ==> SerialRun(c, steps[..|steps| - 1], t))
  }

  /** Number `n` of the topic was broadcast at a position in [from, to). */
  ghost predicate OnWire(log: seq<Msg>, from: int, to: int, t: Topic, n: int) {
    exists j :: 0 <= from <= j < to <= |log| && log[j].topic == t && log[j].num == n
  }

  ghost predicate Pending(s: State, t: Topic, n: int) {
    exists p :: NumberedOn(s, p, t) && s.pubs[p].num == n
  }

  /** Only the newest number can still be waiting for its first broadcast. */
  ghost predicate NewestPending(s: State, t: Topic) {
    forall p :: NumberedOn(s, p, t) ==> s.pubs[p].num == |Given(s, t)|
  }

  /** Seen from position `from`, when the topic stood at `b`: no number above `b` is broadcast
      before all the numbers between, and all but a pending one have been broadcast. */
  ghost predicate Ordered(log: seq<Msg>, from: int, t: Topic, b: int) {
    forall i, r :: 0 <= from <= i < |log| && log[i].topic == t && b < r < log[i].num ==> OnWire(log, from, i, t, r)
  }

  ghost predicate Complete(s: State, from: int, t: Topic, b: int) {
    forall r :: b < r <= |Given(s, t)| && !Pending(s, t, r) ==> OnWire(s.wire.log, from, |s.wire.log|, t, r)
  }

  ghost predicate Gapless(s: State, from: int, t: Topic, b: int) {
    0 <= from <= |s.wire.log| && Ordered(s.wire.log, from, t, b) && Complete(s, from, t, b)
  }

  lemma OnWireExtends(log: seq<Msg>, log': seq<Msg>, from: int, to: int, to': int, t: Topic, n: int)
    requires log <= log' && to <= to' <= |log'| && OnWire(log, from, to, t, n)
    ensures OnWire(log', from, to', t, n)
  {
  }

  /** One more broadcast keeps the order if everything below it is already out. */
  lemma BroadcastKeepsOrder(log: seq<Msg>, m: Msg, from: int, t: Topic, b: int)
    requires 0 <= from <= |log| && Ordered(log, from, t, b)
    requires m.topic == t ==> forall r :: b < r < m.num ==> OnWire(log, from, |log|, t, r)
    ensures Ordered(log + [m], from, t, b)
  {
    var log' := log + [m];
    forall i, r | from <= i < |log'| && log'[i].topic == t && b < r < log'[i].num
      ensures OnWire(log', from, i, t, r)
    {
      OnWireExtends(log, log', from, i, i, t, r);
    }
  }

  /** Completeness survives a step that broadcasts or adds nothing but the message `p` sends. */
  lemma CompleteStep(s: State, s': State, from: int, t: Topic, b: int)
    requires Complete(s, from, t, b) && s.wire.log <= s'.wire.log
    requires forall r :: b < r <= |Given(s', t)| && !Pending(s', t, r) ==>
      (r <= |Given(s, t)| && !Pending(s, t, r)) || OnWire(s'.wire.log, from, |s'.wire.log|, t, r)
    ensures Complete(s', from, t, b)
  {
  }

  /** How the set of numbered publishers of a topic changes. */
  lemma PendingStep(c: Config, s: State, step: Step, t: Topic)
    requires Counted(s, t) && |Given(Do(c, s, step), t)| < U64
    ensures var s' := Do(c, s, step);
            if Enabled(c, s, step) && step.Number? && s.pubs[step.p].topic == t
            then |Given(s', t)| == |Given(s, t)| + 1 && NumberedOn(s', step.p, t)
                 && s'.pubs[step.p].num == |Given(s', t)|
                 && forall q :: NumberedOn(s', q, t) ==> q == step.p || (NumberedOn(s, q, t) && s'.pubs[q] == s.pubs[q])
            else Given(s', t) == Given(s, t)
                 && forall q :: NumberedOn(s', q, t) ==> NumberedOn(s, q, t) && s'.pubs[q] == s.pubs[q]
    ensures var s' := Do(c, s, step);
            forall q :: NumberedOn(s, q, t) && !(step.Send? && step.p == q) ==>
              NumberedOn(s', q, t) && s'.pubs[q] == s.pubs[q]
  {
  }

  lemma NewestPendingStep(c: Config, s: State, step: Step, t: Topic)
    requires Counted(s, t) && |Given(Do(c, s, step), t)| < U64
    requires NewestPending(s, t) && Serial(Do(c, s, step), t)
    ensures NewestPending(Do(c, s, step), t)
  {
    PendingStep(c, s, step, t);
    hide Do;
  }

  lemma LogStep(c: Config, s: State, step: Step) returns (ms: seq<Msg>)
    ensures Do(c, s, step).wire.log == s.wire.log + ms && |ms| <= 1
    ensures ms != [] && step.Send? ==>
            Enabled(c, s, step) && ms[0] == Msg(s.pubs[step.p].topic, s.pubs[step.p].data, s.pubs[step.p].num)
    ensures ms != [] && !step.Send? ==> ms[0].num in EntriesOf(s.rep.buf, ms[0].topic)
    ensures c.grpc && step.Send? && Enabled(c, s, step) ==> ms != []
  {
    ms := WireStepCases(c, s, step);
    hide Do, Deliver;
  }

  /** Every number is broadcast by its publisher, whatever the interleaving. */
  lemma CompleteKept(c: Config, s: State, step: Step, from: int, t: Topic, b: int)
    requires c.grpc && Counted(s, t) && |Given(Do(c, s, step), t)| < U64
    requires 0 <= from <= |s.wire.log| && Complete(s, from, t, b)
    ensures Complete(Do(c, s, step), from, t, b)
  {
    var s' := Do(c, s, step);
    var ms := LogStep(c, s, step);
    hide Do, Counted, NumberedOn, Given;
    forall r | b < r <= |Given(s', t)| && !Pending(s', t, r)
      ensures (r <= |Given(s, t)| && !Pending(s, t, r)) || OnWire(s'.wire.log, from, |s'.wire.log|, t, r)
    {
      StillPending(c, s, step, ms, from, t, r);
    }
    CompleteStep(s, s', from, t, b);
  }

  lemma GaplessStep(c: Config, s: State, step: Step, from: int, t: Topic, b: int)
    requires c.grpc && Counted(s, t) && Faithful(s, t) && NewestPending(s, t) && Serial(s, t)
    requires |Given(Do(c, s, step), t)| < U64
    requires Gapless(s, from, t, b)
    ensures Gapless(Do(c, s, step), from, t, b)
  {
    var s' := Do(c, s, step);
    var ms := LogStep(c, s, step);
    CompleteKept(c, s, step, from, t, b);
    SentIsGiven(s, step, ms, t);
    hide Do, Counted, Faithful, NumberedOn, Given;
    if ms != [] {
      assert s'.wire.log == s.wire.log + [ms[0]];
      forall r | ms[0].topic == t && b < r < ms[0].num ensures OnWire(s.wire.log, from, |s.wire.log|, t, r) {
        assert !Pending(s, t, r);
      }
      BroadcastKeepsOrder(s.wire.log, ms[0], from, t, b);
    } else {
      assert s'.wire.log == s.wire.log;
    }
  }

  lemma SentIsGiven(s: State, step: Step, ms: seq<Msg>, t: Topic)
    requires Faithful(s, t) && |ms| <= 1
    requires ms != [] && step.Send? ==>
               step.p in s.pubs && s.pubs[step.p].Numbered?
               && ms[0] == Msg(s.pubs[step.p].topic, s.pubs[step.p].data, s.pubs[step.p].num)
    requires ms != [] && !step.Send? ==> ms[0].num in EntriesOf(s.rep.buf, ms[0].topic)
    ensures ms != [] && ms[0].topic == t ==> ms[0].num <= |Given(s, t)|
  {
  }

  /** A number is waiting for its first broadcast until its publisher sends it. */
  lemma StillPending(c: Config, s: State, step: Step, ms: seq<Msg>, from: int, t: Topic, r: int)
    requires c.grpc && Counted(s, t) && |Given(Do(c, s, step), t)| < U64 && 0 <= from <= |s.wire.log|
    requires Do(c, s, step).wire.log == s.wire.log + ms
    requires step.Send? && Enabled(c, s, step) ==>
               ms == [Msg(s.pubs[step.p].topic, s.pubs[step.p].data, s.pubs[step.p].num)]
    requires r <= |Given(Do(c, s, step), t)| && !Pending(Do(c, s, step), t, r)
    ensures || (r <= |Given(s, t)| && !Pending(s, t, r))
            || OnWire(Do(c, s, step).wire.log, from, |Do(c, s, step).wire.log|, t, r)
  {
    var s' := Do(c, s, step);
    PendingStep(c, s, step, t);
    if Pending(s, t, r) {
      var q :| NumberedOn(s, q, t) && s.pubs[q].num == r;
      assert step.Send? && step.p == q;
      assert s'.wire.log[|s.wire.log|] == ms[0];
      hide Do;
    }
  }

  ghost predicate GaplessAt(s: State, id: StreamId, t: Topic)
    requires id in s.wire.streams
  {
    Gapless(s, s.wire.streams[id].openedAt, t, At(s.wire.streams[id].base, t, 0))
  }

  ghost predicate StreamsGapless(s: State, t: Topic) {
    forall id :: id in s.wire.streams ==> GaplessAt(s, id, t)
  }

  lemma OpenGapless(c: Config, s: State, step: Step, t: Topic)
    requires step.Open? && Enabled(c, s, step) && Counted(s, t) && |Given(s, t)| < U64
    ensures GaplessAt(Do(c, s, step), step.id, t)
  {
  }

  lemma StreamsGaplessStep(c: Config, s: State, step: Step, t: Topic)
    requires c.grpc && Counted(s, t) && Faithful(s, t) && NewestPending(s, t) && Serial(s, t)
    requires |Given(Do(c, s, step), t)| < U64 && StreamsGapless(s, t)
    ensures StreamsGapless(Do(c, s, step), t)
  {
    var s' := Do(c, s, step);
    LaterStep(c, s, step);
    hide Do, Counted, Faithful, NewestPending, Serial, Gapless;
    forall id | id in s'.wire.streams ensures GaplessAt(s', id, t) {
      if id in s.wire.streams {
        assert LaterAt(s.wire, s'.wire, id) && GaplessAt(s, id, t);
        GaplessStep(c, s, step, s.wire.streams[id].openedAt, t, At(s.wire.streams[id].base, t, 0));
      } else {
        GivenGrows(c, s, step, t);
        OpenGapless(c, s, step, t);
      }
    }
  }

  lemma GivenGrows(c: Config, s: State, step: Step, t: Topic)
    ensures |Given(s, t)| <= |Given(Do(c, s, step), t)|
  {
  }

  lemma {:induction false} RunsAreGapless(c: Config, steps: seq<Step>, t: Topic)
    requires c.grpc && ContiguousAt(c.boot, t) && SerialRun(c, steps, t) && |Given(After(c, steps), t)| < U64
    ensures NewestPending(After(c, steps), t) && StreamsGapless(After(c, steps), t)
  {
    hide Do, Counted, Faithful, Serial, Gapless;
    if steps != [] {
      var init, step := steps[..|steps| - 1], steps[|steps| - 1];
      var s := After(c, init);
      GivenGrows(c, s, step, t);
      RunsAreGapless(c, init, t);
      NumbersAreConsecutive(c, init, t);
      CopiesAreFaithful(c, init, t);
      NewestPendingStep(c, s, step, t);
      StreamsGaplessStep(c, s, step, t);
    }
  }

  // ----- without serialised broadcasts -----

  ghost predicate CompleteAt(s: State, id: StreamId, t: Topic)
    requires id in s.wire.streams
  {
    var st := s.wire.streams[id];
    st.openedAt <= |s.wire.log| && Complete(s, st.openedAt, t, At(st.base, t, 0))
  }

  ghost predicate StreamsComplete(s: State, t: Topic) {
    forall id :: id in s.wire.streams ==> CompleteAt(s, id, t)
  }

  lemma StreamsCompleteStep(c: Config, s: State, step: Step, t: Topic)
    requires c.grpc && Counted(s, t) && |Given(Do(c, s, step), t)| < U64 && StreamsComplete(s, t)
    ensures StreamsComplete(Do(c, s, step), t)
  {
    var s' := Do(c, s, step);
    LaterStep(c, s, step);
    StepExtends(c, s, step);
    hide Do, Counted, Complete, Given;
    forall id | id in s'.wire.streams ensures CompleteAt(s', id, t) {
      if id in s.wire.streams {
        assert LaterAt(s.wire, s'.wire, id) && CompleteAt(s, id, t);
        CompleteKept(c, s, step, s.wire.streams[id].openedAt, t, At(s.wire.streams[id].base, t, 0));
      } else {
        GivenGrows(c, s, step, t);
        OpenGapless(c, s, step, t);
        assert GaplessAt(s', id, t);
      }
    }
  }

  /** Over every run, serialised or not: each number given out after a stream was opened has been
      broadcast since, or its publisher is still about to. */
  lemma {:induction false} RunsAreComplete(c: Config, steps: seq<Step>, t: Topic)
    requires |Given(After(c, steps), t)| < U64
    ensures StreamsComplete(After(c, steps), t)
  {
    hide Do, Counted, Complete;
    if !c.grpc {
      StreamsNeedGrpc(c, steps);
    } else if steps != [] {
      var init, step := steps[..|steps| - 1], steps[|steps| - 1];
      GivenGrows(c, After(c, init), step, t);
      RunsAreComplete(c, init, t);
      NumbersAreConsecutive(c, init, t);
      StreamsCompleteStep(c, After(c, init), step, t);
    }
  }

  /** Main result: at least once on a live stream. Over every run, a stream that is still
      subscribed has accepted, with its original bytes, every number given out since it was
      opened, except those that their publishers are still about to send. */
  lemma LiveStreamsGetAll(c: Config, steps: seq<Step>, t: Topic, id: StreamId, r: int)
    requires ContiguousAt(c.boot, t) && |Given(After(c, steps), t)| < U64
    requires id in After(c, steps).wire.subs
    ensures var s := After(c, steps);
            && id in s.wire.streams
            && (At(s.wire.streams[id].base, t, 0) < r <= |Given(s, t)| && !Pending(s, t, r) ==>
                  1 <= r < U64 && Msg(t, Given(s, t)[r - 1].1, r) in s.wire.streams[id].sent)
  {
    hide After, Complete, Faithful, Given, Pending, StreamOk;
    var s := After(c, steps);
    StreamsArePrefixes(c, steps);
    assert StreamOk(s.wire, id);
    RunsAreComplete(c, steps, t);
    CopiesAreFaithful(c, steps, t);
    assert CompleteAt(s, id, t);
    if At(s.wire.streams[id].base, t, 0) < r <= |Given(s, t)| && !Pending(s, t, r) {
      SentOnLive(s, id, t, r);
    }
  }

  lemma SentOnLive(s: State, id: StreamId, t: Topic, r: int)
    requires id in s.wire.subs && id in s.wire.streams && StreamOk(s.wire, id) && CompleteAt(s, id, t) && Faithful(s, t)
    requires At(s.wire.streams[id].base, t, 0) < r <= |Given(s, t)| && !Pending(s, t, r)
    ensures 1 <= r < U64 && Msg(t, Given(s, t)[r - 1].1, r) in s.wire.streams[id].sent
  {
    hide Pending, Given;
    var st := s.wire.streams[id];
    var j :| 0 <= st.openedAt <= j < |s.wire.log| && s.wire.log[j].topic == t && s.wire.log[j].num == r;
    assert st.sent[j - st.openedAt] == s.wire.log[j];
    assert Carries(s, t, s.wire.log[j].num, s.wire.log[j].data);
  }

  // ----- acknowledgements -----

  /** The node of the stream has received number `n` of the topic on it. */
  ghost predicate Received(st: Stream, t: Topic, n: int)
    requires st.received <= |st.sent|
  {
    exists j :: 0 <= j < st.received && st.sent[j].topic == t && st.sent[j].num == n
  }

  /** Receiving a number above the stream's base means having received all in between. */
  lemma ReceivedDownTo(s: State, id: StreamId, t: Topic, n: int, r: int)
    requires id in s.wire.streams && StreamOk(s.wire, id) && GaplessAt(s, id, t)
    requires Received(s.wire.streams[id], t, n) && At(s.wire.streams[id].base, t, 0) < r <= n
    ensures Received(s.wire.streams[id], t, r)
  {
    var st, log := s.wire.streams[id], s.wire.log;
    var j :| 0 <= j < st.received && st.sent[j].topic == t && st.sent[j].num == n;
    if r < n {
      var i := st.openedAt + j;
      assert log[i] == st.sent[j];
      assert OnWire(log, st.openedAt, i, t, r);
      var i' :| 0 <= st.openedAt <= i' < i <= |log| && log[i'].topic == t && log[i'].num == r;
      assert st.sent[i' - st.openedAt] == log[i'];
    }
  }

  /** Some stream of the node has received the number. */
  ghost predicate ReceivedBy(w: Wire, node: NodeId, t: Topic, n: int) {
    exists id :: ReceivedOn(w, id, node, t, n)
  }

  ghost predicate ReceivedOn(w: Wire, id: StreamId, node: NodeId, t: Topic, n: int) {
    && id in w.streams && w.streams[id].node == node
    && w.streams[id].received <= |w.streams[id].sent| && Received(w.streams[id], t, n)
  }

  /** A follower acknowledges only what it has received; its acknowledgements may be delayed,
      repeated, reordered or lost. Nothing is asked of other nodes. */
  ghost predicate Honest(c: Config, steps: seq<Step>, node: NodeId) {
    steps == [] ||
    var init, step := steps[..|steps| - 1], steps[|steps| - 1];
    && Honest(c, init, node)
    && (step.Ack? && step.node == node ==> ReceivedBy(After(c, init).wire, node, step.topic, step.num))
  }

  ghost predicate AllHonest(c: Config, steps: seq<Step>) {
    forall node :: Honest(c, steps, node)
  }

  /** An honest run goes on. */
  lemma Go(c: Config, steps: seq<Step>, step: Step)
    requires AllHonest(c, steps)
    requires step.Ack? ==> ReceivedBy(After(c, steps).wire, step.node, step.topic, step.num)
    ensures After(c, steps + [step]) == Do(c, After(c, steps), step)
    ensures AllHonest(c, steps + [step]) && steps <= steps + [step]
  {
    hide Do, ReceivedBy;
    assert (steps + [step])[..|steps|] == steps;
    forall node ensures Honest(c, steps + [step], node) {
      assert Honest(c, steps, node);
    }
  }

  ghost predicate AcksReceived(w: Wire, ack: Acks, node: NodeId) {
    forall t :: t in ack && node in ack[t] ==> ReceivedBy(w, node, t, ack[t][node])
  }

  ghost predicate AcksMeanReceipt(s: State, node: NodeId) {
    && AcksReceived(s.wire, s.ack, node)
    && (!s.tick.Idle? ==> AcksReceived(s.wire, s.tick.snap, node))
  }

  lemma ReceivedByLater(w: Wire, w': Wire, node: NodeId, t: Topic, n: int)
    requires Later(w, w') && WireOk(w') && ReceivedBy(w, node, t, n)
    ensures ReceivedBy(w', node, t, n)
  {
    var id :| ReceivedOn(w, id, node, t, n);
    assert LaterAt(w, w', id) && StreamOk(w', id);
    var st, st' := w.streams[id], w'.streams[id];
    var j :| 0 <= j < st.received && st.sent[j].topic == t && st.sent[j].num == n;
    assert st'.sent[j] == st.sent[j];
    assert ReceivedOn(w', id, node, t, n);
  }

  lemma AcksReceivedLater(w: Wire, w': Wire, ack: Acks, node: NodeId)
    requires Later(w, w') && WireOk(w') && AcksReceived(w, ack, node)
    ensures AcksReceived(w', ack, node)
  {
    forall t | t in ack && node in ack[t] ensures ReceivedBy(w', node, t, ack[t][node]) {
      ReceivedByLater(w, w', node, t, ack[t][node]);
    }
  }

  /** Where the ack map and the tick's copy of it come from. */
  lemma AckStepCases(c: Config, s: State, step: Step)
    ensures var s' := Do(c, s, step);
            && (s'.ack == s.ack || (step.Ack? && s'.ack == RecordAck(s.ack, step.topic, step.node, step.num)))
            && (!s'.tick.Idle? ==>
                  || (!s.tick.Idle? && s'.tick.snap == s.tick.snap)
                  || s'.tick.snap == s.ack
                  || s'.tick.snap == map[])
  {
  }

  lemma AcksMeanReceiptStep(c: Config, s: State, step: Step, node: NodeId)
    requires AcksMeanReceipt(s, node) && WireOk(s.wire)
    requires step.Ack? && step.node == node ==> ReceivedBy(s.wire, node, step.topic, step.num)
    ensures AcksMeanReceipt(Do(c, s, step), node)
  {
    var s' := Do(c, s, step);
    AckStepCases(c, s, step);
    LaterStep(c, s, step);
    WireStep(c, s, step);
    hide Do, Later, WireOk, ReceivedBy;
    AcksReceivedLater(s.wire, s'.wire, s.ack, node);
    if !s.tick.Idle? {
      AcksReceivedLater(s.wire, s'.wire, s.tick.snap, node);
    }
    if step.Ack? && step.node == node {
      ReceivedByLater(s.wire, s'.wire, node, step.topic, step.num);
    }
  }

  lemma {:induction false} AcknowledgedIsReceived(c: Config, steps: seq<Step>, node: NodeId)
    requires Honest(c, steps, node)
    ensures AcksMeanReceipt(After(c, steps), node)
  {
    hide Do, ReceivedBy;
    if steps != [] {
      var init, step := steps[..|steps| - 1], steps[|steps| - 1];
      AcknowledgedIsReceived(c, init, node);
      StreamsArePrefixes(c, init);
      AcksMeanReceiptStep(c, After(c, init), step, node);
    }
  }

  /** At position `i` of the run the node opens stream `id`, and it opens no other one. */
  ghost predicate OpensOnly(c: Config, steps: seq<Step>, i: nat, id: StreamId, node: NodeId) {
    && i < |steps| && steps[i] == Open(id, node) && Enabled(c, After(c, steps[..i]), steps[i])
    && OnlyStream(After(c, steps).wire, id, node)
  }

  ghost predicate OnlyStream(w: Wire, id: StreamId, node: NodeId) {
    forall other :: other in w.streams && w.streams[other].node == node ==> other == id
  }

  /** A stream remembers its node and where the topics stood when it was opened. */
  lemma OpeningRemembered(c: Config, steps: seq<Step>, i: nat, id: StreamId, node: NodeId)
    requires i < |steps| && steps[i] == Open(id, node) && Enabled(c, After(c, steps[..i]), steps[i])
    ensures var w := After(c, steps).wire;
            && c.grpc && id in w.streams && w.streams[id].node == node
            && w.streams[id].base == After(c, steps[..i]).rep.seqs
  {
    AfterNext(c, steps, i);
    var ms := WireStepCases(c, After(c, steps[..i]), steps[i]);
    hide Do;
    DroppedStreamsStaySilent(c, steps, i + 1);
    assert LaterAt(After(c, steps[..i + 1]).wire, After(c, steps).wire, id);
  }

  /** The node has received number `r` of the topic on the stream, with the bytes it stands for. */
  ghost predicate Got(s: State, id: StreamId, t: Topic, r: int) {
    && 1 <= r <= |Given(s, t)| && r < U64
    && id in s.wire.streams && s.wire.streams[id].received <= |s.wire.streams[id].sent|
    && Msg(t, Given(s, t)[r - 1].1, r) in s.wire.streams[id].sent[..s.wire.streams[id].received]
  }

  lemma ReceiptCoversBelow(c: Config, steps: seq<Step>, t: Topic, i: nat, id: StreamId, node: NodeId, n: int, r: int)
    requires ContiguousAt(c.boot, t) && SerialRun(c, steps, t) && |Given(After(c, steps), t)| < U64
             && OpensOnly(c, steps, i, id, node)
    requires ReceivedBy(After(c, steps).wire, node, t, n)
    requires SeqOf(After(c, steps[..i]).rep, t) < r <= n
    ensures Got(After(c, steps), id, t, r)
  {
    hide Do, Counted, SerialRun;
    var s := After(c, steps);
    OpeningRemembered(c, steps, i, id, node);
    var st := s.wire.streams[id];
    StreamsArePrefixes(c, steps);
    RunsAreGapless(c, steps, t);
    CopiesAreFaithful(c, steps, t);
    assert StreamOk(s.wire, id) && GaplessAt(s, id, t);
    var id' :| ReceivedOn(s.wire, id', node, t, n);
    assert id' == id;
    ReceivedDownTo(s, id, t, n, r);
    var j :| 0 <= j < st.received && st.sent[j].topic == t && st.sent[j].num == r;
    var k := st.openedAt + j;
    assert s.wire.log[k] == st.sent[j];
    assert Carries(s, t, s.wire.log[k].num, s.wire.log[k].data);
    assert st.sent[..st.received][j] == st.sent[j];
  }

  /** Main result: while publishes to a topic are broadcast one at a time, an acknowledgement
      recorded from a node that opened one stream, when the topic stood at b, means that the
      node has received every number above b up to it with its original bytes, despite resends,
      duplicates, and acknowledgements that arrive late or go backwards. */
  lemma AckMeansAllReceived(c: Config, steps: seq<Step>, t: Topic, i: nat, id: StreamId, node: NodeId, r: int)
    requires ContiguousAt(c.boot, t) && SerialRun(c, steps, t) && |Given(After(c, steps), t)| < U64
    requires OpensOnly(c, steps, i, id, node) && Honest(c, steps, node)
    requires t in After(c, steps).ack && node in After(c, steps).ack[t]
    requires SeqOf(After(c, steps[..i]).rep, t) < r <= After(c, steps).ack[t][node]
    ensures Got(After(c, steps), id, t, r)
  {
    AcknowledgedIsReceived(c, steps, node);
    ReceiptCoversBelow(c, steps, t, i, id, node, After(c, steps).ack[t][node], r);
  }

  lemma DroppedIsCovered(c: Config, s: State, t: Topic, node: NodeId, r: uint64)
    requires Enabled(c, s, TickTopic(t)) && t in s.tick.snap && node in s.tick.snap[t]
    requires InBuf(s.rep.buf, t, r) && !InBuf(Do(c, s, TickTopic(t)).rep.buf, t, r)
    ensures r <= s.tick.snap[t][node]
  {
  }

  /** Main result: what a retry tick drops, with its original bytes, has been received by every
      such node whose acknowledgement the tick had read, if it is above the point where the
      node's stream was opened. */
  lemma RemovedMeansReceived(c: Config, steps: seq<Step>, t: Topic, i: nat, id: StreamId, node: NodeId, r: uint64)
    requires ContiguousAt(c.boot, t) && SerialRun(c, steps, t) && |Given(After(c, steps), t)| < U64
    requires OpensOnly(c, steps, i, id, node) && Honest(c, steps, node)
    requires Enabled(c, After(c, steps), TickTopic(t))
    requires t in After(c, steps).tick.snap && node in After(c, steps).tick.snap[t]
    requires InBuf(After(c, steps).rep.buf, t, r) && !InBuf(Do(c, After(c, steps), TickTopic(t)).rep.buf, t, r)
    requires SeqOf(After(c, steps[..i]).rep, t) < r
    ensures Got(After(c, steps), id, t, r)
    ensures After(c, steps).rep.buf[t][r] == Given(After(c, steps), t)[r - 1].1
  {
    var s := After(c, steps);
    DroppedIsCovered(c, s, t, node, r);
    hide Do;
    AcknowledgedIsReceived(c, steps, node);
    ReceiptCoversBelow(c, steps, t, i, id, node, s.tick.snap[t][node], r);
    CopiesAreFaithful(c, steps, t);
    assert Carries(s, t, r, EntriesOf(s.rep.buf, t)[r]);
  }
}
