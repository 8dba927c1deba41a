/** What overlapping broadcasts do to acknowledgements, and concrete runs in which a node
    acknowledges past a message it has not received, or loses one. */
module DeliveryLimits {
  import opened Base
  import opened ReplBuffer
  import opened ReplServer
  import opened Protocol
  import opened StreamProof
  import opened DeliveryProof
  import opened LossProof
  import opened LossRuns
  import opened Overtaking

  lemma AppendHonest(c: Config, steps: seq<Step>, step: Step, node: NodeId)
    requires Honest(c, steps, node)
    requires step.Ack? && step.node == node ==> ReceivedBy(After(c, steps).wire, node, step.topic, step.num)
    ensures After(c, steps + [step]) == Do(c, After(c, steps), step)
    ensures Honest(c, steps + [step], node) && steps <= steps + [step]
  {
  }

  /** The node receives everything that has been sent to it. */
  lemma {:induction false} Drain(c: Config, steps: seq<Step>, id: StreamId, node: NodeId) returns (more: seq<Step>)
    requires Honest(c, steps, node)
    requires var w := After(c, steps).wire; id in w.streams && w.streams[id].received <= |w.streams[id].sent|
    ensures steps <= more && Honest(c, more, node)
    ensures var s, s' := After(c, steps), After(c, more);
            && s'.ack == s.ack && s'.pubs == s.pubs && s'.wire.subs == s.wire.subs
            && s'.wire.streams == s.wire.streams[id := s.wire.streams[id].(received := |s.wire.streams[id].sent|)]
    decreases |After(c, steps).wire.streams[id].sent| - After(c, steps).wire.streams[id].received
  {
    var s := After(c, steps);
    var st := s.wire.streams[id];
    if st.received == |st.sent| {
      more := steps;
    } else {
      AppendHonest(c, steps, Receive(id), node);
      hide Honest;
      more := Drain(c, steps + [Receive(id)], id, node);
    }
  }

  lemma AckRecorded(c: Config, s: State, t: Topic, node: NodeId, n: uint64)
    requires c.grpc && t != "" && node != ""
    ensures var s' := Do(c, s, Ack(t, node, n));
            t in s'.ack && node in s'.ack[t] && s'.ack[t][node] == n && s'.wire == s.wire && s'.pubs == s.pubs
  {
  }

  /** Two publishers of a topic overlap between numbering and broadcasting, and a live stream
      has not carried the lower number yet. Then its node can honestly acknowledge the higher
      number without having received the lower one: an acknowledgement is not cumulative. The
      lower one is not lost: its publisher is still about to send it on the same stream. */
  lemma OverlapSkipsMessage(c: Config, steps: seq<Step>, t: Topic, p: PubId, q: PubId, id: StreamId)
    returns (more: seq<Step>)
    requires c.grpc && t != ""
    requires var s := After(c, steps);
             && NumberedOn(s, p, t) && NumberedOn(s, q, t) && s.pubs[p].num < s.pubs[q].num
             && id in s.wire.subs && id in s.wire.streams
             && s.wire.streams[id].node != "" && Honest(c, steps, s.wire.streams[id].node)
             && (forall m :: m in s.wire.streams[id].sent ==> !(m.topic == t && m.num == s.pubs[p].num))
    ensures steps <= more
    ensures var s, s' := After(c, steps), After(c, more);
            && id in s.wire.streams && id in s'.wire.streams && p in s.pubs && q in s.pubs
            && s.pubs[p].Numbered? && s.pubs[q].Numbered?
            && var st := s'.wire.streams[id];
            && st.node == s.wire.streams[id].node && st.base == s.wire.streams[id].base
            && Honest(c, more, st.node)
            && t in s'.ack && st.node in s'.ack[t] && s'.ack[t][st.node] == s.pubs[q].num
            && s.pubs[p].num < s.pubs[q].num
            && st.received <= |st.sent| && !Received(st, t, s.pubs[p].num)
            && p in s'.pubs && s'.pubs[p] == s.pubs[p] && id in s'.wire.subs
  {
    var s := After(c, steps);
    var st := s.wire.streams[id];
    var msg := Msg(t, s.pubs[q].data, s.pubs[q].num);
    var send := Send(q, {});
    StreamsArePrefixes(c, steps);
    assert StreamOk(s.wire, id);
    AppendHonest(c, steps, send, st.node);
    var s1 := Do(c, s, send);
    assert s1.wire.streams[id] == Accept(st, msg);
    hide Do, Honest;
    var drained := Drain(c, steps + [send], id, st.node);
    var s2 := After(c, drained);
    var st2 := s2.wire.streams[id];
    assert st2.sent == st.sent + [msg] && st2.received == |st2.sent|;
    assert st2.sent[|st.sent|] == msg;
    assert Received(st2, t, msg.num);
    assert ReceivedOn(s2.wire, id, st.node, t, msg.num);
    var ack := Ack(t, st.node, msg.num);
    AppendHonest(c, drained, ack, st.node);
    AckRecorded(c, s2, t, st.node, msg.num);
    more := drained + [ack];
  }

  // ----- concrete runs -----

  const DEFAULTS := Config(0, true, false, EMPTY_REP)

  /** A publisher of the empty message on topic "t". */
  function Publish(p: PubId): seq<Step> {
    [Begin(p, "t", []), ReadAcks(p), CheckWindow(p), Number(p)]
  }

  /** Nobody has acknowledged anything yet, and no tick is under way. */
  ghost predicate Early(s: State, n: nat) {
    && s.tick.Idle? && s.ack == map[] && SeqOf(s.rep, "t") == n == |Given(s, "t")|
    && (n > 0 ==> "t" in s.rep.buf)
  }

  lemma PublishOne(steps: seq<Step>, p: PubId, n: nat) returns (more: seq<Step>)
    requires AllHonest(DEFAULTS, steps) && Early(After(DEFAULTS, steps), n) &&
             p !in After(DEFAULTS, steps).pubs && n < 1024
    ensures more == steps + Publish(p) && AllHonest(DEFAULTS, more)
    ensures var s, s' := After(DEFAULTS, steps), After(DEFAULTS, more);
            Early(s', n + 1) && s'.pubs == s.pubs[p := Numbered("t", [], n + 1)] && s'.wire == s.wire
  {
    var c, s := DEFAULTS, After(DEFAULTS, steps);
    CutoffIsMin(Readable(c, s), "t");
    hide Do, AllHonest, Cutoff;
    more := ByWindow(c, steps, p, "t", []);
  }

  lemma OpenFirst() returns (steps: seq<Step>)
    ensures steps == [Open(0, "n")] && AllHonest(DEFAULTS, steps)
    ensures var s := After(DEFAULTS, steps);
            Early(s, 0) && s.pubs == map[] && s.wire == Wire({0}, map[0 := Stream("n", 0, map[], [], 0)], [])
  {
    Go(DEFAULTS, [], Open(0, "n"));
    steps := [] + [Open(0, "n")];
  }

  /** A concrete run: node "n" subscribes first, two publishers of topic "t" are numbered 1 and 2
      before either broadcasts, and the node ends up having acknowledged 2 without message 1. */
  lemma OverlapExample() returns (steps: seq<Step>)
    ensures [Open(0, "n")] + Publish(1) + Publish(2) <= steps && Honest(DEFAULTS, steps, "n")
    ensures var s := After(DEFAULTS, steps);
            && "t" in s.ack && "n" in s.ack["t"] && s.ack["t"]["n"] == 2 && !Got(s, 0, "t", 1)
  {
    hide Do, Honest;
    steps := OpenFirst();
    steps := PublishOne(steps, 1, 0);
    steps := PublishOne(steps, 2, 1);
    assert Honest(DEFAULTS, steps, "n");
    steps := OverlapSkipsMessage(DEFAULTS, steps, "t", 1, 2, 0);
    NotReceivedNotGot(After(DEFAULTS, steps), 0, "t", 1);
  }

  lemma NotReceivedNotGot(s: State, id: StreamId, t: Topic, r: int)
    requires id in s.wire.streams && s.wire.streams[id].received <= |s.wire.streams[id].sent|
    requires !Received(s.wire.streams[id], t, r)
    ensures !Got(s, id, t, r)
  {
  }

  /** Stream 0 of node "n" breaks around message 1; the node reconnects, gets message 2, acknowledges
      it, and the retry loop drops both. */
  function Lossy(breaks: seq<Step>): seq<Step> {
    [Open(0, "n")] + Publish(1) + breaks + [Open(1, "n")] + Publish(2) +
    [Send(2, {}), Receive(1), Ack("t", "n", 2), TickRead, TickLock, TickTopic("t")]
  }

  /** Stream 0 is off and nothing was received on it; stream 1 is new. */
  ghost predicate Reconnected(w: Wire, first: seq<Msg>) {
    && w.subs == {1} && w.streams.Keys == {0, 1}
    && w.streams[0].sent == first && w.streams[0].received == 0 && w.streams[0].node == "n"
    && w.streams[1].sent == [] && w.streams[1].node == "n" && w.streams[1].received == 0
  }

  /** Message 1 is numbered, and stream 0 is new. */
  ghost predicate FirstNumbered(s: State) {
    && Early(s, 1) && s.pubs == map[1 := Numbered("t", [], 1)]
    && s.wire == Wire({0}, map[0 := Stream("n", 0, map[], [], 0)], [])
  }

  lemma SendFails(s: State)
    requires FirstNumbered(s)
    ensures var s2 := Do(DEFAULTS, Do(DEFAULTS, s, Send(1, {0})), Open(1, "n"));
            Early(s2, 1) && s2.pubs == map[] && Reconnected(s2.wire, [])
  {
  }

  lemma SendAndBreak(s: State)
    requires FirstNumbered(s)
    ensures var s2 := Do(DEFAULTS, Do(DEFAULTS, Do(DEFAULTS, s, Send(1, {})), Disconnect(0)), Open(1, "n"));
            Early(s2, 1) && s2.pubs == map[] && Reconnected(s2.wire, [Msg("t", [], 1)])
  {
    var w1 := Do(DEFAULTS, s, Send(1, {})).wire;
    assert w1.streams[0].sent == [Msg("t", [], 1)] && w1.streams[0].received == 0;
  }

  lemma NumberFirst() returns (steps: seq<Step>)
    ensures steps == [Open(0, "n")] + Publish(1) && AllHonest(DEFAULTS, steps)
    ensures FirstNumbered(After(DEFAULTS, steps))
  {
    hide Do, AllHonest;
    steps := OpenFirst();
    steps := PublishOne(steps, 1, 0);
  }

  lemma SecondOnWire(w: Wire, first: seq<Msg>)
    requires Reconnected(w, first)
    ensures var w1 := Broadcast(w, Msg("t", [], 2), {});
            && 1 in w1.streams && w1.streams[1].received < |w1.streams[1].sent|
            && var w2 := ReceiveOne(w1, 1);
            && ReceivedBy(w2, "n", "t", 2) && !ReceivedBy(w2, "n", "t", 1) && !LiveTo(w2, "n", "t", 1)
            && w2.streams.Keys == {0, 1} && w2.streams[0].sent == first && w2.streams[1].sent == [Msg("t", [], 2)]
  {
    var w2 := ReceiveOne(Broadcast(w, Msg("t", [], 2), {}), 1);
    assert w2.streams.Keys == {0, 1} && w2.streams[0] == w.streams[0];
    assert w2.streams[1] == w.streams[1].(sent := [Msg("t", [], 2)], received := 1);
    assert ReceivedOn(w2, 1, "n", "t", 2) by {
      assert w2.streams[1].sent[0] == Msg("t", [], 2);
    }
  }

  lemma SecondArrives(s: State, first: seq<Msg>)
    requires Early(s, 2) && s.pubs == map[2 := Numbered("t", [], 2)] && Reconnected(s.wire, first)
    ensures var s2 := Do(DEFAULTS, Do(DEFAULTS, s, Send(2, {})), Receive(1));
            var s3 := Do(DEFAULTS, s2, Ack("t", "n", 2));
            && Early(s3.(ack := map[]), 2) && s3.ack == map["t" := map["n" := 2]] && s3.pubs == map[]
            && s3.wire == s2.wire && s2.wire == ReceiveOne(Broadcast(s.wire, Msg("t", [], 2), {}), 1)
  {
    SecondOnWire(s.wire, first);
    hide Broadcast, ReceiveOne, ReceivedBy, LiveTo, Reconnected;
  }

  lemma DroppedUnread(s: State)
    requires Early(s.(ack := map[]), 2) && s.ack == map["t" := map["n" := 2]] && s.pubs == map[]
    requires !ReceivedBy(s.wire, "n", "t", 1) && !LiveTo(s.wire, "n", "t", 1)
    ensures var s' := Do(DEFAULTS, Do(DEFAULTS, Do(DEFAULTS, s, TickRead), TickLock), TickTopic("t"));
            Missed(s', "n", "t", 1) && s'.wire == s.wire
  {
    CutoffIsMin(s.ack, "t");
    assert "n" in s.ack["t"];
    DropStates(DEFAULTS, s, "t");
    hide Do, Cutoff, ReceivedBy, LiveTo;
  }

  /** Message 2 is acknowledged, message 1 neither received nor on a live stream. */
  ghost predicate SecondAcked(s: State, first: seq<Msg>) {
    && Early(s.(ack := map[]), 2) && s.ack == map["t" := map["n" := 2]] && s.pubs == map[]
    && !ReceivedBy(s.wire, "n", "t", 1) && !LiveTo(s.wire, "n", "t", 1) && s.wire.streams.Keys == {0, 1}
    && s.wire.streams[0].sent == first && s.wire.streams[1].sent == [Msg("t", [], 2)]
  }

  lemma AckSecond(steps: seq<Step>, first: seq<Msg>) returns (more: seq<Step>)
    requires AllHonest(DEFAULTS, steps) && Early(After(DEFAULTS, steps), 2)
    requires After(DEFAULTS, steps).pubs == map[2 := Numbered("t", [], 2)]
    requires Reconnected(After(DEFAULTS, steps).wire, first)
    ensures more == steps + [Send(2, {}), Receive(1), Ack("t", "n", 2)] && AllHonest(DEFAULTS, more)
    ensures SecondAcked(After(DEFAULTS, more), first)
  {
    hide Do, AllHonest, Early, ReceivedBy, LiveTo, Reconnected, Broadcast, ReceiveOne;
    SecondOnWire(After(DEFAULTS, steps).wire, first);
    SecondArrives(After(DEFAULTS, steps), first);
    Go(DEFAULTS, steps, Send(2, {}));
    Go(DEFAULTS, steps + [Send(2, {})], Receive(1));
    more := steps + [Send(2, {})] + [Receive(1)];
    Go(DEFAULTS, more, Ack("t", "n", 2));
    more := more + [Ack("t", "n", 2)];
  }

  /** The common end of both runs. */
  lemma SecondGetsThrough(steps: seq<Step>, first: seq<Msg>) returns (more: seq<Step>)
    requires AllHonest(DEFAULTS, steps) && Early(After(DEFAULTS, steps), 1)
    requires After(DEFAULTS, steps).pubs == map[] && Reconnected(After(DEFAULTS, steps).wire, first)
    ensures more == steps + Publish(2) + [Send(2, {}), Receive(1), Ack("t", "n", 2), TickRead, TickLock, TickTopic("t")]
    ensures AllHonest(DEFAULTS, more) && Missed(After(DEFAULTS, more), "n", "t", 1)
    ensures var w := After(DEFAULTS, more).wire;
            w.streams.Keys == {0, 1} && w.streams[0].sent == first && w.streams[1].sent == [Msg("t", [], 2)]
  {
    hide Do, After, AllHonest, Early, ReceivedBy, LiveTo, Missed, Reconnected;
    more := PublishOne(steps, 2, 1);
    more := AckSecond(more, first);
    EarlyTopic(After(DEFAULTS, more).(ack := map[]), 2);
    DroppedUnread(After(DEFAULTS, more));
    more := StartTick(DEFAULTS, more, true, "t");
  }

  lemma EarlyTopic(s: State, n: nat)
    requires Early(s, n) && n > 0
    ensures s.tick.Idle? && "t" in s.rep.buf
  {
  }

  /** A concrete run that loses a message: node "n" opened its first stream before anything was
      published, the first send to it fails, message 1 of topic "t" is gone, and no stream of the
      node has carried it. */
  lemma ReconnectExample()
    ensures AllHonest(DEFAULTS, Lossy([Send(1, {0})]))
    ensures var s := After(DEFAULTS, Lossy([Send(1, {0})]));
            Missed(s, "n", "t", 1) && !Told(s.wire, Target(Some("n"), false, "t", 1))
  {
    hide Do, AllHonest, Early, Missed, Reconnected;
    var steps := NumberFirst();
    SendFails(After(DEFAULTS, steps));
    Go(DEFAULTS, steps, Send(1, {0}));
    steps := steps + [Send(1, {0})];
    Go(DEFAULTS, steps, Open(1, "n"));
    steps := steps + [Open(1, "n")];
    steps := SecondGetsThrough(steps, []);
    assert steps == Lossy([Send(1, {0})]);
  }

  /** Another one: the send succeeds, but the stream breaks before the node has read the message. */
  lemma UnreadExample()
    ensures AllHonest(DEFAULTS, Lossy([Send(1, {}), Disconnect(0)]))
    ensures var s := After(DEFAULTS, Lossy([Send(1, {}), Disconnect(0)]));
            Missed(s, "n", "t", 1) && 0 in s.wire.streams && Carried(s.wire.streams[0], "t", 1)
  {
    hide Do, AllHonest, Early, Missed, Reconnected;
    var steps := NumberFirst();
    SendAndBreak(After(DEFAULTS, steps));
    Go(DEFAULTS, steps, Send(1, {}));
    steps := steps + [Send(1, {})];
    Go(DEFAULTS, steps, Disconnect(0));
    steps := steps + [Disconnect(0)];
    Go(DEFAULTS, steps, Open(1, "n"));
    steps := steps + [Open(1, "n")];
    steps := SecondGetsThrough(steps, [Msg("t", [], 1)]);
    assert steps == Lossy([Send(1, {}), Disconnect(0)]);
    assert Msg("t", [], 1) in After(DEFAULTS, steps).wire.streams[0].sent;
  }
}
