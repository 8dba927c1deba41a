/** Exactly when a message can be missed by a node. */
module MissedIff {
  import opened Base
  import opened ReplBuffer
  import opened ReplServer
  import opened Protocol
  import opened BufferProof
  import opened WindowProof
  import opened SweepProof
  import opened StreamProof
  import opened DeliveryProof
  import opened LossProof
  import opened LossRuns
  import opened Overtaking
  import opened NewestProof

  // ----- with honest followers, unless the message is held -----

  /** What was received stays received. */
  lemma StillReceived(c: Config, steps: seq<Step>, more: seq<Step>, node: NodeId, t: Topic, n: int)
    requires steps <= more && ReceivedBy(After(c, steps).wire, node, t, n)
    ensures ReceivedBy(After(c, more).wire, node, t, n)
  {
    hide After, ReceivedBy;
    assert more[..|steps|] == steps;
    DroppedStreamsStaySilent(c, more, |steps|);
    StreamsArePrefixes(c, more);
    ReceivedByLater(After(c, steps).wire, After(c, more).wire, node, t, n);
  }

  /** What was received was given out. */
  lemma ReceivedIsGiven(c: Config, steps: seq<Step>, node: NodeId, t: Topic, n: int)
    requires ContiguousAt(c.boot, t) && |Given(After(c, steps), t)| < U64
    requires ReceivedBy(After(c, steps).wire, node, t, n)
    ensures 1 <= n <= |Given(After(c, steps), t)|
  {
    hide After, Counted;
    var s := After(c, steps);
    StreamsArePrefixes(c, steps);
    CopiesAreFaithful(c, steps, t);
    var k := ReceivedOnLog(s.wire, node, t, n);
    hide ReceivedBy, WireOk;
    assert Carries(s, t, s.wire.log[k].num, s.wire.log[k].data);
  }

  /** ... and was broadcast. */
  lemma ReceivedOnLog(w: Wire, node: NodeId, t: Topic, n: int) returns (k: nat)
    requires WireOk(w) && ReceivedBy(w, node, t, n)
    ensures k < |w.log| && w.log[k].topic == t && w.log[k].num == n
  {
    var id :| ReceivedOn(w, id, node, t, n);
    var st := w.streams[id];
    assert StreamOk(w, id);
    var j :| 0 <= j < st.received && st.sent[j].topic == t && st.sent[j].num == n;
    k := st.openedAt + j;
    assert w.log[k] == w.log[st.openedAt..][j] == st.sent[j];
  }

  /** The node's own acknowledgement is for a message it has received. */
  lemma AckedIsReceived(c: Config, steps: seq<Step>, node: NodeId, t: Topic)
    requires AllHonest(c, steps) && t in After(c, steps).ack && node in After(c, steps).ack[t]
    ensures ReceivedBy(After(c, steps).wire, node, t, After(c, steps).ack[t][node])
  {
    assert Honest(c, steps, node);
    AcknowledgedIsReceived(c, steps, node);
  }

  lemma RaisedCutoff(was: Acks, ack: Acks, t: Topic, who: set<NodeId>, r: uint64, node: NodeId, n: uint64)
    requires AllAcked(was, ack, t, who, r) && n <= r && t != "" && node != ""
    requires forall x :: x in At(was, t, map[]) ==> x in who || x == node
    ensures Cutoff(RecordAck(ack, t, node, n), t) == n
  {
    var ack' := RecordAck(ack, t, node, n);
    CutoffIsMin(ack', t);
    hide Cutoff;
    assert node in ack'[t] && ack'[t][node] == n;
    forall x | x in ack'[t] ensures ack'[t][x] >= n {
      assert x in who ==> Acked(ack, t, x, r);
    }
  }

  /** The newest message is resent to the others, who acknowledge it, and the node acknowledges what
      it has received: that is now the minimum. */
  lemma OthersAck(c: Config, steps: seq<Step>, msg: Msg, g: Target, n: uint64) returns (more: seq<Step>)
    requires AllHonest(c, steps) && Ready(c, After(c, steps), TickNext({}), msg) && Apart(After(c, steps).wire, g)
    requires IsIt(g, msg) && g.topic != "" && g.node.Some? && g.node.value != "" && n <= g.num
    requires ReceivedBy(After(c, steps).wire, g.node.value, g.topic, n)
    ensures Leads(c, steps, more, true) && Apart(After(c, more).wire, g)
    ensures var s, s' := After(c, steps), After(c, more);
            s'.rep == s.rep && s'.given == s.given && Cutoff(s'.ack, g.topic) == n
  {
    hide After, AllHonest, Apart, ReceivedBy, AllAcked, Cutoff;
    var t, node := g.topic, g.node.value;
    var was := After(c, steps).ack;
    var nodes: NodeAcks := At(was, t, map[]);
    var who := nodes.Keys - {node};
    AcksAreNamed(c, steps);
    more := CatchUp(c, steps, TickNext({}), msg, who, g);
    var s, ack := After(c, more), Ack(t, node, n);
    StillReceived(c, steps, more, node, t, n);
    RaisedCutoff(was, s.ack, t, who, g.num, node, n);
    AckState(c, s, t, node, n);
    SameWire(s.wire, Do(c, s, ack).wire, g);
    Next(c, more, ack, true);
    more := more + [ack];
  }

  lemma AckState(c: Config, s: State, t: Topic, node: NodeId, n: uint64)
    requires c.grpc
    ensures Do(c, s, Ack(t, node, n)) == s.(ack := RecordAck(s.ack, t, node, n))
  {
  }

  /** The node has received a number within the window of the newest one: the others catch up with
      the newest, the node acknowledges what it has, and the window is open. */
  lemma LoseReceived(c: Config, steps: seq<Step>, g: Target, n: uint64) returns (more: seq<Step>)
    requires c.grpc && g.topic != "" && ContiguousAt(c.boot, g.topic) && Room(After(c, steps))
    requires AllHonest(c, steps) && Apart(After(c, steps).wire, g) && g.node.Some? && g.node.value != ""
    requires 1 <= g.num == |Given(After(c, steps), g.topic)| < I64
    requires ReceivedBy(After(c, steps).wire, g.node.value, g.topic, n) && n > g.num - Window(c)
    ensures Leads(c, steps, more, true) && LostTo(After(c, more), g)
    ensures |Given(After(c, more), g.topic)| < U64
  {
    hide Do, After, AllHonest, Apart, Ready, LostTo, Pending, Resendable, ReceivedBy, AllAcked, Window;
    var t, r, node := g.topic, g.num, g.node.value;
    ReceivedIsGiven(c, steps, node, t, n);
    more := Settle(c, steps, true, g);
    var s := After(c, more);
    NumbersAreConsecutive(c, more, t);
    CountedValue(s, t);
    if r <= Cutoff(s.ack, t) {
      more := Drop(c, more, true, g);
    } else if !InBuf(s.rep.buf, t, r) {
      LostNow(s, g);
    } else {
      var msg: Msg;
      more, msg := BySweep(c, more, g, r);
      StillReceived(c, steps, more, node, t, n);
      more := OthersAck(c, more, msg, g, n);
      RoomKept(After(c, steps), After(c, more));
      more := LoseHonestly(c, more, g);
    }
  }

  /** A publisher of the topic is past the window check, or can pass it: one more message is
      numbered, and the one in question is no longer the newest. */
  lemma LosePastCheck(c: Config, steps: seq<Step>, g: Target, p: PubId) returns (more: seq<Step>)
    requires c.grpc && g.topic != "" && ContiguousAt(c.boot, g.topic) && Room(After(c, steps))
    requires AllHonest(c, steps) && Apart(After(c, steps).wire, g)
    requires 1 <= g.num == |Given(After(c, steps), g.topic)| == SeqOf(After(c, steps).rep, g.topic) < I64
    requires var s := After(c, steps);
             && p in s.pubs && s.pubs[p].topic == g.topic
             && (s.pubs[p].Admitted? || (s.pubs[p].HasMin? && IntDiff(g.num, s.pubs[p].min) < Window(c)))
    ensures Leads(c, steps, more, true) && LostTo(After(c, more), g)
    ensures |Given(After(c, more), g.topic)| < U64
  {
    hide Do, After, AllHonest, Apart, LostTo, Resendable, InBuf, Window, IntDiff;
    var t, data := g.topic, After(c, steps).pubs[p].data;
    more := EndTick(c, steps, true, g);
    if After(c, more).pubs[p].HasMin? {
      PassCheck(c, After(c, more), p);
      ApartStep(c, After(c, more), CheckWindow(p), g);
      Next(c, more, CheckWindow(p), true);
      more := more + [CheckWindow(p)];
    }
    var s := After(c, more);
    assert s.pubs[p] == Admitted(t, data);
    NumberState(c, s, p, t, data);
    ApartStep(c, s, Number(p), g);
    Next(c, more, Number(p), true);
    more := more + [Number(p)];
    OneMore(After(c, steps), After(c, more), t);
    more := LoseHonestly(c, more, g);
  }

  lemma PassCheck(c: Config, s: State, p: PubId)
    requires p in s.pubs && s.pubs[p].HasMin? && s.tick.Idle?
    requires IntDiff(SeqOf(s.rep, s.pubs[p].topic), s.pubs[p].min) < Window(c)
    ensures Do(c, s, CheckWindow(p)) == s.(pubs := s.pubs[p := Admitted(s.pubs[p].topic, s.pubs[p].data)])
  {
  }

  lemma OneMore(s: State, s': State, t: Topic)
    requires Room(s) && SeqOf(s.rep, t) < I64 && s'.rep.seqs == s.rep.seqs[t := SeqOf(s.rep, t) + 1]
    ensures Room(s')
  {
  }

  /** The node reads what is on its stream up to position `j`. */
  lemma {:induction false} ReadUpTo(c: Config, steps: seq<Step>, g: Target, id: StreamId, j: nat)
    returns (more: seq<Step>)
    requires AllHonest(c, steps) && Apart(After(c, steps).wire, g) && id in After(c, steps).wire.streams
    requires var st := After(c, steps).wire.streams[id];
             j < |st.sent| && forall i :: 0 <= i <= j ==> !IsIt(g, st.sent[i])
    ensures Leads(c, steps, more, true) && Apart(After(c, more).wire, g)
    ensures var s, s' := After(c, steps), After(c, more);
            && s' == s.(wire := s'.wire) && id in s'.wire.streams
            && s'.wire.streams[id].sent == s.wire.streams[id].sent
            && s'.wire.streams[id].node == s.wire.streams[id].node
            && j < s'.wire.streams[id].received
    decreases j + 1 - After(c, steps).wire.streams[id].received
  {
    more := steps;
    var s := After(c, steps);
    if s.wire.streams[id].received <= j {
      ReceiveApart(c, s, id, g);
      hide Do, AllHonest, Apart;
      Next(c, steps, Receive(id), true);
      more := ReadUpTo(c, steps + [Receive(id)], g, id, j);
    }
  }

  lemma ReceiveApart(c: Config, s: State, id: StreamId, g: Target)
    requires Apart(s.wire, g) && Enabled(c, s, Receive(id))
             && !IsIt(g, s.wire.streams[id].sent[s.wire.streams[id].received])
    ensures Apart(Do(c, s, Receive(id)).wire, g) && Do(c, s, Receive(id)) == s.(wire := ReceiveOne(s.wire, id))
  {
    SparedStep(c, s, Receive(id), g);
    hide Spared;
  }

  /** A broadcast of another message reaches the node alone of those whose acknowledgement counts. */
  lemma GetOne(c: Config, steps: seq<Step>, step: Step, msg: Msg, g: Target) returns (more: seq<Step>)
    requires AllHonest(c, steps) && Ready(c, After(c, steps), step, msg) && Apart(After(c, steps).wire, g)
    requires msg.topic == g.topic != "" && msg.num != g.num && g.node.Some? && g.node.value != ""
    ensures Leads(c, steps, more, true) && Apart(After(c, more).wire, g)
    ensures After(c, more).given == After(c, steps).given && After(c, more).rep == After(c, steps).rep
    ensures ReceivedBy(After(c, more).wire, g.node.value, g.topic, msg.num)
  {
    hide After, AllHonest, Apart, ReceivedBy, Ready;
    var node := g.node.value;
    more := CatchUp(c, steps, step, msg, {node}, g);
    assert Acked(After(c, more).ack, g.topic, node, msg.num);
    AckedIsReceived(c, more, node, g.topic);
  }

  /** The node comes to receive a number that it can obtain, or has received a higher one. */
  lemma ObtainOne(c: Config, steps: seq<Step>, g: Target, n: uint64) returns (more: seq<Step>, n': uint64)
    requires c.grpc && g.topic != "" && ContiguousAt(c.boot, g.topic) && Room(After(c, steps)) && g.unread
    requires AllHonest(c, steps) && Apart(After(c, steps).wire, g) && g.node.Some?
    requires |Given(After(c, steps), g.topic)| < U64 - 2
    requires Obtainable(After(c, steps), g, n)
    requires g.topic in After(c, steps).ack && g.node.value in After(c, steps).ack[g.topic]
    ensures Leads(c, steps, more, true) && Apart(After(c, more).wire, g)
    ensures After(c, more).given == After(c, steps).given && After(c, more).rep.seqs == After(c, steps).rep.seqs
    ensures n <= n' && ReceivedBy(After(c, more).wire, g.node.value, g.topic, n') && g.node.value != ""
  {
    hide After, AllHonest, Apart, ReceivedBy, Ready, Counted, InBuf;
    var s, t, node := After(c, steps), g.topic, g.node.value;
    AcksAreNamed(c, steps);
    more, n' := steps, n;
    if Pending(s, t, n) {
      var p :| NumberedOn(s, p, t) && s.pubs[p].num == n;
      PendingReady(c, s, p);
      more := GetOne(c, more, Send(p, {}), Msg(t, s.pubs[p].data, n), g);
    } else if Resendable(s, t, n) {
      more := EndTick(c, steps, true, g);
      more, n' := ObtainResent(c, more, g, n);
    } else {
      var id :| ReadableOn(s.wire, id, g, n);
      var j :| ReadableAt(s.wire.streams[id], g, n, j);
      more := ReadUpTo(c, steps, g, id, j);
      StreamsArePrefixes(c, more);
      ReadHere(After(c, more).wire, id, node, t, n, j);
    }
  }

  lemma PendingReady(c: Config, s: State, p: PubId)
    requires c.grpc && p in s.pubs && s.pubs[p].Numbered?
    ensures Ready(c, s, Send(p, {}), Msg(s.pubs[p].topic, s.pubs[p].data, s.pubs[p].num))
  {
  }

  lemma ReadHere(w: Wire, id: StreamId, node: NodeId, t: Topic, n: int, j: int)
    requires WireOk(w) && id in w.streams && w.streams[id].node == node && 0 <= j < w.streams[id].received
    requires j < |w.streams[id].sent| && w.streams[id].sent[j].topic == t && w.streams[id].sent[j].num == n
    ensures ReceivedBy(w, node, t, n)
  {
    assert StreamOk(w, id);
    assert ReceivedOn(w, id, node, t, n);
  }

  lemma ObtainResent(c: Config, steps: seq<Step>, g: Target, n: uint64) returns (more: seq<Step>, n': uint64)
    requires c.grpc && g.topic != "" && ContiguousAt(c.boot, g.topic) && Room(After(c, steps))
    requires AllHonest(c, steps) && Apart(After(c, steps).wire, g) && g.node.Some? && g.node.value != ""
    requires |Given(After(c, steps), g.topic)| < U64 - 2 && n != g.num
    requires After(c, steps).tick.Idle? && InBuf(After(c, steps).rep.buf, g.topic, n)
    requires g.topic in After(c, steps).ack && g.node.value in After(c, steps).ack[g.topic]
    ensures Leads(c, steps, more, true) && Apart(After(c, more).wire, g)
    ensures After(c, more).given == After(c, steps).given && After(c, more).rep.seqs == After(c, steps).rep.seqs
    ensures n <= n' && ReceivedBy(After(c, more).wire, g.node.value, g.topic, n')
  {
    hide After, AllHonest, Apart, ReceivedBy, Ready, Counted;
    var s, t, node := After(c, steps), g.topic, g.node.value;
    more, n' := steps, n;
    if n <= Cutoff(s.ack, t) {
      n' := s.ack[t][node];
      CutoffIsMin(s.ack, t);
      AckedIsReceived(c, steps, node, t);
    } else {
      NumbersAreConsecutive(c, steps, t);
      CountedValue(s, t);
      var lo := BufferIsInterval(c, steps, t);
      var msg: Msg;
      more, msg := BySweep(c, steps, g, n);
      more := GetOne(c, more, TickNext({}), msg, g);
    }
  }

  /** With honest followers a message that its target has not got can be lost, unless it is held. */
  lemma LoseUnlessHeld(c: Config, steps: seq<Step>, g: Target) returns (more: seq<Step>)
    requires c.grpc && g.topic != "" && ContiguousAt(c.boot, g.topic) && Room(After(c, steps))
    requires AllHonest(c, steps) && Apart(After(c, steps).wire, g) && g.node.Some? && g.unread
    requires 1 <= g.num <= |Given(After(c, steps), g.topic)| < I64
    requires !Held(c, After(c, steps), g)
    ensures Leads(c, steps, more, true) && LostTo(After(c, more), g)
    ensures |Given(After(c, more), g.topic)| < U64
  {
    hide Do, After, AllHonest, Apart, LostTo, Resendable, Obtainable, Window, IntDiff, ReceivedBy, Counted;
    var s, t, r, node := After(c, steps), g.topic, g.num, g.node.value;
    NumbersAreConsecutive(c, steps, t);
    CountedValue(s, t);
    if !Resendable(s, t, r) || r < |Given(s, t)| || NotBehind(s.ack, g) {
      more := LoseHonestly(c, steps, g);
    } else if !HeldPubs(c, s, t) {
      var p :| p in s.pubs && s.pubs[p].topic == t &&
        (s.pubs[p].Admitted? || (s.pubs[p].HasMin? && IntDiff(SeqOf(s.rep, t), s.pubs[p].min) < Window(c)));
      more := LosePastCheck(c, steps, g, p);
    } else {
      var n: uint64 :| Obtainable(s, g, n) && n > r - Window(c);
      var n': uint64;
      more, n' := ObtainOne(c, steps, g, n);
      RoomKept(s, After(c, more));
      SameGiven(s, After(c, more), t);
      more := LoseReceived(c, more, g, n');
    }
  }

  // ----- on the empty topic, and without acknowledgements, nothing is ever dropped -----

  lemma {:induction false} NeverRead(c: Config, steps: seq<Step>, t: Topic, n: int)
    requires n >= 1 && (t == "" || !c.grpc)
    ensures !ReadByTick(c, steps, t, n)
  {
    if steps != [] {
      var init := steps[..|steps| - 1];
      NeverRead(c, init, t, n);
      AcksAreNamed(c, init);
      CutoffIsMin(Readable(c, After(c, init)), t);
      hide Do, Cutoff;
    }
  }

  lemma NeverDropped(c: Config, steps: seq<Step>, i: nat, r: uint64)
    requires ContiguousAt(c.boot, "") && i <= |steps| && |Given(After(c, steps), "")| < U64
    requires SeqOf(After(c, steps[..i]).rep, "") < r <= |Given(After(c, steps), "")|
    ensures InBuf(After(c, steps).rep.buf, "", r)
  {
    hide Do, After;
    var lo0 :| Interval(c.boot, "", lo0);
    RunExtends(c, steps[..i], 0);
    RunExtends(c, steps, i);
    assert Given(After(c, steps[..i][..0]), "") <= Given(After(c, steps[..i]), "") <= Given(After(c, steps), "");
    FromStart(c);
    assert steps[..i][..0] == [];
    PastCounted(c, "");
    NumbersAreConsecutive(c, steps[..i], "");
    CountedValue(After(c, steps[..i]), "");
    NothingLostUnread(c, steps, "", lo0, r);
    NeverRead(c, steps, "", r);
  }

  lemma FromStart(c: Config)
    ensures After(c, []) == Start(c)
  {
  }

  // ----- the two directions -----

  ghost predicate MissesIn(c: Config, steps: seq<Step>, more: seq<Step>, id: StreamId, node: NodeId,
                           t: Topic, r: uint64, honest: bool) {
    && Leads(c, steps, more, honest) && |Given(After(c, more), t)| < U64
    && (id in After(c, steps).wire.subs ==> id in After(c, more).wire.subs)
    && Missed(After(c, more), node, t, r)
  }

  /** Some continuation, in which the stream does not fail anew, ends with the node having missed the
      message. */
  ghost predicate CanMiss(c: Config, steps: seq<Step>, id: StreamId, node: NodeId, t: Topic, r: uint64, honest: bool) {
    exists more :: MissesIn(c, steps, more, id, node, t, r, honest)
  }

  lemma OnlyBroken(c: Config, steps: seq<Step>, more: seq<Step>, i: nat, id: StreamId, node: NodeId,
                   t: Topic, r: uint64, honest: bool)
    requires ContiguousAt(c.boot, t) && OpensOnly(c, steps, i, id, node)
    requires SeqOf(After(c, steps[..i]).rep, t) < r && MissesIn(c, steps, more, id, node, t, r, honest)
    ensures var w := After(c, steps).wire;
            t != "" && id !in w.subs && !ReceivedBy(w, node, t, r)
  {
    hide Do, AllHonest, Counted, Pending, OnlyStream, After, ReceivedBy;
    var s, s' := After(c, steps), After(c, more);
    assert more[..i] == steps[..i] && more[..|steps|] == steps;
    OpeningRemembered(c, more, i, id, node);
    if ReceivedBy(s.wire, node, t, r) {
      StillReceived(c, steps, more, node, t, r);
    }
    assert id in s'.wire.subs ==> !CarriedOn(s'.wire, id, node, t, r);
    if id in s'.wire.subs {
      LiveStreamsGetAll(c, more, t, id, r);
    }
    if t == "" {
      NeverDropped(c, more, i, r);
    }
  }

  /** The node's only stream is off and it has not received the message: the node is cut off. */
  lemma BrokenIsApart(w: Wire, id: StreamId, node: NodeId, t: Topic, r: uint64)
    requires WireOk(w) && OnlyStream(w, id, node) && id !in w.subs && !ReceivedBy(w, node, t, r)
    ensures Apart(w, Target(Some(node), true, t, r))
  {
    ReceivedIsTold(w, node, t, r);
    hide ReceivedBy, Told;
  }

  lemma LostIsMissed(s: State, node: NodeId, t: Topic, r: uint64)
    requires LostTo(s, Target(Some(node), true, t, r))
    ensures Missed(s, node, t, r)
  {
    ReceivedIsTold(s.wire, node, t, r);
    hide ReceivedBy, Told;
  }

  /** Main result: when a message can be missed. Take a node that has opened one stream, and a number
      given out since. Some continuation in which that stream does not fail anew ends with the leader
      having dropped the message, and the node having neither received it nor a live stream that
      carries it, exactly when the stream is off already and the node has not received the message;
      the empty topic is never acknowledged and never dropped. With honest followers, exactly when
      moreover the message is not held by the node's own acknowledgement. */
  lemma MissedIff(c: Config, steps: seq<Step>, i: nat, id: StreamId, node: NodeId, t: Topic, r: uint64, honest: bool)
    requires ContiguousAt(c.boot, t) && OpensOnly(c, steps, i, id, node)
    requires SeqOf(After(c, steps[..i]).rep, t) < r <= |Given(After(c, steps), t)|
    requires forall u :: |Given(After(c, steps), u)| < U64 - 2
    requires honest ==> AllHonest(c, steps) && |Given(After(c, steps), t)| < I64
    ensures var s := After(c, steps);
            CanMiss(c, steps, id, node, t, r, honest) <==>
            && t != "" && id !in s.wire.subs && !ReceivedBy(s.wire, node, t, r)
            && (honest ==> !Held(c, s, Target(Some(node), true, t, r)))
  {
    hide Do, AllHonest, After, Counted, Missed, OnlyStream, ReceivedBy, Held;
    var s, g := After(c, steps), Target(Some(node), true, t, r);
    OpeningRemembered(c, steps, i, id, node);
    StreamsArePrefixes(c, steps);
    if CanMiss(c, steps, id, node, t, r, honest) {
      var more :| MissesIn(c, steps, more, id, node, t, r, honest);
      OnlyBroken(c, steps, more, i, id, node, t, r, honest);
      if honest && Held(c, s, g) {
        HeldExcludes(c, steps, more, node, t, r);
      }
    }
    if t != "" && id !in s.wire.subs && !ReceivedBy(s.wire, node, t, r) && (honest ==> !Held(c, s, g)) {
      BrokenIsApart(s.wire, id, node, t, r);
      forall u | u in s.rep.seqs ensures s.rep.seqs[u] < U64 - 2 {
        NumbersAreConsecutive(c, steps, u);
        CountedValue(s, u);
      }
      var more: seq<Step>;
      if honest {
        more := LoseUnlessHeld(c, steps, g);
      } else {
        more := LoseBlindly(c, steps, g);
      }
      LostIsMissed(After(c, more), node, t, r);
      assert MissesIn(c, steps, more, id, node, t, r, honest);
    }
  }

  lemma HeldExcludes(c: Config, steps: seq<Step>, more: seq<Step>, node: NodeId, t: Topic, r: uint64)
    requires c.grpc && r < I64 && Leads(c, steps, more, true)
    requires Held(c, After(c, steps), Target(Some(node), true, t, r))
    ensures !Missed(After(c, more), node, t, r)
  {
    hide After, Held, ReceivedBy, Honest;
    assert more[..|steps|] == steps;
    HeldUntilTold(c, more, |steps|, Target(Some(node), true, t, r));
    ReceivedIsTold(After(c, more).wire, node, t, r);
  }
}
