/** When a message is lost to a node for good. */
module LossProof {
  import opened Base
  import opened ReplBuffer
  import opened ReplServer
  import opened Protocol
  import opened BufferProof
  import opened StreamProof
  import opened DeliveryProof

  /** The leader no longer has the message: nothing is left to broadcast it. */
  ghost predicate Gone(s: State, t: Topic, r: uint64) {
    1 <= r <= |Given(s, t)| && !InBuf(s.rep.buf, t, r) && !Pending(s, t, r)
  }

  /** The message was put on the stream, received or not. */
  ghost predicate Carried(st: Stream, t: Topic, r: int) {
    exists m :: m in st.sent && m.topic == t && m.num == r
  }

  /** The leader no longer has the message, the node has not received it, and no live stream of the
      node carries it. */
  ghost predicate Missed(s: State, node: NodeId, t: Topic, r: uint64) {
    Gone(s, t, r) && !ReceivedBy(s.wire, node, t, r) && !LiveTo(s.wire, node, t, r)
  }

  ghost predicate LiveTo(w: Wire, node: NodeId, t: Topic, r: int) {
    exists id :: id in w.subs && CarriedOn(w, id, node, t, r)
  }

  ghost predicate CarriedOn(w: Wire, id: StreamId, node: NodeId, t: Topic, r: int) {
    id in w.streams && w.streams[id].node == node && Carried(w.streams[id], t, r)
  }

  /** A message that one node, or every node if none is named, has been spared: it has not received
      it (`unread`), or no stream of it has even carried it. */
  datatype Target = Target(node: Option<NodeId>, unread: bool, topic: Topic, num: uint64)

  predicate Meant(g: Target, node: NodeId) {
    g.node == None || g.node == Some(node)
  }

  predicate IsIt(g: Target, m: Msg) {
    m.topic == g.topic && m.num == g.num
  }

  ghost predicate ToldOn(w: Wire, id: StreamId, g: Target) {
    && id in w.streams && Meant(g, w.streams[id].node)
    && var st := w.streams[id];
    if g.unread then st.received <= |st.sent| && Received(st, g.topic, g.num) else Carried(st, g.topic, g.num)
  }

  ghost predicate Told(w: Wire, g: Target) {
    exists id :: ToldOn(w, id, g)
  }

  ghost predicate NoLive(w: Wire, g: Target) {
    forall id :: id in w.subs && id in w.streams ==> !Meant(g, w.streams[id].node)
  }

  lemma GoneBufStep(c: Config, s: State, step: Step, t: Topic, r: uint64)
    requires Counted(s, t) && |Given(Do(c, s, step), t)| < U64 && r <= |Given(s, t)|
    ensures InBuf(Do(c, s, step).rep.buf, t, r) ==> InBuf(s.rep.buf, t, r)
  {
    StepFrame(c, s, step);
    GivenStep(c, s, step, t);
    if Enabled(c, s, step) && step.Number? {
      NumberEntries(c, s, step.p, t);
    } else if Enabled(c, s, step) && step.TickTopic? {
      TickTopicEntries(c, s, step.topic, t);
    }
    hide Do, Assign, Cutoff, Clean;
  }

  /** A step neither brings the message back nor broadcasts it. */
  lemma GoneStep(c: Config, s: State, step: Step, t: Topic, r: uint64) returns (ms: seq<Msg>)
    requires Counted(s, t) && |Given(Do(c, s, step), t)| < U64 && Gone(s, t, r)
    ensures Gone(Do(c, s, step), t, r)
    ensures Do(c, s, step).wire.log == s.wire.log + ms
    ensures forall m :: m in ms ==> !(m.topic == t && m.num == r)
  {
    ms := LogStep(c, s, step);
    GoneBufStep(c, s, step, t, r);
    PendingStep(c, s, step, t);
    hide Do, Counted;
    if ms != [] && step.Send? && ms[0].topic == t {
      assert NumberedOn(s, step.p, t);
    }
  }

  /** Main result: gone is gone. Over every continuation the message stays gone and is never
      broadcast again. */
  lemma {:induction false} GoneForever(c: Config, steps: seq<Step>, i: nat, t: Topic, r: uint64)
    requires i <= |steps| && |Given(After(c, steps), t)| < U64 && Gone(After(c, steps[..i]), t, r)
    ensures Gone(After(c, steps), t, r)
    ensures var log := After(c, steps).wire.log;
            forall k :: |After(c, steps[..i]).wire.log| <= k < |log| ==> !(log[k].topic == t && log[k].num == r)
  {
    hide Do, Gone;
    if i == |steps| {
      assert steps[..i] == steps;
    } else {
      var init, step := steps[..|steps| - 1], steps[|steps| - 1];
      assert init[..i] == steps[..i];
      GivenGrows(c, After(c, init), step, t);
      GoneForever(c, init, i, t, r);
      NumbersAreConsecutive(c, init, t);
      var ms := GoneStep(c, After(c, init), step, t, r);
    }
  }

  /** A spared message reaches its target only by being read, or by being broadcast to a live
      stream. */
  lemma ToldStep(c: Config, s: State, step: Step, g: Target)
    requires WireOk(s.wire) && !Told(s.wire, g) && Told(Do(c, s, step).wire, g)
    ensures if g.unread
            then step.Receive? && Enabled(c, s, step) && Meant(g, s.wire.streams[step.id].node)
                 && IsIt(g, s.wire.streams[step.id].sent[s.wire.streams[step.id].received])
            else !NoLive(s.wire, g) && exists m :: m in Do(c, s, step).wire.log[|s.wire.log|..] && IsIt(g, m)
  {
    var s' := Do(c, s, step);
    var ms := WireStepCases(c, s, step);
    assert WireMoves(s.wire, s'.wire, step, ms);
    hide Do, WireMoves;
    var id :| ToldOn(s'.wire, id, g);
    assert !ToldOn(s.wire, id, g);
    if g.unread {
      ReadStep(s.wire, s'.wire, step, ms, id, g);
    } else {
      CarryStep(s.wire, s'.wire, step, ms, id, g);
    }
  }

  lemma CarryStep(w: Wire, w': Wire, step: Step, ms: seq<Msg>, id: StreamId, g: Target)
    requires !g.unread && ToldOn(w', id, g) && !ToldOn(w, id, g)
    requires WireMoves(w, w', step, ms)
    ensures id in w.subs && id in w.streams && Meant(g, w.streams[id].node)
    ensures |w.log| <= |w'.log| && exists m :: m in w'.log[|w.log|..] && IsIt(g, m)
  {
    assert id in w'.streams && w'.streams[id].sent != [];
    assert id in w.streams;
    var st, st' := w.streams[id], w'.streams[id];
    var m :| m in st'.sent && m.topic == g.topic && m.num == g.num;
    assert m !in st.sent;
    assert |ms| == 1 && w'.log == w.log + ms && id in w.subs && st' == Accept(st, ms[0]);
    hide WireMoves;
    assert m == ms[0];
    assert w'.log[|w.log|..] == ms;
  }

  /** What a step can do to the wire. */
  ghost predicate WireMoves(w: Wire, w': Wire, step: Step, ms: seq<Msg>) {
    || w' == w
    || (step.Open? && step.id !in w.streams && exists base :: w' == AddSub(w, step.id, step.node, base))
    || (step.Disconnect? && w' == RemoveSub(w, step.id))
    || (step.Receive? && step.id in w.streams && w' == ReceiveOne(w, step.id))
    || (|ms| == 1 && exists failed :: w' == Broadcast(w, ms[0], failed))
  }

  lemma ReadStep(w: Wire, w': Wire, step: Step, ms: seq<Msg>, id: StreamId, g: Target)
    requires WireOk(w) && g.unread && ToldOn(w', id, g) && !ToldOn(w, id, g)
    requires WireMoves(w, w', step, ms)
    ensures step.Receive? && id == step.id && id in w.streams && w.streams[id].received < |w.streams[id].sent|
    ensures IsIt(g, w.streams[id].sent[w.streams[id].received])
  {
    assert id in w.streams ==> StreamOk(w, id);
    assert id in w'.streams && w'.streams[id].received > 0;
    assert id in w.streams;
    var st, st' := w.streams[id], w'.streams[id];
    assert st' == st || (exists m :: st' == Accept(st, m)) || st' == st.(received := st.received + 1);
    hide WireMoves, WireOk;
    var j :| 0 <= j < st'.received && st'.sent[j].topic == g.topic && st'.sent[j].num == g.num;
    assert !Received(st, g.topic, g.num);
  }

  /** What no stream of a node has carried before the leader dropped it, none ever will, however
      often the node reconnects. */
  lemma {:induction false} LostForever(c: Config, steps: seq<Step>, i: nat, g: Target)
    requires i <= |steps| && |Given(After(c, steps), g.topic)| < U64 && !g.unread
    requires Gone(After(c, steps[..i]), g.topic, g.num) && !Told(After(c, steps[..i]).wire, g)
    ensures Gone(After(c, steps), g.topic, g.num) && !Told(After(c, steps).wire, g)
  {
    hide Do, Gone, Told;
    if i == |steps| {
      assert steps[..i] == steps;
    } else {
      var init, step := steps[..|steps| - 1], steps[|steps| - 1];
      assert init[..i] == steps[..i];
      GivenGrows(c, After(c, init), step, g.topic);
      LostForever(c, init, i, g);
      NumbersAreConsecutive(c, init, g.topic);
      StreamsArePrefixes(c, init);
      var ms := GoneStep(c, After(c, init), step, g.topic, g.num);
      if Told(After(c, steps).wire, g) {
        ToldStep(c, After(c, init), step, g);
      }
    }
  }

  // ----- missed for good -----

  /** From position `i` on, nothing more is read from the streams of the node that are off by then. */
  ghost predicate StopsReading(steps: seq<Step>, i: nat, w: Wire, node: NodeId) {
    forall k :: i <= k < |steps| && steps[k].Receive? && steps[k].id in w.streams ==>
      w.streams[steps[k].id].node == node ==> steps[k].id in w.subs
  }

  /** Only streams that are off in `w` carry the message. */
  ghost predicate OnlyOff(w: Wire, w': Wire, node: NodeId, t: Topic, r: int) {
    forall id :: CarriedOn(w', id, node, t, r) ==> id in w.streams && w.streams[id].node == node && id !in w.subs
  }

  lemma OnlyOffStep(c: Config, s: State, step: Step, w: Wire, node: NodeId, t: Topic, r: uint64)
    requires Counted(s, t) && |Given(Do(c, s, step), t)| < U64 && Gone(s, t, r) && OnlyOff(w, s.wire, node, t, r)
    ensures OnlyOff(w, Do(c, s, step).wire, node, t, r)
  {
    var s', g := Do(c, s, step), Target(Some(node), false, t, r);
    var gone := GoneStep(c, s, step, t, r);
    var ms := WireStepCases(c, s, step);
    assert WireMoves(s.wire, s'.wire, step, ms);
    hide Do, WireMoves, Gone;
    forall id | CarriedOn(s'.wire, id, node, t, r) ensures CarriedOn(s.wire, id, node, t, r) {
      assert ToldOn(s'.wire, id, g);
      if !ToldOn(s.wire, id, g) {
        CarryStep(s.wire, s'.wire, step, ms, id, g);
      }
    }
  }

  lemma UnreadStep(c: Config, s: State, step: Step, w: Wire, node: NodeId, t: Topic, r: uint64)
    requires WireOk(s.wire) && !ReceivedBy(s.wire, node, t, r) && OnlyOff(w, s.wire, node, t, r)
    requires step.Receive? && step.id in w.streams && w.streams[step.id].node == node ==> step.id in w.subs
    ensures !ReceivedBy(Do(c, s, step).wire, node, t, r)
  {
    var g := Target(Some(node), true, t, r);
    ReceivedIsTold(s.wire, node, t, r);
    ReceivedIsTold(Do(c, s, step).wire, node, t, r);
    hide ReceivedBy;
    if Told(Do(c, s, step).wire, g) {
      ToldStep(c, s, step, g);
      NextIsCarried(s.wire, step.id, node, t, r);
    }
  }

  lemma NextIsCarried(w: Wire, id: StreamId, node: NodeId, t: Topic, r: uint64)
    requires id in w.streams && w.streams[id].node == node && w.streams[id].received < |w.streams[id].sent|
    requires var m := w.streams[id].sent[w.streams[id].received]; m.topic == t && m.num == r
    ensures CarriedOn(w, id, node, t, r)
  {
  }

  lemma ReceivedIsTold(w: Wire, node: NodeId, t: Topic, r: uint64)
    ensures ReceivedBy(w, node, t, r) <==> Told(w, Target(Some(node), true, t, r))
  {
    var g := Target(Some(node), true, t, r);
    assert forall id :: ReceivedOn(w, id, node, t, r) <==> ToldOn(w, id, g);
  }

  /** Main result: what a node has missed it never gets, over every continuation in which it reads
      nothing more from the streams that are off by now, however often it reconnects. */
  lemma {:induction false} MissedForever(c: Config, steps: seq<Step>, i: nat, node: NodeId, t: Topic, r: uint64)
    requires i <= |steps| && |Given(After(c, steps), t)| < U64 && Missed(After(c, steps[..i]), node, t, r)
    requires StopsReading(steps, i, After(c, steps[..i]).wire, node)
    ensures Missed(After(c, steps), node, t, r)
  {
    hide Do, Gone, ReceivedBy;
    MissedUpTo(c, steps, i, node, t, r);
    DroppedStreamsStaySilent(c, steps, i);
    var w, w' := After(c, steps[..i]).wire, After(c, steps).wire;
    forall id | CarriedOn(w', id, node, t, r) ensures id !in w'.subs {
      assert LaterAt(w, w', id);
    }
  }

  lemma {:induction false} MissedUpTo(c: Config, steps: seq<Step>, i: nat, node: NodeId, t: Topic, r: uint64)
    requires i <= |steps| && |Given(After(c, steps), t)| < U64 && Missed(After(c, steps[..i]), node, t, r)
    requires StopsReading(steps, i, After(c, steps[..i]).wire, node)
    ensures Gone(After(c, steps), t, r) && !ReceivedBy(After(c, steps).wire, node, t, r)
    ensures OnlyOff(After(c, steps[..i]).wire, After(c, steps).wire, node, t, r)
  {
    hide Do, Gone, ReceivedBy;
    if i == |steps| {
      assert steps[..i] == steps;
    } else {
      var init, step := steps[..|steps| - 1], steps[|steps| - 1];
      assert init[..i] == steps[..i];
      assert forall k :: 0 <= k < |init| ==> init[k] == steps[k];
      GivenGrows(c, After(c, init), step, t);
      MissedUpTo(c, init, i, node, t, r);
      NumbersAreConsecutive(c, init, t);
      StreamsArePrefixes(c, init);
      var ms := GoneStep(c, After(c, init), step, t, r);
      OnlyOffStep(c, After(c, init), step, After(c, steps[..i]).wire, node, t, r);
      UnreadStep(c, After(c, init), step, After(c, steps[..i]).wire, node, t, r);
    }
  }
}
