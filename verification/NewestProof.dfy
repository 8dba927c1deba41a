/** Backpressure protects the newest message: while the acknowledgements of its target keep the
    window shut, and nothing within the window is left for it to acknowledge, the leader keeps the
    message until it has reached the target. */
module NewestProof {
  import opened Base
  import opened ReplBuffer
  import opened ReplServer
  import opened Protocol
  import opened BufferProof
  import opened SweepProof
  import opened StreamProof
  import opened DeliveryProof
  import opened LossProof

  /** Position `j` of the stream holds number `n`, with no target message up to there. */
  ghost predicate ReadableAt(st: Stream, g: Target, n: int, j: int) {
    && 0 <= j < |st.sent| && st.sent[j].topic == g.topic && st.sent[j].num == n
    && forall i :: 0 <= i <= j ==> !IsIt(g, st.sent[i])
  }

  /** A target has read number `n` on the stream, or can, without reading the target message first. */
  ghost predicate ReadableOn(w: Wire, id: StreamId, g: Target, n: int) {
    id in w.streams && Meant(g, w.streams[id].node) && exists j :: ReadableAt(w.streams[id], g, n, j)
  }

  /** A target can come to acknowledge number `n` without having got the target message: it is on a
      stream of it, with a publisher, or will be resent. */
  ghost predicate Obtainable(s: State, g: Target, n: uint64) {
    && n != g.num
    && (Pending(s, g.topic, n) || Resendable(s, g.topic, n) || exists id :: ReadableOn(s.wire, id, g, n))
  }

  /** No publisher of the topic is past the window check, or has read a minimum that lets it pass. */
  ghost predicate HeldPubs(c: Config, s: State, t: Topic) {
    forall p :: p in s.pubs && s.pubs[p].topic == t ==>
      !s.pubs[p].Admitted? && (s.pubs[p].HasMin? ==> IntDiff(SeqOf(s.rep, t), s.pubs[p].min) >= Window(c))
  }

  /** The acknowledgements of the target count: the node has acknowledged something on the topic; or
      everybody is meant, and having acknowledged nothing is out of the window too. */
  ghost predicate Counts(c: Config, ack: Acks, g: Target) {
    match g.node
    case Some(node) => g.topic in ack && node in ack[g.topic]
    case None => Window(c) <= g.num
  }

  /** The message is the newest of the topic and the leader keeps it; the acknowledgements of the
      target count; nobody is through the window; and no other number that the target could
      acknowledge is within the window. */
  ghost predicate Held(c: Config, s: State, g: Target) {
    && |Given(s, g.topic)| == SeqOf(s.rep, g.topic) == g.num && Resendable(s, g.topic, g.num)
    && Counts(c, s.ack, g) && HeldPubs(c, s, g.topic)
    && forall n: uint64 :: Obtainable(s, g, n) ==> n <= g.num - Window(c)
  }

  ghost predicate TargetHonest(c: Config, steps: seq<Step>, g: Target) {
    forall x :: Meant(g, x) ==> Honest(c, steps, x)
  }

  lemma ReceivedIsReadable(w: Wire, node: NodeId, g: Target, n: int)
    requires ReceivedBy(w, node, g.topic, n) && Meant(g, node) && !Told(w, g)
    ensures exists id :: ReadableOn(w, id, g, n)
  {
    var id :| ReceivedOn(w, id, node, g.topic, n);
    var st := w.streams[id];
    var j :| 0 <= j < st.received && st.sent[j].topic == g.topic && st.sent[j].num == n;
    assert !ToldOn(w, id, g);
    forall i | 0 <= i <= j ensures !IsIt(g, st.sent[i]) {
      assert st.sent[i] in st.sent;
    }
    assert ReadableAt(st, g, n, j);
    assert ReadableOn(w, id, g, n);
  }

  /** What the target has acknowledged it can acknowledge again, so the minimum is out of the
      window. */
  lemma HeldCutoff(c: Config, s: State, g: Target)
    requires Held(c, s, g) && !Told(s.wire, g) && forall x :: Meant(g, x) ==> AcksReceived(s.wire, s.ack, x)
    ensures Cutoff(s.ack, g.topic) <= g.num - Window(c)
  {
    hide ReceivedBy, Window, Resendable, Pending, Told, HeldPubs;
    var nodes: NodeAcks := At(s.ack, g.topic, map[]);
    CutoffIsMin(s.ack, g.topic);
    hide Cutoff;
    if node :| Meant(g, node) && node in nodes {
      assert AcksReceived(s.wire, s.ack, node);
      ReceivedIsReadable(s.wire, node, g, nodes[node]);
      if nodes[node] == g.num {
        ReadableIsOther(s.wire, g);
      }
      assert Obtainable(s, g, nodes[node]);
    }
  }

  lemma ReadableIsOther(w: Wire, g: Target)
    ensures !exists id :: ReadableOn(w, id, g, g.num)
  {
  }

  lemma HeldPubsStep(c: Config, s: State, step: Step, t: Topic, r: uint64)
    requires c.grpc && r < I64 && |Given(s, t)| == SeqOf(s.rep, t) == r && HeldPubs(c, s, t)
    requires Cutoff(s.ack, t) <= r - Window(c)
    ensures HeldPubs(c, Do(c, s, step), t)
  {
    HeldRecord(c, s, step, t, r);
    hide Cutoff, Assign, Clean, Broadcast, Window;
  }

  lemma HeldRecord(c: Config, s: State, step: Step, t: Topic, r: uint64)
    requires |Given(s, t)| == SeqOf(s.rep, t) == r && HeldPubs(c, s, t)
    ensures var s' := Do(c, s, step);
            && |Given(s', t)| == SeqOf(s'.rep, t) == r
            && forall n: uint64 :: InBuf(s'.rep.buf, t, n) ==> InBuf(s.rep.buf, t, n)
  {
    StepFrame(c, s, step);
    GivenStep(c, s, step, t);
    if Enabled(c, s, step) && step.Number? {
      NumberEntries(c, s, step.p, t);
    } else if Enabled(c, s, step) && step.TickTopic? {
      TickTopicEntries(c, s, step.topic, t);
    }
    hide Do, Assign, Cutoff, Clean;
  }

  /** Nothing becomes resendable that was not: a tick that ends has dropped what it was to drop. */
  lemma ResendableStep(c: Config, steps: seq<Step>, step: Step, t: Topic, n: uint64)
    requires c.grpc && SeqOf(After(c, steps).rep, t) < U64 - 1
    requires Resendable(Do(c, After(c, steps), step), t, n) && InBuf(After(c, steps).rep.buf, t, n)
    ensures Resendable(After(c, steps), t, n)
  {
    var s := After(c, steps);
    SnapStep(c, s, step);
    TickFrame(c, s, step);
    hide Do, After, Cutoff, InBuf;
    if step.TickUnlock? && Enabled(c, s, step) {
      SweptIsClean(c, steps, t, n);
    }
  }

  lemma TickFrame(c: Config, s: State, step: Step)
    ensures Do(c, s, step).tick.Idle? ==> s.tick.Idle? || (step.TickUnlock? && Enabled(c, s, step))
  {
  }

  /** The newest number stays: the tick under way does not drop it, and the next one reads less. */
  lemma NewestKept(c: Config, s: State, step: Step, t: Topic, r: uint64)
    requires c.grpc && Resendable(s, t, r) && Cutoff(s.ack, t) < r
    requires SeqOf(s.rep, t) == r < U64 - 1 && (step.Number? && Enabled(c, s, step) ==> s.pubs[step.p].topic != t)
    ensures Resendable(Do(c, s, step), t, r)
  {
    StepFrame(c, s, step);
    SnapStep(c, s, step);
    TickFrame(c, s, step);
    if Enabled(c, s, step) && step.Number? {
      NumberEntries(c, s, step.p, t);
    } else if Enabled(c, s, step) && step.TickTopic? {
      TickTopicEntries(c, s, step.topic, t);
    }
    hide Do, Assign, Cutoff, Clean;
  }

  /** A message put on a stream is one that a publisher holds or the sweep resends. */
  lemma SentIsObtainable(c: Config, steps: seq<Step>, step: Step, ms: seq<Msg>)
    requires c.grpc && ms != [] && SeqOf(After(c, steps).rep, ms[0].topic) < U64 - 1
    requires Do(c, After(c, steps), step).wire.log == After(c, steps).wire.log + ms
    ensures Pending(After(c, steps), ms[0].topic, ms[0].num) || Resendable(After(c, steps), ms[0].topic, ms[0].num)
  {
    var s := After(c, steps);
    var msgs := LogStep(c, s, step);
    assert (s.wire.log + ms)[|s.wire.log|] == (s.wire.log + msgs)[|s.wire.log|];
    StepFrame(c, s, step);
    if step.Send? {
      assert NumberedOn(s, step.p, ms[0].topic);
    } else {
      CursorSends(c, s, step, ms);
      hide Do, Cutoff, After;
      SweepProgress(c, steps, ms[0].topic);
      SweptIsClean(c, steps, ms[0].topic, ms[0].num);
    }
  }

  lemma CursorSends(c: Config, s: State, step: Step, ms: seq<Msg>)
    requires step.TickNext? && ms != [] && Do(c, s, step).wire.log == s.wire.log + ms
    ensures s.tick.Sweeping? && s.tick.cursor.Some? && s.tick.cursor.value.topic == ms[0].topic
  {
    if Enabled(c, s, step) {
      TurnSends(c, s, step);
      assert (s.wire.log + ms)[|s.wire.log|] == ms[0];
    }
  }

  lemma ReadableEarlier(st: Stream, st': Stream, g: Target, n: int, j: int)
    requires st.sent <= st'.sent && j < |st.sent| && ReadableAt(st', g, n, j)
    ensures ReadableAt(st, g, n, j)
  {
    assert forall i :: 0 <= i <= j ==> st.sent[i] == st'.sent[i];
  }

  /** A number that a target can newly read was obtainable before. */
  lemma ReadableStep(c: Config, steps: seq<Step>, step: Step, id: StreamId, g: Target, n: uint64)
    requires c.grpc && SeqOf(After(c, steps).rep, g.topic) < U64 - 1 && n != g.num
    requires ReadableOn(Do(c, After(c, steps), step).wire, id, g, n)
    ensures Obtainable(After(c, steps), g, n)
  {
    var s, s' := After(c, steps), Do(c, After(c, steps), step);
    var ms := WireStepCases(c, s, step);
    hide Do, After, Cutoff, Resendable, Pending;
    assert id in s.wire.streams;
    var st, st' := s.wire.streams[id], s'.wire.streams[id];
    var j :| ReadableAt(st', g, n, j);
    if j < |st.sent| {
      ReadableEarlier(st, st', g, n, j);
      assert ReadableOn(s.wire, id, g, n);
    } else {
      assert ms != [] && st' == Accept(st, ms[0]) && s'.wire.log == s.wire.log + ms;
      SentIsObtainable(c, steps, step, ms);
    }
  }

  lemma ObtainableStep(c: Config, steps: seq<Step>, step: Step, g: Target, n: uint64)
    requires c.grpc && g.num < I64 && Held(c, After(c, steps), g) && Counted(After(c, steps), g.topic)
    requires Obtainable(Do(c, After(c, steps), step), g, n)
    ensures Obtainable(After(c, steps), g, n)
  {
    var s, s', t := After(c, steps), Do(c, After(c, steps), step), g.topic;
    HeldRecord(c, s, step, t, g.num);
    PendingStep(c, s, step, t);
    hide Do, After, Window, Resendable, ReadableOn;
    if Resendable(s', t, n) {
      ResendableIsIn(s', t, n);
      ResendableStep(c, steps, step, t, n);
    } else if !Pending(s', t, n) {
      var id :| ReadableOn(s'.wire, id, g, n);
      ReadableStep(c, steps, step, id, g, n);
    }
  }

  lemma ResendableIsIn(s: State, t: Topic, n: uint64)
    requires Resendable(s, t, n)
    ensures InBuf(s.rep.buf, t, n)
  {
  }

  lemma HeldNext(c: Config, steps: seq<Step>, step: Step, g: Target)
    requires c.grpc && g.num < I64 && Held(c, After(c, steps), g) && TargetHonest(c, steps, g)
    requires !Told(After(c, steps).wire, g)
    ensures Held(c, Do(c, After(c, steps), step), g)
  {
    var s, s', t, r := After(c, steps), Do(c, After(c, steps), step), g.topic, g.num;
    NumbersAreConsecutive(c, steps, t);
    forall x | Meant(g, x) ensures AcksReceived(s.wire, s.ack, x) {
      assert Honest(c, steps, x);
      AcknowledgedIsReceived(c, steps, x);
    }
    HeldCutoff(c, s, g);
    HeldRecord(c, s, step, t, r);
    HeldPubsStep(c, s, step, t, r);
    NewestKept(c, s, step, t, r);
    AckStepCases(c, s, step);
    hide Do, After, Window, Cutoff, Resendable, Told, HeldPubs, Counted, Given, AcksReceived;
    forall n: uint64 | Obtainable(s', g, n) ensures n <= r - Window(c) {
      ObtainableStep(c, steps, step, g, n);
    }
  }

  lemma ToldLater(w: Wire, w': Wire, g: Target)
    requires Later(w, w') && WireOk(w') && Told(w, g)
    ensures Told(w', g)
  {
    var id :| ToldOn(w, id, g);
    assert LaterAt(w, w', id) && StreamOk(w', id);
    var st, st' := w.streams[id], w'.streams[id];
    if g.unread {
      var j :| 0 <= j < st.received && st.sent[j].topic == g.topic && st.sent[j].num == g.num;
      assert st'.sent[j] == st.sent[j];
    }
    assert ToldOn(w', id, g);
  }

  /** Main result: from such a state the leader keeps the newest message until it has reached the
      target, over every continuation in which the target is honest, whatever streams break. */
  lemma {:induction false} HeldUntilTold(c: Config, steps: seq<Step>, i: nat, g: Target)
    requires c.grpc && g.num < I64 && i <= |steps| && Held(c, After(c, steps[..i]), g)
    requires TargetHonest(c, steps, g)
    ensures Held(c, After(c, steps), g) || Told(After(c, steps).wire, g)
    ensures Gone(After(c, steps), g.topic, g.num) ==> Told(After(c, steps).wire, g)
  {
    hide Do, Held, Told;
    if i == |steps| {
      assert steps[..i] == steps;
    } else {
      var init, step := steps[..|steps| - 1], steps[|steps| - 1];
      assert init[..i] == steps[..i];
      forall x | Meant(g, x) ensures Honest(c, init, x) {
        assert Honest(c, steps, x);
      }
      HeldUntilTold(c, init, i, g);
      if Told(After(c, init).wire, g) {
        LaterStep(c, After(c, init), step);
        StreamsArePrefixes(c, steps);
        ToldLater(After(c, init).wire, After(c, steps).wire, g);
      } else {
        HeldNext(c, init, step, g);
      }
    }
    if Held(c, After(c, steps), g) {
      HeldStays(c, After(c, steps), g);
    }
  }

  lemma HeldStays(c: Config, s: State, g: Target)
    requires Held(c, s, g)
    ensures !Gone(s, g.topic, g.num)
  {
  }
}
