/** Runs that lose a message: how the leader comes to drop what a node has never got. */
module LossRuns {
  import opened Base
  import opened ReplBuffer
  import opened ReplServer
  import opened Protocol
  import opened SweepProof
  import opened StreamProof
  import opened DeliveryProof
  import opened LossProof

  /** The message has not reached its target. */
  ghost predicate Spared(w: Wire, g: Target) {
    WireOk(w) && !Told(w, g)
  }

  /** ... and the target is cut off. */
  ghost predicate Apart(w: Wire, g: Target) {
    NoLive(w, g) && Spared(w, g)
  }

  /** ... and the leader no longer has it. */
  ghost predicate LostTo(s: State, g: Target) {
    Gone(s, g.topic, g.num) && Apart(s.wire, g)
  }

  /** The run goes on from `steps` to `more`, with honest followers if asked for. */
  ghost predicate Leads(c: Config, steps: seq<Step>, more: seq<Step>, honest: bool) {
    steps <= more && (honest ==> AllHonest(c, more))
  }

  lemma Next(c: Config, steps: seq<Step>, step: Step, honest: bool)
    requires honest ==> AllHonest(c, steps)
    requires honest && step.Ack? ==> ReceivedBy(After(c, steps).wire, step.node, step.topic, step.num)
    ensures After(c, steps + [step]) == Do(c, After(c, steps), step)
    ensures Leads(c, steps, steps + [step], honest)
  {
    hide Do, AllHonest;
    if honest {
      Go(c, steps, step);
    }
    assert (steps + [step])[..|steps|] == steps;
  }

  /** Reading the next message of the stream, if there is one, does not tell the target. */
  ghost predicate SafeRead(w: Wire, id: StreamId, g: Target) {
    id in w.streams && g.unread && Meant(g, w.streams[id].node) ==>
      w.streams[id].received < |w.streams[id].sent| ==> !IsIt(g, w.streams[id].sent[w.streams[id].received])
  }

  lemma SparedStep(c: Config, s: State, step: Step, g: Target)
    requires Spared(s.wire, g) && (step.Receive? ==> SafeRead(s.wire, step.id, g))
    requires g.unread || NoLive(s.wire, g) || (!step.Send? && !step.TickNext?)
    ensures Spared(Do(c, s, step).wire, g)
  {
    WireStep(c, s, step);
    StepFrame(c, s, step);
    hide Do, WireOk, Told;
    if Told(Do(c, s, step).wire, g) {
      ToldStep(c, s, step, g);
    }
  }

  /** A target that is cut off gets nothing from steps that neither open a stream of it nor read. */
  lemma ApartStep(c: Config, s: State, step: Step, g: Target)
    requires Apart(s.wire, g) && !step.Receive? && !(step.Open? && Meant(g, step.node))
    ensures Apart(Do(c, s, step).wire, g)
  {
    SparedStep(c, s, step, g);
    var ms := WireStepCases(c, s, step);
    hide Do, Spared;
  }

  lemma TurnFrame(c: Config, s: State, step: Step)
    requires Turn(step)
    ensures Do(c, s, step).ack == s.ack && Do(c, s, step).given == s.given
  {
  }

  lemma {:induction false} TurnsApart(c: Config, steps: seq<Step>, more: seq<Step>, honest: bool, g: Target)
    requires steps <= more && forall k :: |steps| <= k < |more| ==> Turn(more[k])
    requires (honest ==> AllHonest(c, steps)) && Apart(After(c, steps).wire, g)
    ensures Leads(c, steps, more, honest) && Apart(After(c, more).wire, g)
    ensures After(c, more).ack == After(c, steps).ack && After(c, more).given == After(c, steps).given
  {
    hide Do, AllHonest, Apart;
    if |steps| < |more| {
      var init, step := more[..|more| - 1], more[|more| - 1];
      TurnsApart(c, steps, init, honest, g);
      assert init + [step] == more;
      Next(c, init, step, honest);
      ApartStep(c, After(c, init), step, g);
      TurnFrame(c, After(c, init), step);
    } else {
      assert more == steps;
    }
  }

  /** The tick under way ends. */
  lemma EndTick(c: Config, steps: seq<Step>, honest: bool, g: Target) returns (more: seq<Step>)
    requires c.grpc && Small(After(c, steps))
    requires (honest ==> AllHonest(c, steps)) && Apart(After(c, steps).wire, g)
    ensures Leads(c, steps, more, honest) && Apart(After(c, more).wire, g)
    ensures var s, s' := After(c, steps), After(c, more);
            && s'.tick.Idle? && s'.rep.seqs == s.rep.seqs && s'.ack == s.ack && s'.given == s.given && s'.pubs == s.pubs
            && forall n: uint64 :: InBuf(s'.rep.buf, g.topic, n) <==> Resendable(s, g.topic, n)
  {
    hide After, AllHonest, Apart, InBuf, Resendable;
    more := TickEnds(c, steps, g.topic);
    TurnsApart(c, steps, more, honest, g);
  }

  lemma SendFrame(c: Config, s: State, p: PubId)
    requires p in s.pubs && s.pubs[p].Numbered?
    ensures Do(c, s, Send(p, {})) == s.(pubs := s.pubs - {p}, wire := Do(c, s, Send(p, {})).wire)
    ensures |Do(c, s, Send(p, {})).pubs| < |s.pubs|
  {
    assert (s.pubs - {p}).Keys == s.pubs.Keys - {p};
  }

  /** Publishers that hold the message broadcast it, to others. */
  lemma {:induction false} SendPending(c: Config, steps: seq<Step>, honest: bool, g: Target) returns (more: seq<Step>)
    requires (honest ==> AllHonest(c, steps)) && Apart(After(c, steps).wire, g)
    ensures Leads(c, steps, more, honest) && Apart(After(c, more).wire, g)
    ensures !Pending(After(c, more), g.topic, g.num)
    ensures var s, s' := After(c, steps), After(c, more);
            s'.rep == s.rep && s'.tick == s.tick && s'.ack == s.ack && s'.given == s.given
    decreases |After(c, steps).pubs|
  {
    hide Do, AllHonest, Apart;
    var s := After(c, steps);
    more := steps;
    if Pending(s, g.topic, g.num) {
      var p :| NumberedOn(s, p, g.topic) && s.pubs[p].num == g.num;
      SendFrame(c, s, p);
      ApartStep(c, s, Send(p, {}), g);
      Next(c, steps, Send(p, {}), honest);
      more := SendPending(c, steps + [Send(p, {})], honest, g);
    }
  }

  /** The tick under way ends and the message is sent, to others. */
  lemma Settle(c: Config, steps: seq<Step>, honest: bool, g: Target) returns (more: seq<Step>)
    requires c.grpc && Small(After(c, steps))
    requires (honest ==> AllHonest(c, steps)) && Apart(After(c, steps).wire, g)
    ensures Leads(c, steps, more, honest) && Apart(After(c, more).wire, g)
    ensures !Pending(After(c, more), g.topic, g.num)
    ensures var s, s' := After(c, steps), After(c, more);
            && s'.tick.Idle? && s'.rep.seqs == s.rep.seqs && s'.ack == s.ack && s'.given == s.given
            && forall n: uint64 :: InBuf(s'.rep.buf, g.topic, n) <==> Resendable(s, g.topic, n)
  {
    hide After, AllHonest, Apart, InBuf, Resendable;
    more := EndTick(c, steps, honest, g);
    more := SendPending(c, more, honest, g);
  }

  lemma DropStates(c: Config, s: State, t: Topic)
    requires s.tick.Idle? && t in s.rep.buf
    ensures var s2 := Do(c, Do(c, s, TickRead), TickLock);
            var s3 := Do(c, s2, TickTopic(t));
            && s2 == s.(tick := Sweeping(Readable(c, s), s.rep.buf.Keys, None))
            && s3 == s.(tick := s3.tick, rep := s3.rep) && s3.rep.seqs == s.rep.seqs && s3.tick.Sweeping?
            && s3.tick.cursor == (if c.grpc then Some(Cursor(t, Inc(Cutoff(Readable(c, s), t)))) else None)
            && EntriesOf(s3.rep.buf, t) == Above(EntriesOf(s.rep.buf, t), Cutoff(Readable(c, s), t))
  {
    hide Cutoff, FilesUpTo;
  }

  /** A new tick reads the acknowledgements, takes the lock and cleans the topic. */
  lemma StartTick(c: Config, steps: seq<Step>, honest: bool, t: Topic) returns (more: seq<Step>)
    requires (honest ==> AllHonest(c, steps)) && After(c, steps).tick.Idle? && t in After(c, steps).rep.buf
    ensures Leads(c, steps, more, honest) && more == steps + [TickRead, TickLock, TickTopic(t)]
    ensures After(c, more) == Do(c, Do(c, Do(c, After(c, steps), TickRead), TickLock), TickTopic(t))
  {
    hide Do, AllHonest;
    Next(c, steps, TickRead, honest);
    Next(c, steps + [TickRead], TickLock, honest);
    more := steps + [TickRead] + [TickLock];
    Next(c, more, TickTopic(t), honest);
    more := more + [TickTopic(t)];
  }

  /** Once every acknowledgement covers the message, a tick drops it. */
  lemma Drop(c: Config, steps: seq<Step>, honest: bool, g: Target) returns (more: seq<Step>)
    requires c.grpc && (honest ==> AllHonest(c, steps)) && Apart(After(c, steps).wire, g)
    requires var s := After(c, steps);
             && s.tick.Idle? && !Pending(s, g.topic, g.num)
             && 1 <= g.num <= |Given(s, g.topic)| && g.num <= Cutoff(s.ack, g.topic)
    ensures Leads(c, steps, more, honest) && LostTo(After(c, more), g)
    ensures After(c, more).given == After(c, steps).given
  {
    var s := After(c, steps);
    more := steps;
    hide Do, AllHonest, NoLive, Spared;
    if InBuf(s.rep.buf, g.topic, g.num) {
      more := StartTick(c, steps, honest, g.topic);
      DropStates(c, s, g.topic);
      var s' := After(c, more);
      hide Cutoff;
      assert g.num !in EntriesOf(s'.rep.buf, g.topic);
      assert !Pending(s', g.topic, g.num) by {
        assert s'.pubs == s.pubs;
      }
    }
  }

  // ----- acknowledgements -----

  /** The node's acknowledgement of `n` is recorded. */
  ghost predicate Acked(ack: Acks, t: Topic, node: NodeId, n: uint64) {
    t in ack && node in ack[t] && ack[t][node] == n
  }

  /** All of `who` have acknowledged `n`, and nobody else has acknowledged anything since. */
  ghost predicate AllAcked(was: Acks, ack: Acks, t: Topic, who: set<NodeId>, n: uint64) {
    && (forall x :: x in who ==> Acked(ack, t, x, n))
    && (t in ack ==> forall x :: x in ack[t] && x !in who ==> x in At(was, t, map[]) && ack[t][x] == was[t][x])
  }

  lemma AckOneMore(was: Acks, ack: Acks, t: Topic, who: set<NodeId>, x: NodeId, n: uint64)
    requires AllAcked(was, ack, t, who, n) && t != "" && x != ""
    ensures AllAcked(was, RecordAck(ack, t, x, n), t, who + {x}, n)
  {
  }

  lemma AllAckedCutoff(was: Acks, ack: Acks, t: Topic, who: set<NodeId>, n: uint64, r: int)
    requires AllAcked(was, ack, t, who, n) && who != {} && r <= n
    requires forall x :: x in At(was, t, map[]) && x !in who ==> was[t][x] >= r
    ensures Cutoff(ack, t) >= r
  {
    CutoffIsMin(ack, t);
    var x :| x in who;
    assert Acked(ack, t, x, n);
    hide Cutoff;
    forall y | y in ack[t] ensures ack[t][y] >= r {
      assert y in who ==> Acked(ack, t, y, n);
    }
  }

  /** The ack map has no entry for the empty topic or the empty node. */
  ghost predicate Named(ack: Acks) {
    "" !in ack && forall t :: t in ack ==> "" !in ack[t]
  }

  lemma {:induction false} AcksAreNamed(c: Config, steps: seq<Step>)
    ensures Named(After(c, steps).ack)
  {
    if steps != [] {
      AcksAreNamed(c, steps[..|steps| - 1]);
      AckStepCases(c, After(c, steps[..|steps| - 1]), steps[|steps| - 1]);
      hide Do;
    }
  }

  /** Acknowledgements that nothing stands behind. */
  lemma {:induction false} AckBlindly(c: Config, steps: seq<Step>, t: Topic, who: set<NodeId>, n: uint64)
    returns (more: seq<Step>)
    requires c.grpc && t != "" && "" !in who
    ensures Leads(c, steps, more, false)
    ensures var s, s' := After(c, steps), After(c, more);
            s' == s.(ack := s'.ack) && AllAcked(s.ack, s'.ack, t, who, n)
  {
    more := steps;
    if who != {} {
      var x :| x in who;
      more := AckBlindly(c, steps, t, who - {x}, n);
      Next(c, more, Ack(t, x, n), false);
      AckOneMore(After(c, steps).ack, After(c, more).ack, t, who - {x}, x, n);
      assert who - {x} + {x} == who;
      more := more + [Ack(t, x, n)];
    }
  }

  // ----- honest followers that reconnect and catch up -----

  ghost predicate FreshOn(w: Wire, id: StreamId, node: NodeId) {
    && id in w.subs && id in w.streams
    && w.streams[id].node == node && w.streams[id].sent == [] && w.streams[id].received == 0
  }

  ghost predicate Fresh(w: Wire, node: NodeId) {
    exists id :: FreshOn(w, id, node)
  }

  ghost predicate OfferedOn(w: Wire, id: StreamId, node: NodeId, m: Msg) {
    && id in w.streams && w.streams[id].node == node && w.streams[id].received == 0
    && |w.streams[id].sent| > 0 && w.streams[id].sent[0] == m
  }

  /** `m` is the first message of a stream of the node, which has received nothing on it yet. */
  ghost predicate Offered(w: Wire, node: NodeId, m: Msg) {
    exists id :: OfferedOn(w, id, node, m)
  }

  lemma {:induction false} Unused(xs: set<nat>) returns (n: nat)
    ensures forall x :: x in xs ==> x < n
  {
    n := 0;
    if xs != {} {
      var x :| x in xs;
      n := Unused(xs - {x});
      n := if x < n then n else x + 1;
      assert forall y :: y in xs ==> y == x || y in xs - {x};
    }
  }

  lemma OpenStates(c: Config, s: State, id: StreamId, x: NodeId, g: Target)
    requires c.grpc && id !in s.wire.streams && Spared(s.wire, g)
    ensures var s' := Do(c, s, Open(id, x));
            && s' == s.(wire := s'.wire) && Fresh(s'.wire, x) && Spared(s'.wire, g)
            && (forall y :: Fresh(s.wire, y) ==> Fresh(s'.wire, y))
            && (NoLive(s.wire, g) && !Meant(g, x) ==> NoLive(s'.wire, g))
  {
    var s' := Do(c, s, Open(id, x));
    assert s'.wire == AddSub(s.wire, id, x, s.rep.seqs);
    SparedStep(c, s, Open(id, x), g);
    hide Do, Spared;
    assert FreshOn(s'.wire, id, x);
    forall y | Fresh(s.wire, y) ensures Fresh(s'.wire, y) {
      var other :| FreshOn(s.wire, other, y);
      assert FreshOn(s'.wire, other, y);
    }
  }

  lemma {:induction false} OpenAll(c: Config, steps: seq<Step>, who: set<NodeId>, g: Target) returns (more: seq<Step>)
    requires c.grpc && AllHonest(c, steps) && Spared(After(c, steps).wire, g)
    ensures Leads(c, steps, more, true)
    ensures var s, s' := After(c, steps), After(c, more);
            && s' == s.(wire := s'.wire) && Spared(s'.wire, g)
            && (forall x :: x in who ==> Fresh(s'.wire, x))
            && (NoLive(s.wire, g) && (forall x :: x in who ==> !Meant(g, x)) ==> NoLive(s'.wire, g))
  {
    more := steps;
    if who != {} {
      hide Do, AllHonest, Spared, Fresh, NoLive;
      var x :| x in who;
      more := OpenAll(c, steps, who - {x}, g);
      var id := Unused(After(c, more).wire.streams.Keys);
      OpenStates(c, After(c, more), id, x, g);
      Next(c, more, Open(id, x), true);
      more := more + [Open(id, x)];
    }
  }

  /** The next step broadcasts `msg`. */
  ghost predicate Ready(c: Config, s: State, step: Step, msg: Msg) {
    && c.grpc
    && if step.Send?
       then step.failed == {} && step.p in s.pubs && s.pubs[step.p] == Numbered(msg.topic, msg.data, msg.num)
       else && step == TickNext({}) && s.tick.Sweeping? && s.tick.cursor == Some(Cursor(msg.topic, msg.num))
            && msg.num <= SeqOf(s.rep, msg.topic) && Lookup(s.rep.buf, msg.topic, msg.num) == Some(msg.data)
  }

  lemma ReadyBroadcasts(c: Config, s: State, step: Step, msg: Msg)
    requires Ready(c, s, step, msg)
    ensures var s' := Do(c, s, step);
            && s'.wire == Broadcast(s.wire, msg, {})
            && s'.rep == s.rep && s'.ack == s.ack && s'.given == s.given
            && (step.TickNext? ==> s'.pubs == s.pubs) && (step.Send? ==> s'.tick == s.tick)
  {
    hide Broadcast;
  }

  lemma BroadcastOffers(w: Wire, msg: Msg, x: NodeId)
    requires Fresh(w, x)
    ensures Offered(Broadcast(w, msg, {}), x, msg)
  {
    var id :| FreshOn(w, id, x);
    assert OfferedOn(Broadcast(w, msg, {}), id, x, msg);
  }

  lemma BroadcastSpares(c: Config, s: State, step: Step, msg: Msg, g: Target)
    requires Ready(c, s, step, msg) && Spared(s.wire, g) && (IsIt(g, msg) ==> NoLive(s.wire, g))
    ensures Spared(Broadcast(s.wire, msg, {}), g)
  {
    ReadyBroadcasts(c, s, step, msg);
    WireStep(c, s, step);
    hide Do, WireOk, Ready, Told;
    if Told(Broadcast(s.wire, msg, {}), g) {
      ToldStep(c, s, step, g);
      LogGrows(s.wire, msg);
    }
  }

  lemma LogGrows(w: Wire, msg: Msg)
    ensures forall m :: m in Broadcast(w, msg, {}).log[|w.log|..] ==> m == msg
  {
  }

  lemma ReceiveStates(c: Config, s: State, x: NodeId, msg: Msg, g: Target) returns (id: StreamId)
    requires Offered(s.wire, x, msg) && Spared(s.wire, g) && (IsIt(g, msg) ==> !Meant(g, x))
    ensures Enabled(c, s, Receive(id))
    ensures var w' := ReceiveOne(s.wire, id);
            && ReceivedBy(w', x, msg.topic, msg.num) && Spared(w', g)
            && forall y :: y != x && Offered(s.wire, y, msg) ==> Offered(w', y, msg)
  {
    var w := s.wire;
    id :| OfferedOn(w, id, x, msg);
    var w' := ReceiveOne(w, id);
    assert ReceivedOn(w', id, x, msg.topic, msg.num);
    SparedStep(c, s, Receive(id), g);
    assert Do(c, s, Receive(id)).wire == w';
    hide Do, Spared;
    forall y | y != x && Offered(w, y, msg) ensures Offered(w', y, msg) {
      var other :| OfferedOn(w, other, y, msg);
      assert OfferedOn(w', other, y, msg);
    }
  }

  lemma ReceiveAndAck(c: Config, steps: seq<Step>, id: StreamId, t: Topic, x: NodeId, n: uint64)
    returns (more: seq<Step>)
    requires c.grpc && AllHonest(c, steps)
    requires Enabled(c, After(c, steps), Receive(id)) && ReceivedBy(ReceiveOne(After(c, steps).wire, id), x, t, n)
    ensures Leads(c, steps, more, true)
    ensures var s := After(c, steps);
            After(c, more) == s.(wire := ReceiveOne(s.wire, id), ack := RecordAck(s.ack, t, x, n))
  {
    hide AllHonest, ReceivedBy, ReceiveOne, RecordAck;
    Next(c, steps, Receive(id), true);
    Next(c, steps + [Receive(id)], Ack(t, x, n), true);
    more := steps + [Receive(id)] + [Ack(t, x, n)];
  }

  /** One who was offered the message receives and acknowledges it. */
  lemma AckOne(c: Config, steps: seq<Step>, was: Acks, done: set<NodeId>, x: NodeId, msg: Msg, g: Target)
    returns (more: seq<Step>)
    requires c.grpc && msg.topic != "" && x != "" && Offered(After(c, steps).wire, x, msg)
    requires AllHonest(c, steps) && Spared(After(c, steps).wire, g) && (IsIt(g, msg) ==> !Meant(g, x))
    requires AllAcked(was, After(c, steps).ack, msg.topic, done, msg.num)
    ensures Leads(c, steps, more, true)
    ensures var s, s' := After(c, steps), After(c, more);
            && s' == s.(wire := s'.wire, ack := s'.ack) && Spared(s'.wire, g)
            && ReceivedBy(s'.wire, x, msg.topic, msg.num)
            && AllAcked(was, s'.ack, msg.topic, done + {x}, msg.num)
            && forall y :: y != x && Offered(s.wire, y, msg) ==> Offered(s'.wire, y, msg)
  {
    hide After, AllHonest, Spared, Offered, AllAcked, ReceivedBy, ReceiveOne, RecordAck;
    var s := After(c, steps);
    var id := ReceiveStates(c, s, x, msg, g);
    AckOneMore(was, s.ack, msg.topic, done, x, msg.num);
    more := ReceiveAndAck(c, steps, id, msg.topic, x, msg.num);
  }

  /** Everybody who was offered the message does. */
  lemma {:induction false} AckReceived(c: Config, steps: seq<Step>, was: Acks, done: set<NodeId>, who: set<NodeId>,
                                       msg: Msg, g: Target) returns (more: seq<Step>)
    requires c.grpc && msg.topic != "" && "" !in who
    requires AllHonest(c, steps) && Spared(After(c, steps).wire, g)
    requires IsIt(g, msg) ==> forall x :: x in who ==> !Meant(g, x)
    requires AllAcked(was, After(c, steps).ack, msg.topic, done, msg.num)
    requires forall x :: x in who ==> Offered(After(c, steps).wire, x, msg)
    ensures Leads(c, steps, more, true)
    ensures var s, s' := After(c, steps), After(c, more);
            && s' == s.(wire := s'.wire, ack := s'.ack) && Spared(s'.wire, g)
            && AllAcked(was, s'.ack, msg.topic, done + who, msg.num)
    decreases who
  {
    hide After, AllHonest, Spared, Offered, AllAcked, ReceivedBy;
    more := steps;
    if who == {} {
      assert done + who == done;
    } else {
      var x :| x in who;
      more := AckOne(c, steps, was, done, x, msg, g);
      more := AckReceived(c, more, was, done + {x}, who - {x}, msg, g);
      assert done + {x} + (who - {x}) == done + who;
    }
  }

  lemma HangUpStates(c: Config, s: State, id: StreamId, g: Target)
    requires id in s.wire.subs && Spared(s.wire, g)
    ensures var s' := Do(c, s, Disconnect(id));
            s' == s.(wire := s'.wire) && |s'.wire.subs| < |s.wire.subs| && Spared(s'.wire, g)
  {
    SparedStep(c, s, Disconnect(id), g);
    hide Spared;
    assert s.wire.subs - {id} < s.wire.subs;
    assert |s.wire.subs - {id}| < |s.wire.subs|;
  }

  /** The target disconnects. */
  lemma {:induction false} HangUp(c: Config, steps: seq<Step>, g: Target) returns (more: seq<Step>)
    requires AllHonest(c, steps) && Spared(After(c, steps).wire, g)
    ensures Leads(c, steps, more, true) && Apart(After(c, more).wire, g)
    ensures After(c, more) == After(c, steps).(wire := After(c, more).wire)
    decreases |After(c, steps).wire.subs|
  {
    var s := After(c, steps);
    more := steps;
    if !NoLive(s.wire, g) {
      hide Do, AllHonest, Spared;
      var id :| id in s.wire.subs && id in s.wire.streams && Meant(g, s.wire.streams[id].node);
      HangUpStates(c, s, id, g);
      Next(c, steps, Disconnect(id), true);
      more := HangUp(c, steps + [Disconnect(id)], g);
    }
  }

  /** With a broadcast of a message of the topic at hand, everybody in `who` opens a new stream,
      gets that message and acknowledges it; then the target, which takes no part if it is the
      message it is to miss, hangs up. */
  lemma CatchUp(c: Config, steps: seq<Step>, step: Step, msg: Msg, who: set<NodeId>, g: Target)
    returns (more: seq<Step>)
    requires AllHonest(c, steps) && Ready(c, After(c, steps), step, msg) && msg.topic != "" && "" !in who
    requires Apart(After(c, steps).wire, g) && (IsIt(g, msg) ==> forall x :: x in who ==> !Meant(g, x))
    ensures Leads(c, steps, more, true) && Apart(After(c, more).wire, g)
    ensures var s, s' := After(c, steps), After(c, more);
            && s'.rep == s.rep && s'.given == s.given
            && (step.TickNext? ==> s'.pubs == s.pubs) && (step.Send? ==> s'.tick == s.tick)
            && AllAcked(s.ack, s'.ack, msg.topic, who, msg.num)
  {
    hide Do, AllHonest, Spared, Fresh, Offered, NoLive, Broadcast;
    var was := After(c, steps).ack;
    more := OpenAll(c, steps, who, g);
    var s := After(c, more);
    ReadyBroadcasts(c, s, step, msg);
    BroadcastSpares(c, s, step, msg, g);
    forall x | x in who ensures Offered(Broadcast(s.wire, msg, {}), x, msg) {
      BroadcastOffers(s.wire, msg, x);
    }
    Next(c, more, step, true);
    more := more + [step];
    NobodyAcked(was, msg.topic, msg.num);
    more := AckReceived(c, more, was, {}, who, msg, g);
    assert {} + who == who;
    more := HangUp(c, more, g);
  }

  lemma NobodyAcked(was: Acks, t: Topic, n: uint64)
    ensures AllAcked(was, was, t, {}, n)
  {
  }
}
