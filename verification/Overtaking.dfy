/** How a later message overtakes one that its target has not got, and the leader drops it. */
module Overtaking {
  import opened Base
  import opened ReplBuffer
  import opened ReplServer
  import opened Protocol
  import opened BufferProof
  import opened WindowProof
  import opened SweepProof
  import opened DeliveryProof
  import opened LossProof
  import opened LossRuns

  // ----- a message of the topic is about to be broadcast -----

  /** The resend loop goes on to number `n`; the target is not listening. */
  lemma {:induction false} Advance(c: Config, steps: seq<Step>, t: Topic, k: uint64, n: uint64, g: Target)
    returns (more: seq<Step>)
    requires AllHonest(c, steps) && Apart(After(c, steps).wire, g)
    requires var s := After(c, steps);
             s.tick.Sweeping? && s.tick.cursor == Some(Cursor(t, k)) && k <= n <= SeqOf(s.rep, t) < U64 - 1
    ensures Leads(c, steps, more, true) && Apart(After(c, more).wire, g)
    ensures var s, s' := After(c, steps), After(c, more);
            && s'.rep == s.rep && s'.ack == s.ack && s'.given == s.given
            && s'.tick.Sweeping? && s'.tick.cursor == Some(Cursor(t, n))
    decreases n - k
  {
    more := steps;
    if k < n {
      hide Do, AllHonest, Apart;
      var s, turn := After(c, steps), TickNext({});
      TurnSends(c, s, turn);
      TurnFrame(c, s, turn);
      ApartStep(c, s, turn, g);
      Next(c, steps, turn, true);
      more := Advance(c, steps + [turn], t, k + 1, n, g);
    }
  }

  /** A tick comes to resending message `n`; the target is not listening. */
  lemma BySweep(c: Config, steps: seq<Step>, g: Target, n: uint64) returns (more: seq<Step>, msg: Msg)
    requires c.grpc && AllHonest(c, steps) && Apart(After(c, steps).wire, g)
    requires var s, t := After(c, steps), g.topic;
             s.tick.Idle? && Cutoff(s.ack, t) < n <= SeqOf(s.rep, t) < U64 - 1 && InBuf(s.rep.buf, t, n)
    ensures Leads(c, steps, more, true) && Apart(After(c, more).wire, g)
    ensures Ready(c, After(c, more), TickNext({}), msg) && msg.topic == g.topic && msg.num == n
    ensures var s, s' := After(c, steps), After(c, more);
            s'.ack == s.ack && s'.given == s.given && s'.rep.seqs == s.rep.seqs
  {
    hide Do, AllHonest, Apart;
    var s, t := After(c, steps), g.topic;
    more := StartTick(c, steps, true, t);
    DropStates(c, s, t);
    var a := Cutoff(s.ack, t);
    hide Cutoff;
    var s3 := After(c, more);
    SameWire(s.wire, s3.wire, g);
    assert Lookup(s3.rep.buf, t, n) == Lookup(s.rep.buf, t, n);
    msg := Msg(t, s.rep.buf[t][n], n);
    more := Advance(c, more, t, a + 1, n, g);
  }

  lemma SameWire(w: Wire, w': Wire, g: Target)
    requires w' == w && Apart(w, g)
    ensures Apart(w', g)
  {
  }

  lemma NumberState(c: Config, s: State, p: PubId, t: Topic, data: Bytes)
    requires p in s.pubs && s.pubs[p] == Admitted(t, data) && !s.tick.Sweeping? && SeqOf(s.rep, t) < U64 - 1
    ensures var s' := Do(c, s, Number(p));
            && s' == s.(rep := s'.rep, pubs := s.pubs[p := Numbered(t, data, SeqOf(s.rep, t) + 1)], given := s'.given)
            && s'.rep.seqs == s.rep.seqs[t := SeqOf(s.rep, t) + 1] && t in s'.rep.buf
            && Given(s', t) == Given(s, t) + [(SeqOf(s.rep, t) + 1, data)]
  {
  }

  /** A `Publish` call passes the window check. */
  lemma Admit(c: Config, steps: seq<Step>, p: PubId, t: Topic, data: Bytes) returns (more: seq<Step>)
    requires AllHonest(c, steps) && WindowOpen(c, After(c, steps), t)
    requires After(c, steps).tick.Idle? && p !in After(c, steps).pubs
    ensures Leads(c, steps, more, true) && more == steps + [Begin(p, t, data), ReadAcks(p), CheckWindow(p)]
    ensures var s := After(c, steps); After(c, more) == s.(pubs := s.pubs[p := Admitted(t, data)])
  {
    hide Do, AllHonest, WindowOpen;
    Admission(c, After(c, steps), p, t, data);
    Next(c, steps, Begin(p, t, data), true);
    more := steps + [Begin(p, t, data)];
    Next(c, more, ReadAcks(p), true);
    more := more + [ReadAcks(p)];
    Next(c, more, CheckWindow(p), true);
    more := more + [CheckWindow(p)];
  }

  /** One more message is published and numbered. */
  lemma ByWindow(c: Config, steps: seq<Step>, p: PubId, t: Topic, data: Bytes) returns (more: seq<Step>)
    requires c.grpc && AllHonest(c, steps) && SeqOf(After(c, steps).rep, t) < U64 - 1
    requires After(c, steps).tick.Idle? && WindowOpen(c, After(c, steps), t) && p !in After(c, steps).pubs
    ensures Leads(c, steps, more, true) && more == steps + [Begin(p, t, data), ReadAcks(p), CheckWindow(p), Number(p)]
    ensures var s, s' := After(c, steps), After(c, more);
            var n := SeqOf(s.rep, t) + 1;
            && Ready(c, s', Send(p, {}), Msg(t, data, n)) && t in s'.rep.buf
            && s' == s.(rep := s'.rep, pubs := s.pubs[p := Numbered(t, data, n)], given := s'.given)
            && s'.rep.seqs == s.rep.seqs[t := n] && Given(s', t) == Given(s, t) + [(n, data)]
  {
    hide Do, AllHonest, WindowOpen, Given;
    var s := After(c, steps);
    more := Admit(c, steps, p, t, data);
    NumberState(c, After(c, more), p, t, data);
    Next(c, more, Number(p), true);
    more := more + [Number(p)];
    SameGiven(s, s.(pubs := s.pubs[p := Admitted(t, data)]), t);
    assert s.pubs[p := Admitted(t, data)][p := Numbered(t, data, SeqOf(s.rep, t) + 1)] ==
           s.pubs[p := Numbered(t, data, SeqOf(s.rep, t) + 1)];
  }

  lemma SameGiven(s: State, s': State, t: Topic)
    requires s'.given == s.given
    ensures Given(s', t) == Given(s, t)
  {
  }

  // ----- ... and the message is lost -----

  /** Numbers left for what the constructions below publish. */
  ghost predicate Room(s: State) {
    forall u :: u in s.rep.seqs ==> s.rep.seqs[u] < U64 - 2
  }

  lemma RoomLeft(s: State, s': State, t: Topic)
    requires Room(s) && (s'.rep.seqs == s.rep.seqs || s'.rep.seqs == s.rep.seqs[t := SeqOf(s.rep, t) + 1])
    ensures Small(s')
  {
  }

  /** The node has acknowledged something on the topic, and its last word is below `r`. */
  ghost predicate Behind(ack: Acks, t: Topic, node: NodeId, r: int) {
    t in ack && node in ack[t] && ack[t][node] < r
  }

  /** The target is one node, and it is not behind. */
  ghost predicate NotBehind(ack: Acks, g: Target) {
    g.node.Some? && !Behind(ack, g.topic, g.node.value, g.num)
  }

  /** Everybody whose acknowledgement counts catches up with `msg`, and the next tick drops the
      target's message. */
  lemma OvertakeAndDrop(c: Config, steps: seq<Step>, step: Step, msg: Msg, g: Target) returns (more: seq<Step>)
    requires c.grpc && AllHonest(c, steps) && Ready(c, After(c, steps), step, msg) && Small(After(c, steps))
    requires msg.topic == g.topic != "" && 1 <= g.num <= msg.num && Apart(After(c, steps).wire, g)
    requires g.num == msg.num ==> NotBehind(After(c, steps).ack, g)
    requires g.num <= |Given(After(c, steps), g.topic)|
    ensures Leads(c, steps, more, true) && LostTo(After(c, more), g)
    ensures After(c, more).given == After(c, steps).given
  {
    hide Do, AllHonest, Apart, Ready, AllAcked, Cutoff, InBuf, Resendable;
    var s := After(c, steps);
    var nodes: NodeAcks := At(s.ack, g.topic, map[]);
    var node := if g.node.Some? then g.node.value else "";
    var other := if node == "n" then "m" else "n";
    var who := nodes.Keys + {other} - if g.num == msg.num then {node} else {};
    AcksAreNamed(c, steps);
    assert other in who;
    more := CatchUp(c, steps, step, msg, who, g);
    AllAckedCutoff(s.ack, After(c, more).ack, g.topic, who, msg.num, g.num);
    more := Settle(c, more, true, g);
    more := Drop(c, more, true, g);
  }

  /** With honest followers: the message is dropped already, or is not the newest, or another one can
      be published, or the node's acknowledgement does not stand in the way. */
  lemma LoseHonestly(c: Config, steps: seq<Step>, g: Target) returns (more: seq<Step>)
    requires c.grpc && g.topic != "" && ContiguousAt(c.boot, g.topic) && Room(After(c, steps))
    requires AllHonest(c, steps) && Apart(After(c, steps).wire, g)
    requires 1 <= g.num <= |Given(After(c, steps), g.topic)| < U64 - 2
    requires var s := After(c, steps);
             || !Resendable(s, g.topic, g.num) || g.num < |Given(s, g.topic)|
             || WindowOpen(c, s, g.topic) || NotBehind(s.ack, g)
    ensures Leads(c, steps, more, true) && LostTo(After(c, more), g)
    ensures |Given(After(c, more), g.topic)| < U64
  {
    hide Do, AllHonest, Apart, Ready, LostTo, Pending, Resendable;
    var t, r := g.topic, g.num;
    more := Settle(c, steps, true, g);
    var s := After(c, more);
    NumbersAreConsecutive(c, more, t);
    CountedValue(s, t);
    if r <= Cutoff(s.ack, t) {
      more := Drop(c, more, true, g);
    } else if !InBuf(s.rep.buf, t, r) {
      LostNow(s, g);
    } else if r < |Given(s, t)| || NotBehind(s.ack, g) {
      RoomKept(After(c, steps), s);
      more := LoseBySweep(c, more, g);
    } else {
      var p := Unused(s.pubs.Keys);
      more := ByWindow(c, more, p, t, []);
      SameWire(s.wire, After(c, more).wire, g);
      RoomLeft(After(c, steps), After(c, more), t);
      more := OvertakeAndDrop(c, more, Send(p, {}), Msg(t, [], r + 1), g);
    }
  }

  lemma RoomKept(s: State, s': State)
    requires Room(s) && s'.rep.seqs == s.rep.seqs
    ensures Room(s')
  {
  }

  /** The next tick resends the message after the target's, or the target's message itself. */
  lemma LoseBySweep(c: Config, steps: seq<Step>, g: Target) returns (more: seq<Step>)
    requires c.grpc && g.topic != "" && ContiguousAt(c.boot, g.topic) && Room(After(c, steps))
    requires AllHonest(c, steps) && Apart(After(c, steps).wire, g)
    requires 1 <= g.num <= |Given(After(c, steps), g.topic)| < U64 - 2
    requires var s := After(c, steps);
             && s.tick.Idle? && Cutoff(s.ack, g.topic) < g.num && InBuf(s.rep.buf, g.topic, g.num)
             && (g.num < |Given(s, g.topic)| || NotBehind(s.ack, g))
    ensures Leads(c, steps, more, true) && LostTo(After(c, more), g)
    ensures |Given(After(c, more), g.topic)| < U64
  {
    hide Do, After, AllHonest, Apart, Ready, LostTo, Cutoff;
    var s, t, r := After(c, steps), g.topic, g.num;
    NumbersAreConsecutive(c, steps, t);
    CountedValue(s, t);
    hide Counted;
    var lo := BufferIsInterval(c, steps, t);
    var n: uint64 := if r < |Given(s, t)| then r + 1 else r;
    assert InBuf(s.rep.buf, t, n);
    var msg: Msg;
    more, msg := BySweep(c, steps, g, n);
    RoomLeft(s, After(c, more), t);
    more := OvertakeAndDrop(c, more, TickNext({}), msg, g);
  }

  lemma LostNow(s: State, g: Target)
    requires 1 <= g.num <= |Given(s, g.topic)| && !InBuf(s.rep.buf, g.topic, g.num)
    requires !Pending(s, g.topic, g.num) && Apart(s.wire, g)
    ensures LostTo(s, g)
  {
  }

  lemma LoseBlindly(c: Config, steps: seq<Step>, g: Target) returns (more: seq<Step>)
    requires c.grpc && g.topic != "" && Room(After(c, steps))
    requires Apart(After(c, steps).wire, g) && 1 <= g.num <= |Given(After(c, steps), g.topic)| < U64 - 2
    ensures Leads(c, steps, more, false) && LostTo(After(c, more), g)
    ensures |Given(After(c, more), g.topic)| < U64
  {
    hide Do, Apart, AllAcked, Pending, Cutoff, InBuf, Resendable;
    var t, r := g.topic, g.num;
    more := Settle(c, steps, false, g);
    var s := After(c, more);
    var nodes: NodeAcks := At(s.ack, t, map[]);
    var who := nodes.Keys + {"n"};
    AcksAreNamed(c, more);
    more := AckBlindly(c, more, t, who, r);
    AllAckedCutoff(s.ack, After(c, more).ack, t, who, r, r);
    SameWire(s.wire, After(c, more).wire, g);
    SamePending(s, After(c, more), t, r);
    more := Drop(c, more, false, g);
  }

  lemma SamePending(s: State, s': State, t: Topic, r: int)
    requires s'.pubs == s.pubs
    ensures Pending(s', t, r) <==> Pending(s, t, r)
  {
  }
}
