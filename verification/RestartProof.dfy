/** What becomes of the entries that a restarted leader has restored: when one of them can be dropped
    without ever having been broadcast, and when without ever having reached a stream. */
module RestartProof {
  import opened Base
  import opened ReplBuffer
  import opened ReplServer
  import opened Protocol
  import opened BufferProof
  import opened WindowProof
  import opened SweepProof
  import opened StreamProof
  import opened DeliveryProof
  import opened LossProof
  import opened LossRuns
  import opened Overtaking
  import opened NewestProof
  import opened MissedIff

  ghost predicate OnLog(s: State, t: Topic, r: int) {
    OnWire(s.wire.log, 0, |s.wire.log|, t, r)
  }

  /** With honest followers, the run ends with the entry dropped and never broadcast. */
  ghost predicate DropsUnsent(c: Config, steps: seq<Step>, t: Topic, r: uint64) {
    && AllHonest(c, steps) && |Given(After(c, steps), t)| < U64
    && Gone(After(c, steps), t, r) && !OnLog(After(c, steps), t, r)
  }

  // ----- with the window open, one new message does it -----

  lemma OpenStart(c: Config, t: Topic)
    requires c.grpc && IntDiff(SeqOf(c.boot, t), 0) < Window(c)
    ensures AllHonest(c, [Open(0, "n")])
    ensures var s := After(c, [Open(0, "n")]);
            && s == Start(c).(wire := AddSub(EMPTY_WIRE, 0, "n", c.boot.seqs))
            && WindowOpen(c, s, t) && FreshOn(s.wire, 0, "n")
  {
    Go(c, [], Open(0, "n"));
    assert [] + [Open(0, "n")] == [Open(0, "n")];
    CutoffIsMin(map[], t);
    hide Cutoff, Window;
  }

  /** Sending the message to the new stream, receiving it and acknowledging it. */
  lemma SendReceiveAck(c: Config, steps: seq<Step>, p: PubId, msg: Msg) returns (more: seq<Step>)
    requires c.grpc && AllHonest(c, steps) && Ready(c, After(c, steps), Send(p, {}), msg)
    requires After(c, steps).pubs == map[p := Numbered(msg.topic, msg.data, msg.num)]
    requires After(c, steps).wire.log == [] && FreshOn(After(c, steps).wire, 0, "n")
    ensures AllHonest(c, more)
    ensures var s, s' := After(c, steps), After(c, more);
            && s' == s.(pubs := map[], wire := s'.wire, ack := RecordAck(s.ack, msg.topic, "n", msg.num))
            && s'.wire.log == [msg]
  {
    hide AllHonest, RecordAck;
    var s, send := After(c, steps), Send(p, {});
    var w := Broadcast(s.wire, msg, {});
    assert w.log == [msg] && w.streams[0].sent == [msg] && w.streams[0].received == 0;
    assert Do(c, s, send) == s.(pubs := map[], wire := w);
    Next(c, steps, send, true);
    more := steps + [send];
    assert w.streams[0].sent[0] == msg;
    assert ReceivedOn(ReceiveOne(w, 0), 0, "n", msg.topic, msg.num);
    hide Do, Broadcast;
    more := ReceiveAndAck(c, more, 0, msg.topic, "n", msg.num);
  }

  lemma OneAckCutoff(t: Topic, n: uint64)
    requires t != ""
    ensures Cutoff(RecordAck(map[], t, "n", n), t) == n
  {
    var ack := RecordAck(map[], t, "n", n);
    CutoffIsMin(ack, t);
    assert "n" in ack[t];
  }

  /** A new message is published, received and acknowledged before the first tick, and that tick
      drops every restored entry unsent. */
  lemma DropUnsent(c: Config, t: Topic, r: uint64) returns (steps: seq<Step>)
    requires c.grpc && t != "" && ContiguousAt(c.boot, t) && InBuf(c.boot.buf, t, r) && SeqOf(c.boot, t) < U64 - 1
    requires IntDiff(SeqOf(c.boot, t), 0) < Window(c)
    ensures DropsUnsent(c, steps, t, r)
  {
    hide Do, Window, AllHonest, Cutoff, Past, WindowOpen;
    var b := SeqOf(c.boot, t);
    PastCounted(c, t);
    assert 1 <= r <= b;
    OpenStart(c, t);
    steps := ByWindow(c, [Open(0, "n")], 0, t, []);
    steps := SendReceiveAck(c, steps, 0, Msg(t, [], b + 1));
    OneAckCutoff(t, b + 1);
    var s := After(c, steps);
    DropStates(c, s, t);
    steps := StartTick(c, steps, true, t);
    assert r !in EntriesOf(After(c, steps).rep.buf, t);
  }

  // ----- with the window shut, the first tick resends them -----

  /** What the topic looks like until all its restored entries have been broadcast. */
  ghost predicate Untouched(c: Config, s: State, t: Topic) {
    && SeqOf(s.rep, t) == SeqOf(c.boot, t) && EntriesOf(s.rep.buf, t) == EntriesOf(c.boot.buf, t)
    && (forall p :: !NumberedOn(s, p, t))
    && (!s.tick.Idle? ==> Cutoff(s.tick.snap, t) == 0)
  }

  ghost predicate CursorOn(s: State, t: Topic) {
    s.tick.Sweeping? && s.tick.cursor.Some? && s.tick.cursor.value.topic == t
  }

  /** How far the resend loop has come on the topic. */
  ghost function Reached(s: State, t: Topic): int {
    if CursorOn(s, t) then s.tick.cursor.value.next else 0
  }

  ghost predicate SentBelow(c: Config, s: State, t: Topic, n: int) {
    forall r: uint64 :: InBuf(c.boot.buf, t, r) && r < n ==> OnLog(s, t, r)
  }

  /** Nothing of the topic has been broadcast, and no publisher of it has got past the check. */
  ghost predicate Silent(s: State, t: Topic) {
    && (forall k :: 0 <= k < |s.wire.log| ==> s.wire.log[k].topic != t)
    && (forall p :: p in s.pubs && s.pubs[p].topic == t ==>
          !s.pubs[p].Admitted? && (s.pubs[p].HasMin? ==> s.pubs[p].min == 0))
  }

  ghost predicate NotYet(c: Config, s: State, t: Topic) {
    Untouched(c, s, t) && SentBelow(c, s, t, Reached(s, t)) && (Silent(s, t) || CursorOn(s, t))
  }

  /** All restored entries of the topic have been broadcast. */
  ghost predicate AllOut(c: Config, s: State, t: Topic) {
    SentBelow(c, s, t, U64)
  }

  lemma AckedWasSent(c: Config, steps: seq<Step>, t: Topic, node: NodeId)
    requires AllHonest(c, steps) && t in After(c, steps).ack && node in After(c, steps).ack[t]
    ensures var log := After(c, steps).wire.log; exists k :: 0 <= k < |log| && log[k].topic == t
  {
    var s := After(c, steps);
    StreamsArePrefixes(c, steps);
    assert Honest(c, steps, node);
    AcknowledgedIsReceived(c, steps, node);
    hide Honest, After, AllHonest, ReceivedBy;
    var k := ReceivedOnLog(s.wire, node, t, s.ack[t][node]);
  }

  /** Nobody can have acknowledged what has not been broadcast. */
  lemma SilentCutoff(c: Config, steps: seq<Step>, t: Topic)
    requires AllHonest(c, steps) && Silent(After(c, steps), t)
    ensures Cutoff(After(c, steps).ack, t) == 0
  {
    hide After, AllHonest;
    var s := After(c, steps);
    CutoffIsMin(s.ack, t);
    if t in s.ack && s.ack[t] != map[] {
      var node :| node in s.ack[t];
      AckedWasSent(c, steps, t, node);
    }
  }

  lemma UntouchedRecord(c: Config, s: State, step: Step, t: Topic)
    requires ContiguousAt(c.boot, t) && Untouched(c, s, t) && (Silent(s, t) || CursorOn(s, t))
    ensures var s' := Do(c, s, step);
            SeqOf(s'.rep, t) == SeqOf(c.boot, t) && EntriesOf(s'.rep.buf, t) == EntriesOf(c.boot.buf, t)
  {
    StepFrame(c, s, step);
    if Enabled(c, s, step) && step.Number? {
      NumberEntries(c, s, step.p, t);
    } else if Enabled(c, s, step) && step.TickTopic? {
      TickTopicEntries(c, s, step.topic, t);
      forall n: uint64 | n in EntriesOf(c.boot.buf, t) ensures n > 0 {
        assert InBuf(c.boot.buf, t, n);
      }
      assert Above(EntriesOf(c.boot.buf, t), 0) == EntriesOf(c.boot.buf, t);
    }
    hide Do, Cutoff, EntriesOf, Assign, Clean;
  }

  /** Publishers stay in front of the window check, or are kept out by the lock. */
  lemma UntouchedStep(c: Config, s: State, step: Step, t: Topic)
    requires c.grpc && ContiguousAt(c.boot, t) && Untouched(c, s, t)
    requires (Silent(s, t) && Cutoff(s.ack, t) == 0) || CursorOn(s, t)
    ensures Untouched(c, Do(c, s, step), t)
  {
    UntouchedRecord(c, s, step, t);
    SnapStep(c, s, step);
    forall p ensures !NumberedOn(Do(c, s, step), p, t) {
      NoneNumbered(c, s, step, t, p);
    }
    hide Do, Cutoff, EntriesOf, ContiguousAt;
  }

  lemma NoneNumbered(c: Config, s: State, step: Step, t: Topic, p: PubId)
    requires !NumberedOn(s, p, t) && (Silent(s, t) || CursorOn(s, t))
    ensures !NumberedOn(Do(c, s, step), p, t)
  {
    hide Assign, Clean, Cutoff, Broadcast, IntDiff, EntriesOf;
  }

  lemma SilentPubs(c: Config, s: State, step: Step, t: Topic)
    requires c.grpc && Silent(s, t) && Untouched(c, s, t) && Cutoff(s.ack, t) == 0
    requires IntDiff(SeqOf(c.boot, t), 0) >= Window(c)
    ensures var s' := Do(c, s, step);
            forall p :: p in s'.pubs && s'.pubs[p].topic == t ==>
              !s'.pubs[p].Admitted? && (s'.pubs[p].HasMin? ==> s'.pubs[p].min == 0)
  {
    hide Assign, Clean, Cutoff, Broadcast, EntriesOf, Window, IntDiff;
  }

  lemma SilentLog(c: Config, s: State, step: Step, t: Topic)
    requires Silent(s, t) && Untouched(c, s, t) && !(step.TickNext? && CursorOn(s, t))
    ensures var log := Do(c, s, step).wire.log; forall k :: 0 <= k < |log| ==> log[k].topic != t
  {
    StepFrame(c, s, step);
    if Enabled(c, s, step) && step.TickNext? {
      TurnSends(c, s, step);
    } else if Enabled(c, s, step) && step.Send? {
      assert !NumberedOn(s, step.p, t);
      var ms := LogStep(c, s, step);
    }
    hide Do, Cutoff;
  }

  /** Outside the topic's own turns, the sweep reaches it at number 1 and leaves it alone. */
  lemma CursorStep(c: Config, s: State, step: Step, t: Topic)
    requires c.grpc && Untouched(c, s, t) && !(Enabled(c, s, step) && step.TickNext? && CursorOn(s, t))
    ensures CursorOn(s, t) ==> CursorOn(Do(c, s, step), t) && Reached(Do(c, s, step), t) == Reached(s, t)
    ensures !CursorOn(s, t) ==> Reached(Do(c, s, step), t) <= 1
  {
    if Enabled(c, s, step) && step.TickTopic? {
      TopicTurn(c, s, step.topic);
      hide Do;
    } else if Enabled(c, s, step) && step.TickNext? {
      TurnSends(c, s, step);
      hide Do;
    }
    hide Assign, Clean, Cutoff, Broadcast, EntriesOf;
  }

  lemma SentBelowLater(c: Config, s: State, s': State, t: Topic, n: int, n': int)
    requires ContiguousAt(c.boot, t) && SentBelow(c, s, t, n) && s.wire.log <= s'.wire.log && n' <= Max(n, 1)
    ensures SentBelow(c, s', t, n')
  {
    forall r: uint64 | InBuf(c.boot.buf, t, r) && r < n' ensures OnLog(s', t, r) {
      OnWireExtends(s.wire.log, s'.wire.log, 0, |s.wire.log|, |s'.wire.log|, t, r);
    }
  }

  /** A turn of the resend loop on the topic broadcasts the entry it comes to. */
  lemma TurnOut(c: Config, s: State, step: Step, t: Topic)
    requires ContiguousAt(c.boot, t) && SeqOf(c.boot, t) < U64 - 1
    requires NotYet(c, s, t) && CursorOn(s, t) && step.TickNext? && Enabled(c, s, step)
    ensures var s' := Do(c, s, step);
            if Reached(s, t) > SeqOf(c.boot, t) then AllOut(c, s', t)
            else CursorOn(s', t) && SentBelow(c, s', t, Reached(s', t))
  {
    var s', n := Do(c, s, step), Reached(s, t);
    TurnSends(c, s, step);
    hide Do;
    assert s.wire.log <= s'.wire.log;
    forall r: uint64 | InBuf(c.boot.buf, t, r) && r <= n ensures OnLog(s', t, r) {
      if r == n {
        assert s'.wire.log[|s.wire.log|].num == r;
      } else {
        OnWireExtends(s.wire.log, s'.wire.log, 0, |s.wire.log|, |s'.wire.log|, t, r);
      }
    }
  }

  lemma NotYetStep(c: Config, s: State, step: Step, t: Topic)
    requires c.grpc && ContiguousAt(c.boot, t) && SeqOf(c.boot, t) < U64 - 1
    requires IntDiff(SeqOf(c.boot, t), 0) >= Window(c)
    requires NotYet(c, s, t) && (Silent(s, t) ==> Cutoff(s.ack, t) == 0)
    ensures NotYet(c, Do(c, s, step), t) || AllOut(c, Do(c, s, step), t)
  {
    var s' := Do(c, s, step);
    UntouchedStep(c, s, step, t);
    StepExtends(c, s, step);
    if Enabled(c, s, step) && step.TickNext? && CursorOn(s, t) {
      TurnOut(c, s, step, t);
    } else {
      CursorStep(c, s, step, t);
      hide Do, Window, IntDiff, Cutoff, Untouched, CursorOn, ContiguousAt;
      SentBelowLater(c, s, s', t, Reached(s, t), Reached(s', t));
      if Silent(s, t) && !CursorOn(s, t) {
        SilentPubs(c, s, step, t);
        SilentLog(c, s, step, t);
      }
    }
    hide Do, Window, IntDiff, Cutoff, Untouched, CursorOn, Silent, SentBelow;
  }

  lemma {:induction false} RestoredResent(c: Config, steps: seq<Step>, t: Topic)
    requires c.grpc && ContiguousAt(c.boot, t) && SeqOf(c.boot, t) < U64 - 1
    requires IntDiff(SeqOf(c.boot, t), 0) >= Window(c) && AllHonest(c, steps)
    ensures NotYet(c, After(c, steps), t) || AllOut(c, After(c, steps), t)
  {
    hide Do, Window, IntDiff, Cutoff, NotYet, SentBelow;
    if steps == [] {
      StartNotYet(c, t);
    } else {
      var init, step := steps[..|steps| - 1], steps[|steps| - 1];
      var s := After(c, init);
      forall node ensures Honest(c, init, node) {
        assert Honest(c, steps, node);
      }
      RestoredResent(c, init, t);
      if AllOut(c, s, t) {
        StepExtends(c, s, step);
        SentBelowLater(c, s, After(c, steps), t, U64, U64);
      } else {
        if Silent(s, t) {
          SilentCutoff(c, init, t);
        }
        NotYetStep(c, s, step, t);
      }
    }
  }

  lemma StartNotYet(c: Config, t: Topic)
    requires ContiguousAt(c.boot, t)
    ensures NotYet(c, Start(c), t)
  {
  }

  lemma NotYetBuffered(c: Config, s: State, t: Topic, r: uint64)
    requires NotYet(c, s, t) && InBuf(c.boot.buf, t, r)
    ensures !Gone(s, t, r)
  {
  }

  lemma KeptUnacknowledged(c: Config, steps: seq<Step>, t: Topic, r: uint64)
    requires ContiguousAt(c.boot, t) && InBuf(c.boot.buf, t, r) && |Given(After(c, steps), t)| < U64
    requires t == "" || !c.grpc
    ensures !Gone(After(c, steps), t, r)
  {
    hide Do;
    var lo0 :| Interval(c.boot, t, lo0);
    if Gone(After(c, steps), t, r) {
      NothingLostUnread(c, steps, t, lo0, r);
      NeverRead(c, steps, t, r);
    }
  }

  /** Main result: exactly when a restored entry can be dropped without ever having been broadcast,
      even to nobody, with honest followers: when the window lets a new message of the topic through
      before anything is acknowledged. Otherwise the first tick resends all of them, to whoever is
      subscribed then. */
  lemma NeverBroadcastIff(c: Config, t: Topic, r: uint64)
    requires c.grpc && ContiguousAt(c.boot, t) && InBuf(c.boot.buf, t, r) && SeqOf(c.boot, t) < U64 - 1
    ensures (exists steps :: DropsUnsent(c, steps, t, r)) <==> t != "" && IntDiff(SeqOf(c.boot, t), 0) < Window(c)
  {
    hide Window, IntDiff, After, AllHonest, NotYet, Gone, ContiguousAt;
    if t == "" {
      forall steps ensures !DropsUnsent(c, steps, t, r) {
        if |Given(After(c, steps), t)| < U64 && Gone(After(c, steps), t, r) {
          KeptUnacknowledged(c, steps, t, r);
        }
      }
    } else if IntDiff(SeqOf(c.boot, t), 0) < Window(c) {
      var steps := DropUnsent(c, t, r);
    } else {
      forall steps ensures !DropsUnsent(c, steps, t, r) {
        if AllHonest(c, steps) {
          RestoredResent(c, steps, t);
          if NotYet(c, After(c, steps), t) {
            NotYetBuffered(c, After(c, steps), t, r);
          }
        }
      }
    }
  }

  // ----- dropped without ever having reached a stream -----

  /** No stream of anybody. */
  function Nobody(t: Topic, r: uint64): Target {
    Target(None, false, t, r)
  }

  /** With honest followers, the run ends with the entry dropped and no stream, of any node, having
      ever carried it. */
  ghost predicate DropsUncarried(c: Config, steps: seq<Step>, t: Topic, r: uint64) {
    && AllHonest(c, steps) && |Given(After(c, steps), t)| < U64
    && Gone(After(c, steps), t, r) && !Told(After(c, steps).wire, Nobody(t, r))
  }

  /** What can overtake the restored entry: a new message, if the window is open; the next restored
      entry; or a new message let through by an acknowledgement of the entry before. */
  ghost predicate CanOvertake(c: Config, t: Topic, r: uint64) {
    || IntDiff(SeqOf(c.boot, t), 0) < Window(c)
    || r < SeqOf(c.boot, t)
    || (Window(c) >= 2 && r > 1 && InBuf(c.boot.buf, t, r - 1))
  }

  lemma StartApart(c: Config, t: Topic, r: uint64)
    ensures After(c, []) == Start(c) && AllHonest(c, []) && Apart(Start(c).wire, Nobody(t, r))
    ensures Cutoff(Start(c).ack, t) == 0 && Cutoff(Readable(c, Start(c)), t) == 0
  {
    CutoffIsMin(map[], t);
  }

  /** The entry before the newest is resent to one node, which acknowledges it and hangs up: the
      window is open. */
  lemma OpenWindow(c: Config, t: Topic, r: uint64) returns (steps: seq<Step>)
    requires c.grpc && t != "" && ContiguousAt(c.boot, t) && Room(Start(c)) && SeqOf(c.boot, t) == r < U64 - 1
    requires Window(c) >= 2 && r > 1 && InBuf(c.boot.buf, t, r - 1)
    ensures AllHonest(c, steps) && Apart(After(c, steps).wire, Nobody(t, r)) && WindowOpen(c, After(c, steps), t)
    ensures Room(After(c, steps)) && |Given(After(c, steps), t)| == r
  {
    hide Do, After, AllHonest, Apart, Ready, Window, Past, AllAcked;
    var g := Nobody(t, r);
    StartApart(c, t, r);
    PastCounted(c, t);
    var msg: Msg;
    steps, msg := BySweep(c, [], g, r - 1);
    var was := After(c, steps).ack;
    steps := CatchUp(c, steps, TickNext({}), msg, {"n"}, g);
    var s := After(c, steps);
    AloneAcked(was, s.ack, t, r - 1);
    SameGiven(Start(c), s, t);
    RoomKept(Start(c), s);
    hide Cutoff;
    assert WindowOpen(c, s, t);
  }

  lemma AloneAcked(was: Acks, ack: Acks, t: Topic, n: uint64)
    requires was == map[] && AllAcked(was, ack, t, {"n"}, n)
    ensures Cutoff(ack, t) == n
  {
    CutoffIsMin(ack, t);
    assert Acked(ack, t, "n", n);
    hide Cutoff;
    forall x | x in ack[t] ensures ack[t][x] == n {
    }
  }

  lemma DropUncarried(c: Config, t: Topic, r: uint64) returns (steps: seq<Step>)
    requires c.grpc && t != "" && ContiguousAt(c.boot, t) && InBuf(c.boot.buf, t, r) && Room(Start(c))
    requires CanOvertake(c, t, r)
    ensures DropsUncarried(c, steps, t, r)
  {
    hide Do, After, AllHonest, Apart, Window, IntDiff, Past;
    PastCounted(c, t);
    StartApart(c, t, r);
    steps := [];
    assert 1 <= r <= SeqOf(c.boot, t) < U64 - 2;
    if IntDiff(SeqOf(c.boot, t), 0) >= Window(c) && r == SeqOf(c.boot, t) {
      steps := OpenWindow(c, t, r);
    }
    steps := LoseHonestly(c, steps, Nobody(t, r));
    LostIsUntold(After(c, steps), Nobody(t, r));
  }

  lemma LostIsUntold(s: State, g: Target)
    requires LostTo(s, g)
    ensures Gone(s, g.topic, g.num) && !Told(s.wire, g)
  {
  }

  /** The newest entry, with the window shut and nothing else within it, is held from the start. */
  lemma StartHeld(c: Config, t: Topic, r: uint64)
    requires ContiguousAt(c.boot, t) && InBuf(c.boot.buf, t, r) && !CanOvertake(c, t, r)
    ensures r < I64 && Held(c, Start(c), Nobody(t, r))
  {
    PastCounted(c, t);
    var g, s := Nobody(t, r), Start(c);
    var lo :| Interval(c.boot, t, lo);
    assert r == SeqOf(c.boot, t);
    hide Past, ContiguousAt;
    forall n: uint64 | Obtainable(s, g, n) ensures n <= r - Window(c) {
      assert InBuf(c.boot.buf, t, n);
      assert r > 1 && InBuf(c.boot.buf, t, r - 1);
    }
  }

  /** Main result: exactly when a restored entry can be dropped without any stream ever having
      carried it, with honest followers: unless it is the newest of its topic, the window is shut,
      and the entry before it is gone or would not open the window. On the empty topic, and without
      acknowledgements, nothing is ever dropped. */
  lemma RestoredLostIff(c: Config, t: Topic, r: uint64)
    requires ContiguousAt(c.boot, t) && InBuf(c.boot.buf, t, r) && Room(Start(c))
    ensures (exists steps :: DropsUncarried(c, steps, t, r)) <==> c.grpc && t != "" && CanOvertake(c, t, r)
  {
    hide After, AllHonest, CanOvertake, Gone, ContiguousAt, Told, Held;
    if c.grpc && t != "" && CanOvertake(c, t, r) {
      var steps := DropUncarried(c, t, r);
    } else {
      forall steps ensures !DropsUncarried(c, steps, t, r) {
        if DropsUncarried(c, steps, t, r) {
          if !c.grpc || t == "" {
            KeptUnacknowledged(c, steps, t, r);
          } else {
            StartHeld(c, t, r);
            HeldFromStart(c, steps, Nobody(t, r));
          }
        }
      }
    }
  }

  lemma HeldFromStart(c: Config, steps: seq<Step>, g: Target)
    requires c.grpc && g.num < I64 && Held(c, Start(c), g) && AllHonest(c, steps)
    ensures Gone(After(c, steps), g.topic, g.num) ==> Told(After(c, steps).wire, g)
  {
    FromStart(c);
    hide After, Honest;
    assert steps[..0] == [];
    HeldUntilTold(c, steps, 0, g);
  }
}
