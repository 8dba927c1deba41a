/** What each subscriber's stream carries, in every reachable state. */
module StreamProof {
  import opened ReplServer
  import opened Protocol

  /** The messages a stream accepted are a prefix of the broadcast order from its opening on,
      across all topics; while it is subscribed it has accepted all of them. */
  ghost predicate StreamOk(w: Wire, id: StreamId)
    requires id in w.streams
  {
    var st := w.streams[id];
    && st.openedAt <= |w.log|
    && st.sent <= w.log[st.openedAt..]
    && st.received <= |st.sent|
    && (id in w.subs ==> st.sent == w.log[st.openedAt..])
  }

  ghost predicate WireOk(w: Wire) {
    && (forall id :: id in w.subs ==> id in w.streams)
    && (forall id :: id in w.streams ==> StreamOk(w, id))
  }

  lemma BroadcastOk(w: Wire, m: Msg, failed: set<StreamId>)
    requires WireOk(w)
    ensures WireOk(Broadcast(w, m, failed))
  {
  }

  lemma WireStep(c: Config, s: State, step: Step)
    requires WireOk(s.wire)
    ensures WireOk(Do(c, s, step).wire)
  {
    var ms := WireStepCases(c, s, step);
    if ms != [] {
      BroadcastOk(s.wire, ms[0], step.failed);
    }
    hide Do, Broadcast;
  }

  /** Main result: no gaps and no reordering on any stream of any run. */
  lemma {:induction false} StreamsArePrefixes(c: Config, steps: seq<Step>)
    ensures WireOk(After(c, steps).wire)
  {
    if steps != [] {
      StreamsArePrefixes(c, steps[..|steps| - 1]);
      WireStep(c, After(c, steps[..|steps| - 1]), steps[|steps| - 1]);
    }
  }

  /** A later wire keeps an earlier stream, and leaves one that is no longer subscribed as it
      was, apart from what its node still receives. */
  ghost predicate LaterAt(w: Wire, w': Wire, id: StreamId)
    requires id in w.streams
  {
    && id in w'.streams
    && var st, st' := w.streams[id], w'.streams[id];
    && st'.node == st.node && st'.openedAt == st.openedAt && st'.base == st.base
    && st.sent <= st'.sent && st.received <= st'.received
    && (id !in w.subs ==> id !in w'.subs && st'.sent == st.sent)
  }

  ghost predicate Later(w: Wire, w': Wire) {
    forall id :: id in w.streams ==> LaterAt(w, w', id)
  }

  lemma BroadcastLater(w: Wire, m: Msg, failed: set<StreamId>)
    ensures Later(w, Broadcast(w, m, failed))
    ensures Broadcast(w, m, failed).streams.Keys == w.streams.Keys
  {
  }

  lemma LaterStep(c: Config, s: State, step: Step)
    ensures Later(s.wire, Do(c, s, step).wire)
    ensures Do(c, s, step).wire.streams.Keys ==
            s.wire.streams.Keys + if step.Open? && Enabled(c, s, step) then {step.id} else {}
  {
    var ms := WireStepCases(c, s, step);
    if ms != [] {
      BroadcastLater(s.wire, ms[0], step.failed);
    }
    hide Do, Broadcast;
  }

  lemma LaterTransitive(w: Wire, mid: Wire, w': Wire)
    requires Later(w, mid) && Later(mid, w')
    ensures Later(w, w')
  {
  }

  /** A stream that is no longer subscribed never is again, and gets nothing more. */
  lemma {:induction false} DroppedStreamsStaySilent(c: Config, steps: seq<Step>, i: nat)
    requires i <= |steps|
    ensures Later(After(c, steps[..i]).wire, After(c, steps).wire)
    decreases |steps| - i
  {
    if i == |steps| {
      assert steps[..i] == steps;
    } else {
      DroppedStreamsStaySilent(c, steps, i + 1);
      AfterNext(c, steps, i);
      LaterStep(c, After(c, steps[..i]), steps[i]);
      LaterTransitive(After(c, steps[..i]).wire, After(c, steps[..i + 1]).wire, After(c, steps).wire);
    }
  }

  /** The step disconnects the stream, or it is a broadcast, first send or resend, during which
      the send on the stream fails. */
  ghost predicate Breaks(c: Config, s: State, step: Step, id: StreamId) {
    || step == Disconnect(id)
    || ((step.Send? || step.TickNext?) && id in step.failed && Do(c, s, step).wire.log != s.wire.log)
  }

  /** Nothing else takes a subscribed stream off the server. */
  lemma UnsubscribedIff(c: Config, s: State, step: Step, id: StreamId)
    requires id in s.wire.subs && id in s.wire.streams
    ensures id !in Do(c, s, step).wire.subs <==> Breaks(c, s, step, id)
  {
    var ms := WireStepCases(c, s, step);
    hide Do, Deliver;
  }

  /** A disconnect, or one failed send, is the end of a stream: whatever happens later, it has
      accepted what it had accepted before. */
  lemma BrokenStreamsEnd(c: Config, steps: seq<Step>, i: nat, id: StreamId)
    requires i < |steps| && id in After(c, steps[..i]).wire.streams
    requires Breaks(c, After(c, steps[..i]), steps[i], id)
    ensures var w, w' := After(c, steps[..i]).wire, After(c, steps).wire;
            id in w'.streams && id !in w'.subs && w'.streams[id].sent == w.streams[id].sent
  {
    var s, s' := After(c, steps[..i]), After(c, steps[..i + 1]);
    AfterNext(c, steps, i);
    LaterStep(c, s, steps[i]);
    assert LaterAt(s.wire, s'.wire, id);
    BreakEnds(c, s, steps[i], id);
    hide Do;
    DroppedStreamsStaySilent(c, steps, i + 1);
    assert LaterAt(s'.wire, After(c, steps).wire, id);
  }

  ghost predicate BrokenAt(c: Config, steps: seq<Step>, k: nat, id: StreamId) {
    k < |steps| && Breaks(c, After(c, steps[..k]), steps[k], id)
  }

  /** Main result: a subscribed stream is off later exactly when it was disconnected or a send on it
      failed in between. */
  lemma {:induction false} StreamEndsIff(c: Config, steps: seq<Step>, i: nat, id: StreamId)
    requires i <= |steps| && id in After(c, steps[..i]).wire.subs
    ensures id !in After(c, steps).wire.subs <==> exists k :: i <= k && BrokenAt(c, steps, k, id)
    decreases |steps| - i
  {
    hide Do, Breaks;
    if i == |steps| {
      assert steps[..i] == steps;
    } else {
      var s := After(c, steps[..i]);
      StreamsArePrefixes(c, steps[..i]);
      AfterNext(c, steps, i);
      UnsubscribedIff(c, s, steps[i], id);
      if id in After(c, steps[..i + 1]).wire.subs {
        StreamEndsIff(c, steps, i + 1, id);
        assert !BrokenAt(c, steps, i, id);
      } else {
        assert BrokenAt(c, steps, i, id);
        BrokenStreamsEnd(c, steps, i, id);
      }
    }
  }

  lemma BreakEnds(c: Config, s: State, step: Step, id: StreamId)
    requires id in s.wire.streams && Breaks(c, s, step, id)
    ensures var w' := Do(c, s, step).wire;
            id !in w'.subs && id in w'.streams && w'.streams[id].sent == s.wire.streams[id].sent
  {
    var ms := WireStepCases(c, s, step);
    hide Do;
  }

  lemma {:induction false} StreamsNeedGrpc(c: Config, steps: seq<Step>)
    requires !c.grpc
    ensures After(c, steps).wire.streams.Keys == {}
  {
    hide Do, Later;
    if steps != [] {
      StreamsNeedGrpc(c, steps[..|steps| - 1]);
      LaterStep(c, After(c, steps[..|steps| - 1]), steps[|steps| - 1]);
    }
  }
}
