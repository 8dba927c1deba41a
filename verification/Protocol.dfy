/** Leader-side replication as a step system: any number of concurrent `Publish` calls, the
    retry loop, subscribers, followers and acknowledgements, interleaved arbitrarily.

    Each step is one critical section or one call to the server. The replication lock is held
    across steps only by the retry loop, so `CheckWindow` and `Number`, which take it, are
    disabled while a sweep is under way; broadcasts by publishers are not. */
module Protocol {
  import opened Base
  import opened ReplBuffer
  import opened ReplServer

  type PubId = nat

  /** `window` is the configured ReplWindow; `grpc` says whether the server supports
      acknowledgements and streaming (the HTTP server does not); `boot` is the record the process
      starts with, empty or restored from the buffer directory. */
  datatype Config = Config(window: int, grpc: bool, disk: bool, boot: Rep)

  function Window(c: Config): (w: int)
    ensures w > 0
  {
    if c.window <= 0 then 1024 else c.window
  }

  /** Where a `Publish` call stands: waiting for the window, having read the minimum ack,
      past the window check, or numbered and about to broadcast. */
  datatype Publisher =
    | Waiting(topic: Topic, data: Bytes)
    | HasMin(topic: Topic, data: Bytes, min: uint64)
    | Admitted(topic: Topic, data: Bytes)
    | Numbered(topic: Topic, data: Bytes, num: uint64)

  datatype Cursor = Cursor(topic: Topic, next: uint64)

  /** The retry loop: between ticks, having read the acknowledgements, or sweeping the buffer
      with the lock held. `snap` is the ack map its cutoffs come from. */
  datatype Tick =
    | Idle
    | HasRead(snap: Acks)
    | Sweeping(snap: Acks, todo: set<Topic>, cursor: Option<Cursor>)

  /** The last field only records the past: the numbers given out per topic, with the bytes they
      were given to; see `Past` for those given out by earlier processes. */
  datatype State = State(
    rep: Rep,
    pubs: map<PubId, Publisher>,
    tick: Tick,
    ack: Acks,
    wire: Wire,
    given: map<Topic, seq<(uint64, Bytes)>>)

  /** The numbers up to a restored one, with the bytes that came back; those of entries that did
      not come back are not known. */
  function Past(r: Rep): map<Topic, seq<(uint64, Bytes)>> {
    map t | t in r.seqs ::
      seq(SeqOf(r, t), i requires 0 <= i < SeqOf(r, t) => (i + 1, At(EntriesOf(r.buf, t), i + 1, [])))
  }

  function Start(c: Config): State {
    State(c.boot, map[], Idle, map[], EMPTY_WIRE, Past(c.boot))
  }

  datatype Step =
    // Publish
    | Begin(p: PubId, topic: Topic, data: Bytes)
    | ReadAcks(p: PubId)
    | CheckWindow(p: PubId)
    | Cancel(p: PubId)
    | Number(p: PubId)
    | Send(p: PubId, failed: set<StreamId>)
    // replicationRetryLoop
    | TickRead
    | TickLock
    | TickTopic(topic: Topic)
    | TickNext(failed: set<StreamId>)
    | TickUnlock
    // server and followers
    | Open(id: StreamId, node: NodeId)
    | Disconnect(id: StreamId)
    | Receive(id: StreamId)
    | Ack(topic: Topic, node: NodeId, num: uint64)

  function Given(s: State, t: Topic): seq<(uint64, Bytes)> {
    At(s.given, t, [])
  }

  function Readable(c: Config, s: State): Acks {
    if c.grpc then s.ack else map[]
  }

  predicate Enabled(c: Config, s: State, step: Step) {
    match step
    case Begin(p, _, _) => p !in s.pubs
    case ReadAcks(p) => p in s.pubs && s.pubs[p].Waiting?
    case CheckWindow(p) => p in s.pubs && s.pubs[p].HasMin? && !s.tick.Sweeping?
    case Cancel(p) => p in s.pubs && s.pubs[p].Waiting?
    case Number(p) => p in s.pubs && s.pubs[p].Admitted? && !s.tick.Sweeping?
    case Send(p, _) => p in s.pubs && s.pubs[p].Numbered?
    case TickRead => s.tick.Idle?
    case TickLock => s.tick.HasRead?
    case TickTopic(t) => s.tick.Sweeping? && s.tick.cursor.None? && t in s.tick.todo && t in s.rep.buf
    case TickNext(_) => s.tick.Sweeping? && s.tick.cursor.Some?
    case TickUnlock => s.tick.Sweeping? && s.tick.cursor.None? && s.tick.todo == {}
    case Open(id, _) => c.grpc && id !in s.wire.streams
    case Disconnect(_) => true
    case Receive(id) => id in s.wire.streams && s.wire.streams[id].received < |s.wire.streams[id].sent|
    case Ack(_, _, _) => c.grpc
  }

  ghost function DoReadAcks(c: Config, s: State, p: PubId): State
    requires Enabled(c, s, ReadAcks(p))
  {
    var Waiting(t, data) := s.pubs[p];
    var min := Cutoff(Readable(c, s), t);
    s.(pubs := s.pubs[p := HasMin(t, data, min)])
  }

  function DoCheck(c: Config, s: State, p: PubId): State
    requires Enabled(c, s, CheckWindow(p))
  {
    var HasMin(t, data, min) := s.pubs[p];
    s.(pubs := s.pubs[p := if IntDiff(SeqOf(s.rep, t), min) < Window(c) then Admitted(t, data) else Waiting(t, data)])
  }

  function DoNumber(c: Config, s: State, p: PubId): State
    requires Enabled(c, s, Number(p))
  {
    var Admitted(t, data) := s.pubs[p];
    var n := Inc(SeqOf(s.rep, t));
    s.(rep := Assign(s.rep, c.disk, t, data),
       pubs := s.pubs[p := Numbered(t, data, n)],
       given := s.given[t := Given(s, t) + [(n, data)]])
  }

  function DoSend(c: Config, s: State, p: PubId, failed: set<StreamId>): State
    requires Enabled(c, s, Send(p, failed))
  {
    var Numbered(t, data, n) := s.pubs[p];
    s.(pubs := s.pubs - {p},
       wire := if c.grpc then Broadcast(s.wire, Msg(t, data, n), failed) else s.wire)
  }

  ghost function DoTickTopic(c: Config, s: State, t: Topic): State
    requires Enabled(c, s, TickTopic(t))
  {
    var a := Cutoff(s.tick.snap, t);
    s.(rep := Clean(s.rep, c.disk, t, a),
       tick := Sweeping(s.tick.snap, s.tick.todo - {t}, if c.grpc then Some(Cursor(t, Inc(a))) else None))
  }

  /** One turn of the resend loop, including its wrapping counter. */
  function DoTickNext(c: Config, s: State, failed: set<StreamId>): State
    requires Enabled(c, s, TickNext(failed))
  {
    var Cursor(t, n) := s.tick.cursor.value;
    if n > SeqOf(s.rep, t) then s.(tick := s.tick.(cursor := None))
    else
      var es := EntriesOf(s.rep.buf, t);
      s.(tick := s.tick.(cursor := Some(Cursor(t, Inc(n)))),
         wire := if n in es then Broadcast(s.wire, Msg(t, es[n], n), failed) else s.wire)
  }

  function DoReceive(c: Config, s: State, id: StreamId): State
    requires Enabled(c, s, Receive(id))
  {
    s.(wire := ReceiveOne(s.wire, id))
  }

  /** A disabled step changes nothing, so that every sequence of steps is a schedule. */
  ghost function Do(c: Config, s: State, step: Step): State {
    if !Enabled(c, s, step) then s
    else
      match step
      case Begin(p, t, data) => s.(pubs := s.pubs[p := Waiting(t, data)])
      case ReadAcks(p) => DoReadAcks(c, s, p)
      case CheckWindow(p) => DoCheck(c, s, p)
      case Cancel(p) => s.(pubs := s.pubs - {p})
      case Number(p) => DoNumber(c, s, p)
      case Send(p, failed) => DoSend(c, s, p, failed)
      case TickRead => s.(tick := HasRead(Readable(c, s)))
      case TickLock => s.(tick := Sweeping(s.tick.snap, s.rep.buf.Keys, None))
      case TickTopic(t) => DoTickTopic(c, s, t)
      case TickNext(failed) => DoTickNext(c, s, failed)
      case TickUnlock => s.(tick := Idle)
      case Open(id, node) => s.(wire := AddSub(s.wire, id, node, s.rep.seqs))
      case Disconnect(id) => s.(wire := RemoveSub(s.wire, id))
      case Receive(id) => DoReceive(c, s, id)
      case Ack(t, node, n) => s.(ack := RecordAck(s.ack, t, node, n))
  }

  /** The state a schedule leads to from the start of a process. */
  ghost function After(c: Config, steps: seq<Step>): State {
    if steps == [] then Start(c) else Do(c, After(c, steps[..|steps| - 1]), steps[|steps| - 1])
  }

  lemma AfterNext(c: Config, steps: seq<Step>, i: nat)
    requires i < |steps|
    ensures After(c, steps[..i + 1]) == Do(c, After(c, steps[..i]), steps[i])
  {
    assert steps[..i + 1][..i] == steps[..i];
  }

  lemma AfterAppend(c: Config, steps: seq<Step>, step: Step)
    ensures After(c, steps + [step]) == Do(c, After(c, steps), step)
  {
    assert (steps + [step])[..|steps|] == steps;
  }

  /** Nothing that records the past is ever rewritten. */
  ghost predicate Extends(s: State, s': State) {
    && (forall t :: Given(s, t) <= Given(s', t))
    && s.wire.log <= s'.wire.log
  }

  lemma StepExtends(c: Config, s: State, step: Step)
    ensures Extends(s, Do(c, s, step))
  {
  }

  lemma {:induction false} RunExtends(c: Config, steps: seq<Step>, i: nat)
    requires i <= |steps|
    ensures Extends(After(c, steps[..i]), After(c, steps))
    decreases |steps| - i
  {
    if i < |steps| {
      RunExtends(c, steps, i + 1);
      AfterNext(c, steps, i);
      StepExtends(c, After(c, steps[..i]), steps[i]);
      PrefixChain(c, steps, i);
    } else {
      assert steps[..i] == steps;
    }
  }

  lemma PrefixChain(c: Config, steps: seq<Step>, i: nat)
    requires i < |steps|
    requires Extends(After(c, steps[..i]), After(c, steps[..i + 1]))
    requires Extends(After(c, steps[..i + 1]), After(c, steps))
    ensures Extends(After(c, steps[..i]), After(c, steps))
  {
  }

  /** Numbering keeps the topic's entries and adds the new one. */
  lemma NumberEntries(c: Config, s: State, p: PubId, t: Topic)
    requires Enabled(c, s, Number(p))
    ensures var s', pub := DoNumber(c, s, p), s.pubs[p];
            EntriesOf(s'.rep.buf, t) ==
            if t == pub.topic then EntriesOf(s.rep.buf, t)[Inc(SeqOf(s.rep, t)) := pub.data]
            else EntriesOf(s.rep.buf, t)
    ensures SeqOf(DoNumber(c, s, p).rep, t) == if t == s.pubs[p].topic then Inc(SeqOf(s.rep, t)) else SeqOf(s.rep, t)
  {
  }

  lemma TickTopicEntries(c: Config, s: State, t1: Topic, t: Topic)
    requires Enabled(c, s, TickTopic(t1))
    ensures var s', a := DoTickTopic(c, s, t1), Cutoff(s.tick.snap, t1);
            EntriesOf(s'.rep.buf, t) ==
            if t == t1 then Above(EntriesOf(s.rep.buf, t), a) else EntriesOf(s.rep.buf, t)
  {
  }

  /** Which steps touch the buffer, the numbers, and the broadcast order. */
  lemma StepFrame(c: Config, s: State, step: Step)
    ensures var s' := Do(c, s, step);
            && (!step.Number? && !step.TickTopic? ==> s'.rep == s.rep)
            && (!step.Number? ==> s'.given == s.given && s'.rep.seqs == s.rep.seqs)
            && (!step.Send? && !step.TickNext? ==> s'.wire.log == s.wire.log)
  {
  }

  /** The node of stream `id` takes the next message. */
  function ReceiveOne(w: Wire, id: StreamId): Wire
    requires id in w.streams
  {
    w.(streams := w.streams[id := w.streams[id].(received := w.streams[id].received + 1)])
  }

  /** What a step does to the wire; `ms` is the message it broadcasts, if it does. */
  lemma WireStepCases(c: Config, s: State, step: Step) returns (ms: seq<Msg>)
    ensures var w, w' := s.wire, Do(c, s, step).wire;
            || (ms == [] && w' == w)
            || (ms == [] && step.Open? && Enabled(c, s, step) && w' == AddSub(w, step.id, step.node, s.rep.seqs))
            || (ms == [] && step.Disconnect? && w' == RemoveSub(w, step.id))
            || (ms == [] && step.Receive? && Enabled(c, s, step) && w' == ReceiveOne(w, step.id))
            || (|ms| == 1 && (step.Send? || step.TickNext?) && Enabled(c, s, step)
                && w' == Broadcast(w, ms[0], step.failed))
    ensures step.Open? && Enabled(c, s, step) ==> Do(c, s, step).wire == AddSub(s.wire, step.id, step.node, s.rep.seqs)
    ensures ms != [] && step.Send? ==> ms[0] == Msg(s.pubs[step.p].topic, s.pubs[step.p].data, s.pubs[step.p].num)
    ensures ms != [] && !step.Send? ==> ms[0].num in EntriesOf(s.rep.buf, ms[0].topic)
    ensures c.grpc && step.Send? && Enabled(c, s, step) ==> ms != []
    ensures step.Disconnect? ==> Do(c, s, step).wire == RemoveSub(s.wire, step.id)
  {
    hide Assign, Clean, Cutoff, AckedAll, IntDiff, Window, Broadcast;
    ms := [];
    if Enabled(c, s, step) {
      if step.Send? && c.grpc {
        ms := [Msg(s.pubs[step.p].topic, s.pubs[step.p].data, s.pubs[step.p].num)];
      } else if step.TickNext? {
        var Cursor(t, n) := s.tick.cursor.value;
        var es := EntriesOf(s.rep.buf, t);
        if n <= SeqOf(s.rep, t) && n in es {
          ms := [Msg(t, es[n], n)];
        }
      }
    }
  }
}
