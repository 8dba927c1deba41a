/** The application event bus: buffered channels that are filled, drained and closed
    concurrently. */
module EventBus {

  datatype Event = LeaderChanged(leader: string) | ElectionStart
    | MemberJoin(id: string) | MemberLeave(id: string) | MemberFailed(id: string)

  const CAPACITY := 64

  /** A non-blocking send: the event is dropped when the buffer is full. */
  function Offer(buffer: seq<Event>, ev: Event): seq<Event> {
    if |buffer| < CAPACITY then buffer + [ev] else buffer
  }

  class Chan {
    var buffer: seq<Event>
    var closed: bool

    constructor ()
      ensures buffer == [] && !closed
    {
      buffer, closed := [], false;
    }
  }

  class Bus {
    var subs: set<Chan>

    constructor ()
      ensures subs == {}
    {
      subs := {};
    }

    method Add(ch: Chan)
      modifies this
      ensures subs == old(subs) + {ch}
    {
      subs := subs + {ch};
    }

    method Remove(ch: Chan)
      modifies this
      ensures subs == old(subs) - {ch}
    {
      subs := subs - {ch};
    }

    /** Sending on a closed channel would panic; the run-level result NeverSendsOnClosed shows
        that the precondition always holds. */
    method Publish(ev: Event)
      requires forall ch :: ch in subs ==> !ch.closed
      modifies subs
      ensures forall ch :: ch in subs ==> ch.buffer == Offer(old(ch.buffer), ev) && !ch.closed
    {
      var todo := subs;
      while todo != {}
        invariant todo <= subs
        invariant forall ch :: ch in subs ==> !ch.closed
        invariant forall ch :: ch in subs ==>
          ch.buffer == if ch in todo then old(ch.buffer) else Offer(old(ch.buffer), ev)
        decreases |todo|
      {
        var ch :| ch in todo;
        todo := todo - {ch};
        if |ch.buffer| < CAPACITY {
          ch.buffer := ch.buffer + [ev];
        }
      }
    }
  }

  // ----- runs -----

  type ChanId = nat

  /** Where the goroutine of a subscription stands. Adding the channel to the bus, removing it
      and closing it are separate steps. */
  datatype Phase = Made | Added | Removed | Done

  /** A channel with its past: where in the publish order it was added and removed, how many events were
      unread at each publish that found it on the bus, which positions of the order it
      accepted, and what its subscriber has received. */
  datatype Sub = Sub(phase: Phase, closed: bool, buffer: seq<Event>, received: seq<Event>,
                     addedAt: nat, removedAt: nat, unread: seq<nat>, accepted: seq<nat>)

  /** `bus` holds the channels the bus knows; `panicked` records a send on a closed one. */
  datatype State = State(log: seq<Event>, bus: set<ChanId>, subs: map<ChanId, Sub>, panicked: bool)

  const INIT := State([], {}, map[], false)

  datatype Step =
    | Make(id: ChanId)
    | AddTo(id: ChanId)
    | PublishEv(ev: Event)
    | Receive(id: ChanId)
    | RemoveFrom(id: ChanId)
    | Close(id: ChanId)

  predicate Enabled(s: State, step: Step) {
    match step
    case Make(id) => id !in s.subs
    case AddTo(id) => id in s.subs && s.subs[id].phase == Made
    case PublishEv(_) => !s.panicked
    case Receive(id) => id in s.subs && s.subs[id].buffer != []
    case RemoveFrom(id) => id in s.subs && s.subs[id].phase == Added
    case Close(id) => id in s.subs && s.subs[id].phase == Removed
  }

  function Take(u: Sub, ev: Event, at: nat): Sub {
    u.(buffer := Offer(u.buffer, ev),
       unread := u.unread + [|u.buffer|],
       accepted := if |u.buffer| < CAPACITY then u.accepted + [at] else u.accepted)
  }

  function DoPublish(s: State, ev: Event): State {
    State(s.log + [ev],
          s.bus,
          map id | id in s.subs :: if id in s.bus then Take(s.subs[id], ev, |s.log|) else s.subs[id],
          exists id :: id in s.bus && id in s.subs && s.subs[id].closed)
  }

  function DoReceive(u: Sub): Sub
    requires u.buffer != []
  {
    u.(buffer := u.buffer[1..], received := u.received + [u.buffer[0]])
  }

  /** A disabled step changes nothing, so that every sequence of steps is a schedule. */
  function Do(s: State, step: Step): State {
    if !Enabled(s, step) then s
    else
      match step
      case Make(id) => s.(subs := s.subs[id := Sub(Made, false, [], [], 0, 0, [], [])])
      case AddTo(id) => s.(bus := s.bus + {id}, subs := s.subs[id := s.subs[id].(phase := Added, addedAt := |s.log|)])
      case PublishEv(ev) => DoPublish(s, ev)
      case Receive(id) => s.(subs := s.subs[id := DoReceive(s.subs[id])])
      case RemoveFrom(id) =>
        s.(bus := s.bus - {id}, subs := s.subs[id := s.subs[id].(phase := Removed, removedAt := |s.log|)])
      case Close(id) => s.(subs := s.subs[id := s.subs[id].(phase := Done, closed := true)])
  }

  function After(steps: seq<Step>): State {
    if steps == [] then INIT else Do(After(steps[..|steps| - 1]), steps[|steps| - 1])
  }

  /** The events at the given positions of the publish order. */
  function Pick(log: seq<Event>, at: seq<nat>): seq<Event>
    requires forall i :: 0 <= i < |at| ==> at[i] < |log|
  {
    seq(|at|, i requires 0 <= i < |at| => log[at[i]])
  }

  /** What a channel holds and has delivered is an ordered selection of the events published
      while it was on the bus; a position is left out exactly when 64 events were unread. */
  ghost predicate Selects(log: seq<Event>, u: Sub) {
    && u.addedAt + |u.unread| <= |log|
    && (forall i :: 0 <= i < |u.accepted| ==> u.addedAt <= u.accepted[i] < u.addedAt + |u.unread|)
    && (forall i, j :: 0 <= i < j < |u.accepted| ==> u.accepted[i] < u.accepted[j])
    && (forall k :: 0 <= k < |u.unread| ==> (u.addedAt + k in u.accepted <==> u.unread[k] != 64))
    && |u.buffer| <= 64
    && u.received + u.buffer == Pick(log, u.accepted)
  }

  /** The end of the stretch of the publish order during which the channel was on the bus. */
  function OnBusUntil(s: State, u: Sub): nat {
    if u.phase == Added then |s.log| else u.removedAt
  }

  /** The bus, the goroutine's position and the channel's flag agree; while on the bus the
      channel is offered every event. */
  ghost predicate InStep(s: State, id: ChanId)
    requires id in s.subs
  {
    var u := s.subs[id];
    && (id in s.bus <==> u.phase == Added)
    && (u.closed <==> u.phase == Done)
    && (u.phase == Made ==> u.unread == [] && u.accepted == [] && u.addedAt == 0)
    && (u.phase != Made ==> u.addedAt + |u.unread| == OnBusUntil(s, u))
  }

  ghost predicate Good(s: State) {
    && !s.panicked
    && s.bus <= s.subs.Keys
    && forall id :: id in s.subs ==> InStep(s, id) && Selects(s.log, s.subs[id])
  }

  lemma PickExtends(log: seq<Event>, ev: Event, at: seq<nat>)
    requires forall i :: 0 <= i < |at| ==> at[i] < |log|
    ensures Pick(log + [ev], at) == Pick(log, at)
    ensures Pick(log + [ev], at + [|log|]) == Pick(log, at) + [ev]
  {
  }

  lemma SelectsExtends(log: seq<Event>, ev: Event, u: Sub)
    requires Selects(log, u)
    ensures Selects(log + [ev], u)
  {
  }

  lemma AcceptSelects(log: seq<Event>, ev: Event, u: Sub)
    requires Selects(log, u) && u.addedAt + |u.unread| == |log| && |u.buffer| < CAPACITY
    ensures Selects(log + [ev], Take(u, ev, |log|))
  {
    var u' := Take(u, ev, |log|);
    PickExtends(log, ev, u.accepted);
    assert u'.received + u'.buffer == u.received + u.buffer + [ev];
    forall k | 0 <= k < |u'.unread| ensures u'.addedAt + k in u'.accepted <==> u'.unread[k] != CAPACITY {
      assert u'.addedAt + k in u'.accepted <==> u'.addedAt + k in u.accepted || k == |u.unread|;
      assert k < |u.unread| ==> u'.unread[k] == u.unread[k];
    }
    hide Pick;
  }

  lemma DropSelects(log: seq<Event>, ev: Event, u: Sub)
    requires Selects(log, u) && u.addedAt + |u.unread| == |log| && |u.buffer| == CAPACITY
    ensures Selects(log + [ev], Take(u, ev, |log|))
  {
  }

  lemma ReceiveSelects(log: seq<Event>, u: Sub)
    requires Selects(log, u) && u.buffer != []
    ensures Selects(log, DoReceive(u))
  {
  }

  lemma AddSelects(s: State, id: ChanId)
    requires id in s.subs && InStep(s, id) && Selects(s.log, s.subs[id]) && s.subs[id].phase == Made
    ensures Selects(s.log, s.subs[id].(phase := Added, addedAt := |s.log|))
  {
  }

  lemma PublishSelects(s: State, ev: Event, id: ChanId)
    requires id in s.subs && InStep(s, id) && Selects(s.log, s.subs[id])
    ensures Selects(s.log + [ev], DoPublish(s, ev).subs[id])
  {
    var u := s.subs[id];
    if id !in s.bus {
      SelectsExtends(s.log, ev, u);
    } else if |u.buffer| < CAPACITY {
      AcceptSelects(s.log, ev, u);
    } else {
      DropSelects(s.log, ev, u);
    }
  }

  /** Which steps change what a channel holds. */
  lemma SubStep(s: State, step: Step, id: ChanId)
    requires Enabled(s, step) && id in s.subs
    ensures var s' := Do(s, step);
            && id in s'.subs
            && s'.log == (if step.PublishEv? then s.log + [step.ev] else s.log)
            && (step.PublishEv? ==> s' == DoPublish(s, step.ev))
            && (step.Receive? && step.id == id ==> s.subs[id].buffer != [] && s'.subs[id] == DoReceive(s.subs[id]))
            && (step.AddTo? && step.id == id ==>
                  s.subs[id].phase == Made && s'.subs[id] == s.subs[id].(phase := Added, addedAt := |s.log|))
            && (!step.PublishEv? && !((step.Receive? || step.AddTo?) && step.id == id) ==>
                  && s'.subs[id].buffer == s.subs[id].buffer && s'.subs[id].received == s.subs[id].received
                  && s'.subs[id].addedAt == s.subs[id].addedAt && s'.subs[id].unread == s.subs[id].unread
                  && s'.subs[id].accepted == s.subs[id].accepted)
  {
  }

  lemma SelectsStep(s: State, step: Step, id: ChanId)
    requires Good(s) && Enabled(s, step) && id in s.subs
    ensures id in Do(s, step).subs && Selects(Do(s, step).log, Do(s, step).subs[id])
  {
    assert InStep(s, id) && Selects(s.log, s.subs[id]);
    SubStep(s, step, id);
    hide Do, DoPublish, Good;
    if step.PublishEv? {
      PublishSelects(s, step.ev, id);
    } else if step.Receive? && step.id == id {
      ReceiveSelects(s.log, s.subs[id]);
    } else if step.AddTo? && step.id == id {
      AddSelects(s, id);
    }
  }

  lemma InStepStep(s: State, step: Step, id: ChanId)
    requires Good(s) && Enabled(s, step) && id in s.subs
    ensures id in Do(s, step).subs && InStep(Do(s, step), id)
  {
    hide Selects;
    assert InStep(s, id);
  }

  lemma GoodStep(s: State, step: Step)
    requires Good(s)
    ensures Good(Do(s, step))
  {
    var s' := Do(s, step);
    if Enabled(s, step) {
      forall id | id in s'.subs ensures InStep(s', id) && Selects(s'.log, s'.subs[id]) {
        if id in s.subs {
          SelectsStep(s, step, id);
          InStepStep(s, step, id);
        } else {
          assert step == Make(id);
          assert Pick(s'.log, []) == [];
        }
      }
      assert !s'.panicked by {
        forall id | id in s.bus && id in s.subs ensures !s.subs[id].closed {
          assert InStep(s, id);
        }
      }
    }
  }

  lemma {:induction false} RunsAreGood(steps: seq<Step>)
    ensures Good(After(steps))
  {
    if steps != [] {
      RunsAreGood(steps[..|steps| - 1]);
      GoodStep(After(steps[..|steps| - 1]), steps[|steps| - 1]);
    }
  }

  /** The events that a run publishes, in order. */
  function Events(steps: seq<Step>): seq<Event> {
    if steps == [] then []
    else
      var step := steps[|steps| - 1];
      Events(steps[..|steps| - 1]) + if step.PublishEv? then [step.ev] else []
  }

  /** Every publish goes through: the publish order is what the run publishes. */
  lemma {:induction false} PublishOrder(steps: seq<Step>)
    ensures After(steps).log == Events(steps)
  {
    if steps != [] {
      PublishOrder(steps[..|steps| - 1]);
      NeverSendsOnClosed(steps[..|steps| - 1]);
    }
  }

  /** The goroutine of a subscriber that goes on reading. */
  function Read(s: State, id: ChanId, k: nat): State {
    if k == 0 then s else Do(Read(s, id, k - 1), Receive(id))
  }

  lemma {:induction false} ReadTakes(s: State, id: ChanId, k: nat)
    requires id in s.subs && k <= |s.subs[id].buffer|
    ensures var u := s.subs[id];
            var u' := u.(buffer := u.buffer[k..], received := u.received + u.buffer[..k]);
            Read(s, id, k) == s.(subs := s.subs[id := u'])
  {
    if k == 0 {
      assert s.subs[id := s.subs[id]] == s.subs;
      assert s.subs[id].received + s.subs[id].buffer[..0] == s.subs[id].received;
    } else {
      ReadTakes(s, id, k - 1);
      var u := s.subs[id];
      var mid := u.(buffer := u.buffer[k - 1..], received := u.received + u.buffer[..k - 1]);
      var done := u.(buffer := u.buffer[k..], received := u.received + u.buffer[..k]);
      assert u.buffer[..k] == u.buffer[..k - 1] + [u.buffer[k - 1]];
      assert DoReceive(mid) == done;
      assert s.subs[id := mid][id := done] == s.subs[id := done];
    }
  }

  /** Main result: a subscriber that reads its channel, also after it has been closed, gets every
      event that it accepted, in publish order. */
  lemma ReadersGetAll(steps: seq<Step>, id: ChanId)
    requires id in After(steps).subs
    ensures var s, u := After(steps), After(steps).subs[id];
            && (forall i :: 0 <= i < |u.accepted| ==> u.accepted[i] < |s.log|)
            && var s' := Read(s, id, |u.buffer|);
            id in s'.subs && s'.subs[id].received == Pick(s.log, u.accepted) && s'.subs[id].buffer == []
  {
    var u := After(steps).subs[id];
    DeliveryIsOrderedSelection(steps, id);
    ReadTakes(After(steps), id, |u.buffer|);
    assert u.buffer[..|u.buffer|] == u.buffer;
  }

  /** The life of a subscription from any reachable state: made, added, offered an event, removed and
      closed. It keeps what it was offered, and gets nothing that is published after its removal. */
  lemma SubscriptionLife(steps: seq<Step>, id: ChanId, ev: Event, late: Event)
    requires id !in After(steps).subs
    ensures var s0 := After(steps);
            var s1 := Do(Do(Do(s0, Make(id)), AddTo(id)), PublishEv(ev));
            var s2 := Do(Do(s1, RemoveFrom(id)), PublishEv(late));
            var s3 := Do(s2, Close(id));
            && s1.subs[id].buffer == [ev] && id in s1.bus
            && s2.subs[id].buffer == [ev] && id !in s2.bus && !s2.subs[id].closed
            && s3.subs[id].buffer == [ev] && s3.subs[id].closed && s3.log == s0.log + [ev, late] && !s3.panicked
  {
    RunsAreGood(steps);
    var s0 := After(steps);
    hide After;
    assert forall ch :: ch in s0.bus ==> InStep(s0, ch);
    hide Selects;
  }

  /** Main result: over every interleaving of subscribing, publishing, receiving and cancelling,
      no publish ever sends on a closed channel. */
  lemma NeverSendsOnClosed(steps: seq<Step>)
    ensures !After(steps).panicked
    ensures forall id :: id in After(steps).bus ==> id in After(steps).subs && !After(steps).subs[id].closed
  {
    RunsAreGood(steps);
    var s := After(steps);
    forall id | id in s.bus ensures id in s.subs && !s.subs[id].closed {
      assert InStep(s, id);
    }
  }

  /** Main result: what a subscriber has received plus what is buffered for it is an ordered
      subsequence of the events published while it was on the bus, and an event is missing
      exactly when 64 were unread at its publish. */
  lemma DeliveryIsOrderedSelection(steps: seq<Step>, id: ChanId)
    requires id in After(steps).subs
    ensures Selects(After(steps).log, After(steps).subs[id])
    ensures var s, u := After(steps), After(steps).subs[id];
            u.phase != Made ==> u.addedAt + |u.unread| == OnBusUntil(s, u)
  {
    RunsAreGood(steps);
    assert InStep(After(steps), id);
  }
}
