/** The retry loop inside the step system: what one tick sends while publishers, subscribers and
    followers go on, and that it comes to an end. */
module SweepProof {
  import opened Base
  import opened ReplBuffer
  import opened ReplServer
  import opened RetryLoop
  import opened Protocol
  import opened BufferProof

  /** What the retry loop itself has broadcast since it last took the lock. */
  ghost function Swept(c: Config, steps: seq<Step>): seq<Msg> {
    if steps == [] then []
    else
      var init, step := steps[..|steps| - 1], steps[|steps| - 1];
      if !Enabled(c, After(c, init), step) then Swept(c, init)
      else SweptNext(After(c, init), Do(c, After(c, init), step), step, Swept(c, init))
  }

  ghost function SweptNext(s: State, s': State, step: Step, swept: seq<Msg>): seq<Msg> {
    if step.TickLock? then []
    else if step.TickNext? && |s.wire.log| <= |s'.wire.log| then swept + s'.wire.log[|s.wire.log|..]
    else swept
  }

  /** The record it found then. */
  ghost function Found(c: Config, steps: seq<Step>): Rep {
    if steps == [] then c.boot
    else
      var init, step := steps[..|steps| - 1], steps[|steps| - 1];
      if step.TickLock? && Enabled(c, After(c, init), step) then After(c, init).rep else Found(c, init)
  }

  /** How far the sweep has come on a topic it has reached. */
  ghost predicate ResentUpTo(s: State, t: Topic, a: uint64, sent: seq<Msg>)
    requires s.tick.Sweeping?
  {
    var es, top := EntriesOf(s.rep.buf, t), SeqOf(s.rep, t);
    if s.tick.cursor.Some? && s.tick.cursor.value.topic == t
    then var n := s.tick.cursor.value.next;
         (n == Inc(a) || n <= top + 1) && sent == Resends(t, es, a, n - 1)
    else sent == Resends(t, es, a, top)
  }

  ghost predicate SweepAt(s: State, found: Rep, sent: seq<Msg>, t: Topic)
    requires s.tick.Sweeping?
  {
    var a := Cutoff(s.tick.snap, t);
    if t in s.tick.todo || t !in found.buf
    then EntriesOf(s.rep.buf, t) == EntriesOf(found.buf, t) && sent == []
    else EntriesOf(s.rep.buf, t) == Above(EntriesOf(found.buf, t), a) && ResentUpTo(s, t, a, sent)
  }

  /** The topics that are left were found, the one at hand is not among them, and no topic or
      number has been added since. */
  ghost predicate SweepOk(s: State, found: Rep)
    requires s.tick.Sweeping?
  {
    && s.rep.seqs == found.seqs && s.rep.buf.Keys == found.buf.Keys && s.tick.todo <= found.buf.Keys
    && (s.tick.cursor.Some? ==>
          s.tick.cursor.value.topic !in s.tick.todo && s.tick.cursor.value.topic in found.buf)
  }

  /** While the retry loop holds the lock, no other step touches the record or the loop. */
  lemma LockHeld(c: Config, s: State, step: Step)
    requires s.tick.Sweeping? && !step.TickTopic? && !step.TickNext? && !step.TickUnlock?
    ensures Do(c, s, step).rep == s.rep && Do(c, s, step).tick == s.tick
  {
  }

  lemma SweepOkStep(c: Config, s: State, step: Step, found: Rep)
    requires s.tick.Sweeping? && SweepOk(s, found) && Do(c, s, step).tick.Sweeping?
    ensures SweepOk(Do(c, s, step), found)
  {
    hide Above, Cutoff, Broadcast, FilesUpTo;
    if Enabled(c, s, step) && step.TickNext? {
      TurnSends(c, s, step);
      hide Do;
    } else if !step.TickTopic? && !step.TickUnlock? && !step.TickNext? {
      LockHeld(c, s, step);
      hide Do;
    }
  }

  /** One turn of the resend loop. */
  lemma TurnSends(c: Config, s: State, step: Step)
    requires step.TickNext? && Enabled(c, s, step)
    ensures var s', n, u := Do(c, s, step), s.tick.cursor.value.next, s.tick.cursor.value.topic;
            && s'.rep == s.rep && s'.pubs == s.pubs && s'.tick.Sweeping?
            && s'.tick.snap == s.tick.snap && s'.tick.todo == s.tick.todo
            && s'.tick.cursor == (if n > SeqOf(s.rep, u) then None else Some(Cursor(u, Inc(n))))
            && s'.wire.log == s.wire.log +
               if n <= SeqOf(s.rep, u) && n in EntriesOf(s.rep.buf, u)
               then [Msg(u, EntriesOf(s.rep.buf, u)[n], n)] else []
  {
    hide Deliver;
  }

  lemma TurnKeepsSweep(c: Config, s: State, step: Step, found: Rep, swept: seq<Msg>, t: Topic)
    requires step.TickNext? && Enabled(c, s, step) && SweepOk(s, found) && SeqOf(s.rep, t) < U64 - 1
    requires SweepAt(s, found, OnTopic(swept, t), t)
    ensures SweepAt(Do(c, s, step), found, OnTopic(SweptNext(s, Do(c, s, step), step, swept), t), t)
  {
    var s', u := Do(c, s, step), s.tick.cursor.value.topic;
    TurnSends(c, s, step);
    hide Do, Cutoff, Resends, OnTopic, EntriesOf, Above, ResentUpTo;
    var ms := s'.wire.log[|s.wire.log|..];
    OnTopicConcat(swept, ms, t);
    OnTopicUniform(ms, u, t);
    var a, sent := Cutoff(s.tick.snap, t), OnTopic(swept, t);
    if u == t {
      AboveOnly(EntriesOf(found.buf, t), a);
      TurnResends(s, s', t, a, sent, ms);
    } else {
      assert sent + [] == sent;
      OtherResent(s, s', t, a, sent);
    }
  }

  lemma AboveOnly(es: Entries, a: uint64)
    ensures forall i: uint64 :: i in Above(es, a) ==> i > a
  {
  }

  lemma OtherResent(s: State, s': State, t: Topic, a: uint64, sent: seq<Msg>)
    requires s.tick.Sweeping? && s'.tick.Sweeping? && s'.rep == s.rep
    requires s.tick.cursor.Some? && s.tick.cursor.value.topic != t
    requires s'.tick.cursor.Some? ==> s'.tick.cursor.value.topic != t
    ensures ResentUpTo(s, t, a, sent) == ResentUpTo(s', t, a, sent)
  {
  }

  lemma TurnResends(s: State, s': State, t: Topic, a: uint64, sent: seq<Msg>, ms: seq<Msg>)
    requires s.tick.Sweeping? && s'.tick.Sweeping? && s'.rep == s.rep && SeqOf(s.rep, t) < U64 - 1
    requires s.tick.cursor.Some? && s.tick.cursor.value.topic == t && ResentUpTo(s, t, a, sent)
    requires forall i: uint64 :: i in EntriesOf(s.rep.buf, t) ==> i > a
    requires var n, es := s.tick.cursor.value.next, EntriesOf(s.rep.buf, t);
             && s'.tick.cursor == (if n > SeqOf(s.rep, t) then None else Some(Cursor(t, Inc(n))))
             && ms == if n <= SeqOf(s.rep, t) && n in es then [Msg(t, es[n], n)] else []
    ensures ResentUpTo(s', t, a, sent + ms)
  {
    hide Resends, EntriesOf;
    var n, es := s.tick.cursor.value.next, EntriesOf(s.rep.buf, t);
    if n > SeqOf(s.rep, t) {
      ResendsNone(t, es, a, n - 1, SeqOf(s.rep, t));
      assert sent + ms == sent;
    } else {
      ResendsNext(t, es, a, n);
    }
  }

  lemma TopicKeepsSweep(c: Config, s: State, step: Step, found: Rep, swept: seq<Msg>, t: Topic)
    requires c.grpc && step.TickTopic? && Enabled(c, s, step) && SweepOk(s, found)
    requires SweepAt(s, found, OnTopic(swept, t), t)
    ensures SweepAt(Do(c, s, step), found, OnTopic(swept, t), t)
  {
    TickTopicEntries(c, s, step.topic, t);
    hide Above, Cutoff, Clean;
  }

  /** Between taking the lock and giving it up, whatever other steps interleave. */
  lemma {:induction false} SweepProgress(c: Config, steps: seq<Step>, t: Topic)
    requires c.grpc && After(c, steps).tick.Sweeping? && SeqOf(After(c, steps).rep, t) < U64 - 1
    ensures SweepOk(After(c, steps), Found(c, steps))
    ensures SweepAt(After(c, steps), Found(c, steps), OnTopic(Swept(c, steps), t), t)
  {
    var init, step := steps[..|steps| - 1], steps[|steps| - 1];
    var s, s' := After(c, init), After(c, steps);
    hide Do, OnTopic, Above, Cutoff, Resends, EntriesOf, ResentUpTo;
    if !s.tick.Sweeping? {
      LockTaken(c, s, step);
    } else {
      SweepStarted(c, s, step);
      SweepProgress(c, init, t);
      SweepOkStep(c, s, step, Found(c, init));
      if Enabled(c, s, step) && step.TickNext? {
        TurnKeepsSweep(c, s, step, Found(c, init), Swept(c, init), t);
      } else if Enabled(c, s, step) && step.TickTopic? {
        TopicKeepsSweep(c, s, step, Found(c, init), Swept(c, init), t);
      } else if step.TickTopic? || step.TickNext? || step.TickUnlock? {
        Disabled(c, s, step);
      } else {
        LockHeld(c, s, step);
        StillResent(s, s', t, Cutoff(s.tick.snap, t), OnTopic(Swept(c, init), t));
      }
    }
  }

  lemma StillResent(s: State, s': State, t: Topic, a: uint64, sent: seq<Msg>)
    requires s.tick.Sweeping? && s'.tick == s.tick && s'.rep == s.rep
    ensures ResentUpTo(s, t, a, sent) == ResentUpTo(s', t, a, sent)
  {
  }

  lemma Disabled(c: Config, s: State, step: Step)
    requires s.tick.Sweeping? && Do(c, s, step).tick.Sweeping?
    ensures step.TickUnlock? || !Enabled(c, s, step) ==> Do(c, s, step) == s && !Enabled(c, s, step)
  {
  }

  lemma LockTaken(c: Config, s: State, step: Step)
    requires !s.tick.Sweeping? && Do(c, s, step).tick.Sweeping?
    ensures step.TickLock? && Enabled(c, s, step) && Do(c, s, step).rep == s.rep
    ensures Do(c, s, step).tick == Sweeping(s.tick.snap, s.rep.buf.Keys, None)
  {
  }

  lemma SweepStarted(c: Config, s: State, step: Step)
    requires s.tick.Sweeping? && Do(c, s, step).tick.Sweeping?
    ensures !(step.TickLock? && Enabled(c, s, step))
    ensures Do(c, s, step).rep.seqs == s.rep.seqs
    ensures Do(c, s, step).tick.snap == s.tick.snap
  {
  }

  /** Main result: when a tick has gone through all topics, then on each topic it has itself
      broadcast exactly what its cleanup left of the record it found, each entry once, ascending,
      with its own bytes, whatever publishers, subscribers and followers did in between; the cutoff
      is the true minimum over the ack map it had read. */
  lemma SweepSendsWhatIsLeft(c: Config, steps: seq<Step>, t: Topic)
    requires c.grpc && ContiguousAt(c.boot, t) && |Given(After(c, steps), t)| < U64 - 1
    requires Enabled(c, After(c, steps), TickUnlock)
    ensures var s, found := After(c, steps), Found(c, steps);
            var a := Cutoff(s.tick.snap, t);
            && IsMinAck(At(s.tick.snap, t, map[]), a) && s.rep.seqs == found.seqs
            && EntriesOf(s.rep.buf, t) == Above(EntriesOf(found.buf, t), a)
            && CopiesOf(OnTopic(Swept(c, steps), t), t, EntriesOf(s.rep.buf, t), -1, U64)
  {
    hide Do, Cutoff, Resends, OnTopic, After, Swept, Found;
    var s := After(c, steps);
    var a, es := Cutoff(s.tick.snap, t), EntriesOf(s.rep.buf, t);
    NumbersAreConsecutive(c, steps, t);
    SweepProgress(c, steps, t);
    CutoffIsMin(s.tick.snap, t);
    var lo := BufferIsInterval(c, steps, t);
    assert forall n: uint64 :: n in es ==> InBuf(s.rep.buf, t, n);
    ResendsExactly(t, es, a, SeqOf(s.rep, t));
  }

  // ----- a tick comes to an end -----

  /** No topic has reached 2^64 - 1. */
  ghost predicate Small(s: State) {
    forall u :: u in s.rep.seqs ==> s.rep.seqs[u] < U64 - 1
  }

  predicate Turn(step: Step) {
    step.TickLock? || step.TickTopic? || step.TickNext? || step.TickUnlock?
  }

  ghost function TopicsLeft(s: State): nat {
    match s.tick
    case Idle => 0
    case HasRead(_) => |s.rep.buf.Keys| + 2
    case Sweeping(_, todo, _) => |todo| + 1
  }

  ghost function TurnsLeft(s: State): nat {
    if s.tick.Sweeping? && s.tick.cursor.Some? then U64 - s.tick.cursor.value.next else 0
  }

  lemma TopicTurn(c: Config, s: State, t: Topic)
    requires Enabled(c, s, TickTopic(t))
    ensures var s' := Do(c, s, TickTopic(t));
            && s'.rep.seqs == s.rep.seqs && s'.pubs == s.pubs
            && s'.ack == s.ack && s'.wire == s.wire && s'.given == s.given
            && s'.tick == Sweeping(s.tick.snap, s.tick.todo - {t},
                                   if c.grpc then Some(Cursor(t, Inc(Cutoff(s.tick.snap, t)))) else None)
  {
  }

  lemma NextTurn(c: Config, s: State) returns (step: Step)
    requires !s.tick.Idle? && (s.tick.Sweeping? ==> s.tick.todo <= s.rep.buf.Keys)
    requires Small(s)
    ensures Turn(step) && Enabled(c, s, step)
    ensures var s' := Do(c, s, step);
            && s'.rep.seqs == s.rep.seqs && s'.pubs == s.pubs
            && (TopicsLeft(s') < TopicsLeft(s) || (TopicsLeft(s') == TopicsLeft(s) && TurnsLeft(s') < TurnsLeft(s)))
  {
    if s.tick.HasRead? {
      step := TickLock;
    } else if s.tick.cursor.Some? {
      step := TickNext({});
      assert SeqOf(s.rep, s.tick.cursor.value.topic) < U64 - 1;
      TurnSends(c, s, step);
      hide Do;
    } else if s.tick.todo == {} {
      step := TickUnlock;
    } else {
      var t :| t in s.tick.todo;
      step := TickTopic(t);
      TopicTurn(c, s, t);
      hide Do;
      assert |s.tick.todo - {t}| < |s.tick.todo|;
    }
  }

  /** The number is buffered and the tick under way, if there is one, does not drop it. */
  ghost predicate Resendable(s: State, t: Topic, n: uint64) {
    InBuf(s.rep.buf, t, n) && (s.tick.Idle? || n > Cutoff(s.tick.snap, t))
  }

  /** A topic that a sweep has been through holds nothing that it was to drop. */
  lemma SweptIsClean(c: Config, steps: seq<Step>, t: Topic, n: uint64)
    requires c.grpc && After(c, steps).tick.Sweeping? && SeqOf(After(c, steps).rep, t) < U64 - 1
    requires t !in After(c, steps).tick.todo && InBuf(After(c, steps).rep.buf, t, n)
    ensures n > Cutoff(After(c, steps).tick.snap, t)
  {
    hide Do, Cutoff, ResentUpTo;
    SweepProgress(c, steps, t);
  }

  lemma TurnKeeps(c: Config, s: State, step: Step, t: Topic, n: uint64)
    requires !s.tick.Idle? && Turn(step) && Enabled(c, s, step)
    requires step.TickUnlock? && InBuf(s.rep.buf, t, n) ==> n > Cutoff(s.tick.snap, t)
    ensures Resendable(Do(c, s, step), t, n) <==> Resendable(s, t, n)
  {
    StepFrame(c, s, step);
    SnapStep(c, s, step);
    if step.TickTopic? {
      TickTopicEntries(c, s, step.topic, t);
      TopicTurn(c, s, step.topic);
    }
    hide Clean, Cutoff, Broadcast, EntriesOf;
  }

  /** One step of the retry loop from a reachable state. */
  lemma TurnOn(c: Config, steps: seq<Step>, t: Topic) returns (step: Step)
    requires c.grpc && Small(After(c, steps)) && !After(c, steps).tick.Idle?
    ensures Turn(step)
    ensures var s, s' := After(c, steps), After(c, steps + [step]);
            && s'.rep.seqs == s.rep.seqs && s'.pubs == s.pubs
            && (forall n: uint64 :: Resendable(s', t, n) <==> Resendable(s, t, n))
            && (TopicsLeft(s') < TopicsLeft(s) || (TopicsLeft(s') == TopicsLeft(s) && TurnsLeft(s') < TurnsLeft(s)))
  {
    hide Do, After, SweepAt, TopicsLeft, TurnsLeft, Resendable, InBuf, Cutoff;
    var s := After(c, steps);
    if s.tick.Sweeping? {
      SweepProgress(c, steps, t);
    }
    step := NextTurn(c, s);
    forall n: uint64 ensures Resendable(Do(c, s, step), t, n) <==> Resendable(s, t, n) {
      if step.TickUnlock? && InBuf(s.rep.buf, t, n) {
        SweptIsClean(c, steps, t, n);
      }
      TurnKeeps(c, s, step, t, n);
    }
    AfterAppend(c, steps, step);
  }

  /** Main result: as long as no topic has reached 2^64 - 1, the steps of the retry loop alone take
      a tick to its end from every reachable state, and drop just what it was to drop. */
  lemma {:induction false} TickEnds(c: Config, steps: seq<Step>, t: Topic) returns (more: seq<Step>)
    requires c.grpc && Small(After(c, steps))
    ensures steps <= more && After(c, more).tick.Idle?
    ensures forall n: uint64 :: InBuf(After(c, more).rep.buf, t, n) <==> Resendable(After(c, steps), t, n)
    ensures forall k :: |steps| <= k < |more| ==> Turn(more[k])
    ensures After(c, more).rep.seqs == After(c, steps).rep.seqs && After(c, more).pubs == After(c, steps).pubs
    decreases TopicsLeft(After(c, steps)), TurnsLeft(After(c, steps))
  {
    more := steps;
    if !After(c, steps).tick.Idle? {
      hide After, TopicsLeft, TurnsLeft, Resendable, InBuf;
      var step := TurnOn(c, steps, t);
      more := TickEnds(c, steps + [step], t);
    }
  }
}
