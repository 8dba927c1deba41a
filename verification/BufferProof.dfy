/** What the leader numbers, keeps and broadcasts, in every reachable state. */
module BufferProof {
  import opened Base
  import opened FileNames
  import opened ReplBuffer
  import opened ReplServer
  import opened Protocol

  /** The (i+1)-th number given out on a topic, with wrap-around. */
  function NthNumber(i: nat): uint64 {
    (i + 1) % U64
  }

  ghost predicate Counted(s: State, t: Topic) {
    var a := Given(s, t);
    && SeqOf(s.rep, t) == |a| % U64
    && forall i :: 0 <= i < |a| ==> a[i].0 == NthNumber(i)
  }

  /** Number `n` of topic `t` was given to a publish of `data`. */
  ghost predicate Carries(s: State, t: Topic, n: uint64, data: Bytes) {
    var a := Given(s, t);
    1 <= n <= |a| && a[n - 1].1 == data
  }

  ghost predicate FaithfulBuf(s: State, t: Topic) {
    forall n: uint64 :: n in EntriesOf(s.rep.buf, t) ==> Carries(s, t, n, EntriesOf(s.rep.buf, t)[n])
  }

  ghost predicate FaithfulPubs(s: State, t: Topic) {
    forall p :: p in s.pubs && s.pubs[p].Numbered? && s.pubs[p].topic == t ==>
      Carries(s, t, s.pubs[p].num, s.pubs[p].data)
  }

  ghost predicate FaithfulLog(s: State, t: Topic) {
    forall i :: 0 <= i < |s.wire.log| && s.wire.log[i].topic == t ==>
      Carries(s, t, s.wire.log[i].num, s.wire.log[i].data)
  }

  /** Every copy of a message on topic `t`, wherever it is, has the bytes of the publish that
      got its number. */
  ghost predicate Faithful(s: State, t: Topic) {
    FaithfulBuf(s, t) && FaithfulPubs(s, t) && FaithfulLog(s, t)
  }

  lemma CountedStep(c: Config, s: State, step: Step, t: Topic)
    requires Counted(s, t)
    ensures Counted(Do(c, s, step), t)
  {
    StepFrame(c, s, step);
    if step.Number? && Enabled(c, s, step) && s.pubs[step.p].topic == t {
      assert Inc(SeqOf(s.rep, t)) == (|Given(s, t)| + 1) % U64;
    }
    hide FileName, Clean, Cutoff, Broadcast, IntDiff;
  }

  lemma FaithfulBufStep(c: Config, s: State, step: Step, t: Topic)
    requires Counted(s, t) && FaithfulBuf(s, t) && |Given(Do(c, s, step), t)| < U64
    ensures FaithfulBuf(Do(c, s, step), t)
  {
    var s' := Do(c, s, step);
    StepFrame(c, s, step);
    StepExtends(c, s, step);
    if Enabled(c, s, step) && step.Number? {
      NumberEntries(c, s, step.p, t);
    } else if Enabled(c, s, step) && step.TickTopic? {
      TickTopicEntries(c, s, step.topic, t);
    }
    hide Do, Assign, Cutoff, Clean;
  }

  lemma FaithfulPubsStep(c: Config, s: State, step: Step, t: Topic)
    requires Counted(s, t) && FaithfulPubs(s, t) && |Given(Do(c, s, step), t)| < U64
    ensures FaithfulPubs(Do(c, s, step), t)
  {
    hide Assign, Cutoff, Clean, Broadcast, IntDiff, Window;
    StepExtends(c, s, step);
  }

  lemma FaithfulLogStep(c: Config, s: State, step: Step, t: Topic)
    requires Faithful(s, t)
    ensures FaithfulLog(Do(c, s, step), t)
  {
  }

  lemma FaithfulStep(c: Config, s: State, step: Step, t: Topic)
    requires Counted(s, t) && Faithful(s, t) && |Given(Do(c, s, step), t)| < U64
    ensures Faithful(Do(c, s, step), t)
  {
    FaithfulBufStep(c, s, step, t);
    FaithfulPubsStep(c, s, step, t);
    FaithfulLogStep(c, s, step, t);
  }

  /** The past of a restored record is numbered like that of a process that gave out all the
      numbers itself, and holds the restored entries. */
  lemma PastCounted(c: Config, t: Topic)
    ensures Counted(Start(c), t) && |Given(Start(c), t)| == SeqOf(c.boot, t)
    ensures ContiguousAt(c.boot, t) ==> Faithful(Start(c), t)
  {
    if ContiguousAt(c.boot, t) {
      forall n: uint64 | n in EntriesOf(c.boot.buf, t) ensures Carries(Start(c), t, n, EntriesOf(c.boot.buf, t)[n]) {
        assert InBuf(c.boot.buf, t, n);
      }
    }
  }

  /** The numbers given out on a topic are 1, 2, 3, ... in order, wrapping modulo 2^64,
      whatever the interleaving of publishers. */
  lemma {:induction false} NumbersAreConsecutive(c: Config, steps: seq<Step>, t: Topic)
    ensures Counted(After(c, steps), t)
  {
    if steps == [] {
      PastCounted(c, t);
    } else {
      var init, step := steps[..|steps| - 1], steps[|steps| - 1];
      NumbersAreConsecutive(c, init, t);
      CountedStep(c, After(c, init), step, t);
    }
  }

  /** They are pairwise distinct exactly as long as at most 2^64 were given out. */
  lemma NumbersDistinctIff(c: Config, steps: seq<Step>, t: Topic)
    ensures var a := Given(After(c, steps), t);
            (forall i, j :: 0 <= i < j < |a| ==> a[i].0 != a[j].0) <==> |a| <= U64
  {
    NumbersAreConsecutive(c, steps, t);
    var a := Given(After(c, steps), t);
    hide After;
    if |a| > U64 {
      assert a[0].0 == NthNumber(0) && a[U64].0 == NthNumber(U64);
      NthNumberDistinctIff(0, U64);
    } else {
      forall i, j | 0 <= i < j < |a| ensures a[i].0 != a[j].0 {
        NthNumberDistinctIff(i, j);
        hide NthNumber;
      }
    }
  }

  lemma NthNumberDistinctIff(i: nat, j: nat)
    requires i < j <= U64
    ensures NthNumber(i) == NthNumber(j) <==> j == i + U64
  {
  }

  /** Every broadcast, first send or resend, and every buffered copy carries the bytes given to
      the publish that got its number. */
  lemma {:induction false} CopiesAreFaithful(c: Config, steps: seq<Step>, t: Topic)
    requires ContiguousAt(c.boot, t) && |Given(After(c, steps), t)| < U64
    ensures Faithful(After(c, steps), t)
  {
    if steps == [] {
      PastCounted(c, t);
    } else {
      var init, step := steps[..|steps| - 1], steps[|steps| - 1];
      StepExtends(c, After(c, init), step);
      assert Given(After(c, init), t) <= Given(After(c, steps), t);
      CopiesAreFaithful(c, init, t);
      NumbersAreConsecutive(c, init, t);
      FaithfulStep(c, After(c, init), step, t);
    }
  }

  /** One step keeps the buffer an interval and never lowers its lower end. */
  lemma IntervalStep(c: Config, s: State, step: Step, t: Topic, lo: int) returns (lo': int)
    requires Counted(s, t) && Interval(s.rep, t, lo) && |Given(Do(c, s, step), t)| < U64
    ensures lo <= lo' && Interval(Do(c, s, step).rep, t, lo')
  {
    lo' := lo;
    if !Enabled(c, s, step) || (!step.Number? && !step.TickTopic?) {
      StepFrame(c, s, step);
    } else if step.Number? {
      var pub := s.pubs[step.p];
      AssignKeepsInterval(s.rep, c.disk, pub.topic, pub.data, t, lo);
    } else {
      var a := Cutoff(s.tick.snap, step.topic);
      CleanRaisesInterval(s.rep, c.disk, step.topic, a, t, lo);
      lo' := if step.topic == t then Raise(lo, a, SeqOf(s.rep, t)) else lo;
    }
  }

  /** In every reachable state the buffer of a topic holds exactly the numbers (lo, seq]. */
  lemma {:induction false} BufferIsInterval(c: Config, steps: seq<Step>, t: Topic) returns (lo: int)
    requires ContiguousAt(c.boot, t) && |Given(After(c, steps), t)| < U64
    ensures Interval(After(c, steps).rep, t, lo)
  {
    if steps == [] {
      lo :| Interval(c.boot, t, lo);
    } else {
      var init, step := steps[..|steps| - 1], steps[|steps| - 1];
      StepExtends(c, After(c, init), step);
      assert Given(After(c, init), t) <= Given(After(c, steps), t);
      lo := BufferIsInterval(c, init, t);
      NumbersAreConsecutive(c, init, t);
      lo := IntervalStep(c, After(c, init), step, t, lo);
    }
  }

  /** The lower end never moves down over a run, although acknowledgements, and with them the
      cutoffs of later ticks, can. */
  lemma {:induction false} LowerEndMonotone(c: Config, steps: seq<Step>, i: nat, t: Topic, lo: int, lo': int)
    requires i <= |steps| && |Given(After(c, steps), t)| < U64
    requires Interval(After(c, steps[..i]).rep, t, lo) && Interval(After(c, steps).rep, t, lo')
    ensures lo <= lo'
    decreases |steps| - i
  {
    if i == |steps| {
      assert steps[..i] == steps;
      IntervalUnique(After(c, steps).rep, t, lo, lo');
    } else {
      RunExtends(c, steps, i + 1);
      assert Given(After(c, steps[..i + 1]), t) <= Given(After(c, steps), t);
      AfterNext(c, steps, i);
      NumbersAreConsecutive(c, steps[..i], t);
      var mid := IntervalStep(c, After(c, steps[..i]), steps[i], t, lo);
      LowerEndMonotone(c, steps, i + 1, t, mid, lo');
    }
  }

  /** Some tick of the run has read a cutoff of at least `n` for the topic. */
  ghost predicate ReadByTick(c: Config, steps: seq<Step>, t: Topic, n: int) {
    steps != [] &&
    var init, step := steps[..|steps| - 1], steps[|steps| - 1];
    || ReadByTick(c, init, t, n)
    || (step.TickRead? && Enabled(c, After(c, init), step) && n <= Cutoff(Readable(c, After(c, init)), t))
  }

  lemma {:induction false} ReadByTickLess(c: Config, steps: seq<Step>, t: Topic, n: int, m: int)
    requires ReadByTick(c, steps, t, n) && m <= n
    ensures ReadByTick(c, steps, t, m)
  {
    var init := steps[..|steps| - 1];
    if ReadByTick(c, init, t, n) {
      ReadByTickLess(c, init, t, n, m);
    }
  }

  /** The cutoffs of a tick under way were read by it, and nothing below the lower end was
      dropped without such a tick, apart from what was missing at the start, up to `lo0`. */
  ghost predicate Accounted(c: Config, steps: seq<Step>, t: Topic, lo0: int, lo: int) {
    var s := After(c, steps);
    && (!s.tick.Idle? ==> ReadByTick(c, steps, t, Cutoff(s.tick.snap, t)))
    && (lo > lo0 ==> ReadByTick(c, steps, t, lo))
  }

  /** A tick's copy of the ack map is the one it read. */
  lemma SnapStep(c: Config, s: State, step: Step)
    ensures var s' := Do(c, s, step);
            !s'.tick.Idle? ==>
              if step.TickRead? && Enabled(c, s, step) then s'.tick.snap == Readable(c, s)
              else !s.tick.Idle? && s'.tick.snap == s.tick.snap
  {
  }

  lemma AccountedStep(c: Config, steps: seq<Step>, t: Topic, lo0: int, lo: int, lo': int)
    requires steps != [] && |Given(After(c, steps), t)| < U64
    requires var init := steps[..|steps| - 1];
             Accounted(c, init, t, lo0, lo) && Interval(After(c, init).rep, t, lo) && Counted(After(c, init), t)
    requires Interval(After(c, steps).rep, t, lo')
    ensures Accounted(c, steps, t, lo0, lo')
  {
    var init, step := steps[..|steps| - 1], steps[|steps| - 1];
    var s, s' := After(c, init), After(c, steps);
    SnapStep(c, s, step);
    if step.TickTopic? && Enabled(c, s, step) && step.topic == t {
      var a := Cutoff(s.tick.snap, t);
      CleanRaisesInterval(s.rep, c.disk, t, a, t, lo);
      IntervalUnique(s'.rep, t, lo', Raise(lo, a, SeqOf(s.rep, t)));
      if lo' > lo {
        ReadByTickLess(c, init, t, a, lo');
      }
    } else {
      SameLowerEnd(c, s, step, t, lo);
      IntervalUnique(s'.rep, t, lo', lo);
    }
    hide Do, Cutoff;
  }

  lemma SameLowerEnd(c: Config, s: State, step: Step, t: Topic, lo: int)
    requires Counted(s, t) && Interval(s.rep, t, lo) && |Given(Do(c, s, step), t)| < U64
    requires !(step.TickTopic? && Enabled(c, s, step) && step.topic == t)
    ensures Interval(Do(c, s, step).rep, t, lo)
  {
    if !Enabled(c, s, step) || (!step.Number? && !step.TickTopic?) {
      StepFrame(c, s, step);
    } else if step.Number? {
      AssignKeepsInterval(s.rep, c.disk, s.pubs[step.p].topic, s.pubs[step.p].data, t, lo);
    } else {
      CleanRaisesInterval(s.rep, c.disk, step.topic, Cutoff(s.tick.snap, step.topic), t, lo);
    }
  }

  lemma {:induction false} LowerEndAccounted(c: Config, steps: seq<Step>, t: Topic, lo0: int, lo: int)
    requires |Given(After(c, steps), t)| < U64 && Interval(c.boot, t, lo0) && Interval(After(c, steps).rep, t, lo)
    ensures Accounted(c, steps, t, lo0, lo)
  {
    if steps == [] {
      IntervalUnique(c.boot, t, lo0, lo);
    } else {
      var init, step := steps[..|steps| - 1], steps[|steps| - 1];
      StepExtends(c, After(c, init), step);
      assert Given(After(c, init), t) <= Given(After(c, steps), t);
      NumbersAreConsecutive(c, init, t);
      var was := BufferIsInterval(c, init, t);
      LowerEndAccounted(c, init, t, lo0, was);
      AccountedStep(c, steps, t, lo0, was, lo);
    }
  }

  /** Main result: every number given out, and every restored one, is either still buffered with
      its original bytes or was at or below a minimum read by some retry tick. */
  lemma NothingLostUnread(c: Config, steps: seq<Step>, t: Topic, lo0: int, n: uint64)
    requires Interval(c.boot, t, lo0) && |Given(After(c, steps), t)| < U64 && lo0 < n <= |Given(After(c, steps), t)|
    ensures var s := After(c, steps);
            || Lookup(s.rep.buf, t, n) == Some(Given(s, t)[n - 1].1)
            || ReadByTick(c, steps, t, n)
  {
    var s := After(c, steps);
    var lo := BufferIsInterval(c, steps, t);
    NumbersAreConsecutive(c, steps, t);
    CopiesAreFaithful(c, steps, t);
    LowerEndAccounted(c, steps, t, lo0, lo);
    if n > lo {
      assert InBuf(s.rep.buf, t, n);
      assert Carries(s, t, n, EntriesOf(s.rep.buf, t)[n]);
    } else {
      ReadByTickLess(c, steps, t, lo, n);
    }
  }

  /** The run contains a `Publish` call of this message, by publisher `p`. */
  ghost predicate Published(steps: seq<Step>, p: PubId, t: Topic, data: Bytes) {
    Begin(p, t, data) in steps
  }

  ghost predicate SomePublished(steps: seq<Step>, t: Topic, data: Bytes) {
    exists p :: Published(steps, p, t, data)
  }

  /** A publisher keeps the topic and bytes it was called with. */
  lemma PublisherStep(c: Config, s: State, step: Step, p: PubId)
    requires p in Do(c, s, step).pubs
    ensures var pub := Do(c, s, step).pubs[p];
            || step == Begin(p, pub.topic, pub.data)
            || (p in s.pubs && s.pubs[p].topic == pub.topic && s.pubs[p].data == pub.data)
  {
  }

  lemma GivenStep(c: Config, s: State, step: Step, t: Topic)
    ensures var s' := Do(c, s, step);
            if step.Number? && Enabled(c, s, step) && s.pubs[step.p].topic == t
            then Given(s', t) == Given(s, t) + [(Inc(SeqOf(s.rep, t)), s.pubs[step.p].data)]
            else Given(s', t) == Given(s, t)
  {
  }

  lemma {:induction false} PublishersKeepTheirMessage(c: Config, steps: seq<Step>, p: PubId)
    requires p in After(c, steps).pubs
    ensures Published(steps, p, After(c, steps).pubs[p].topic, After(c, steps).pubs[p].data)
  {
    if steps != [] {
      hide Do;
      var init, step := steps[..|steps| - 1], steps[|steps| - 1];
      PublisherStep(c, After(c, init), step, p);
      if p in After(c, init).pubs {
        PublishersKeepTheirMessage(c, init, p);
      }
      assert steps == init + [step];
    }
  }

  /** What a number given out by this process stands for is a message that some `Publish` call
      was given on that topic. */
  lemma {:induction false} NumberedMessagesWerePublished(c: Config, steps: seq<Step>, t: Topic, i: nat)
    requires SeqOf(c.boot, t) <= i < |Given(After(c, steps), t)|
    ensures SomePublished(steps, t, Given(After(c, steps), t)[i].1)
  {
    if steps != [] {
      hide Do, Given;
      var init, step := steps[..|steps| - 1], steps[|steps| - 1];
      var s := After(c, init);
      GivenStep(c, s, step, t);
      assert steps == init + [step];
      if i < |Given(s, t)| {
        NumberedMessagesWerePublished(c, init, t, i);
        var p :| Published(init, p, t, Given(s, t)[i].1);
        assert Published(steps, p, t, Given(s, t)[i].1);
      } else {
        PublishersKeepTheirMessage(c, init, step.p);
        assert Published(steps, step.p, t, s.pubs[step.p].data);
      }
    }
  }

  // ----- a publish that is given up -----

  predicate StepOf(step: Step, p: PubId) {
    (step.Begin? || step.ReadAcks? || step.CheckWindow? || step.Cancel? || step.Number? || step.Send?) && step.p == p
  }

  /** The run with the steps of publisher `p` left out. */
  function Without(steps: seq<Step>, p: PubId): seq<Step> {
    if steps == [] then []
    else
      var init, step := Without(steps[..|steps| - 1], p), steps[|steps| - 1];
      if StepOf(step, p) then init else init + [step]
  }

  ghost predicate InFront(s: State, p: PubId) {
    p in s.pubs ==> s.pubs[p].Waiting? || s.pubs[p].HasMin?
  }

  /** Publisher `p` never gets past the window check. */
  ghost predicate OnlyWaits(c: Config, steps: seq<Step>, p: PubId) {
    InFront(After(c, steps), p) && (steps != [] ==> OnlyWaits(c, steps[..|steps| - 1], p))
  }

  function Erase(s: State, p: PubId): State {
    s.(pubs := s.pubs - {p})
  }

  lemma OwnStepErased(c: Config, s: State, step: Step, p: PubId)
    requires StepOf(step, p) && InFront(s, p) && InFront(Do(c, s, step), p)
    ensures Erase(Do(c, s, step), p) == Erase(s, p)
  {
    hide Cutoff, IntDiff, Window;
  }

  lemma OtherPubs(s: State, p: PubId, q: PubId, pub: Publisher)
    requires q != p
    ensures Erase(s, p).pubs[q := pub] == s.pubs[q := pub] - {p}
    ensures Erase(s, p).pubs - {q} == s.pubs - {q} - {p}
    ensures q in s.pubs <==> q in Erase(s, p).pubs
    ensures q in s.pubs ==> Erase(s, p).pubs[q] == s.pubs[q]
  {
  }

  lemma OtherStepErased(c: Config, s: State, step: Step, p: PubId)
    requires !StepOf(step, p)
    ensures Do(c, Erase(s, p), step) == Erase(Do(c, s, step), p)
  {
    hide Cutoff, IntDiff, Window, Assign, Clean, Broadcast, RecordAck;
    match step
    case Begin(q, t, data) => OtherPubs(s, p, q, Waiting(t, data));
    case ReadAcks(q) =>
      if q in s.pubs && s.pubs[q].Waiting? {
        OtherPubs(s, p, q, Do(c, s, step).pubs[q]);
      }
    case CheckWindow(q) =>
      if q in s.pubs && s.pubs[q].HasMin? {
        OtherPubs(s, p, q, Do(c, s, step).pubs[q]);
      }
    case Number(q) =>
      if q in s.pubs && s.pubs[q].Admitted? {
        OtherPubs(s, p, q, Do(c, s, step).pubs[q]);
      }
    case Cancel(q) => OtherPubs(s, p, q, Waiting("", []));
    case Send(q, _) => OtherPubs(s, p, q, Waiting("", []));
    case _ =>
  }

  /** Main result: a publisher that does not get past the window check leaves no trace, whatever
      the others do meanwhile: apart from its own place, and so wholly once it has been given up,
      the state is that of the run without it. */
  lemma {:induction false} WaitingLeavesNoTrace(c: Config, steps: seq<Step>, p: PubId)
    requires OnlyWaits(c, steps, p)
    ensures After(c, Without(steps, p)) == Erase(After(c, steps), p)
    ensures p !in After(c, steps).pubs ==> After(c, Without(steps, p)) == After(c, steps)
  {
    hide Do, InFront;
    if steps == [] {
      assert Start(c).pubs - {p} == Start(c).pubs;
    } else {
      var init, step := steps[..|steps| - 1], steps[|steps| - 1];
      WaitingLeavesNoTrace(c, init, p);
      if StepOf(step, p) {
        OwnStepErased(c, After(c, init), step, p);
      } else {
        OtherStepErased(c, After(c, init), step, p);
        AfterAppend(c, Without(init, p), step);
      }
      assert p !in After(c, steps).pubs ==> After(c, steps).pubs - {p} == After(c, steps).pubs;
    }
  }

  /** Giving it up from there undoes all of it. */
  lemma CancelLeavesNoTrace(c: Config, steps: seq<Step>, p: PubId)
    requires OnlyWaits(c, steps, p) && Enabled(c, After(c, steps), Cancel(p))
    ensures After(c, steps + [Cancel(p)]) == After(c, Without(steps, p))
  {
    WaitingLeavesNoTrace(c, steps, p);
    AfterAppend(c, steps, Cancel(p));
  }
}
