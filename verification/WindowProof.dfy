/** Backpressure: how far the window lets a topic run ahead of its acknowledgements. */
module WindowProof {
  import opened Base
  import opened ReplBuffer
  import opened ReplServer
  import opened Protocol
  import opened BufferProof

  /** The source's wrapping test agrees with the signed difference exactly on differences that
      fit in an `int`; in any case it is congruent to it modulo 2^64 and fits itself. */
  lemma IntDiffExactIff(a: uint64, b: uint64)
    ensures IntDiff(a, b) == a - b <==> -I64 <= a - b < I64
    ensures -I64 <= IntDiff(a, b) < I64 && (IntDiff(a, b) - (a - b)) % U64 == 0
  {
  }

  /** Publishers of a topic that are past the window check and not yet numbered. */
  ghost function AdmittedOn(s: State, t: Topic): set<PubId> {
    set p | p in s.pubs && s.pubs[p].Admitted? && s.pubs[p].topic == t
  }

  /** Every minimum that a publisher of the topic works with is at most `m`. */
  ghost predicate MinsAtMost(s: State, t: Topic, m: int) {
    forall p :: p in s.pubs && s.pubs[p].HasMin? && s.pubs[p].topic == t ==> s.pubs[p].min <= m
  }

  /** At no point of the run are more than `k` publishers of `t` between the window check and
      the numbering, and no publisher of `t` ever reads a minimum above `m`. */
  ghost predicate Limits(c: Config, steps: seq<Step>, t: Topic, k: nat, m: nat) {
    && |AdmittedOn(After(c, steps), t)| <= k && MinsAtMost(After(c, steps), t, m)
    && (steps != [] ==> Limits(c, steps[..|steps| - 1], t, k, m))
  }

  ghost predicate WithinWindow(c: Config, s: State, t: Topic, k: nat, m: nat) {
    |Given(s, t)| + |AdmittedOn(s, t)| <= Max(SeqOf(c.boot, t), m + Window(c) + k - 1)
  }

  /** Only passing the check enters the set, and only numbering leaves it. */
  lemma AdmittedStep(c: Config, s: State, step: Step, t: Topic)
    ensures var s' := Do(c, s, step);
            if step.CheckWindow? && Enabled(c, s, step) && s'.pubs[step.p].Admitted? && s.pubs[step.p].topic == t
            then AdmittedOn(s', t) == AdmittedOn(s, t) + {step.p}
            else if step.Number? && Enabled(c, s, step) && s.pubs[step.p].topic == t
            then step.p in AdmittedOn(s, t) && AdmittedOn(s', t) == AdmittedOn(s, t) - {step.p}
            else AdmittedOn(s', t) == AdmittedOn(s, t)
  {
  }

  /** Passing the check means being within the window of the minimum that was read. */
  lemma PassedCheck(c: Config, s: State, p: PubId, t: Topic)
    requires Enabled(c, s, CheckWindow(p)) && s.pubs[p].topic == t && Counted(s, t)
    requires |Given(s, t)| < I64 && s.pubs[p].min < I64
    ensures Do(c, s, CheckWindow(p)).pubs[p].Admitted? ==> |Given(s, t)| < s.pubs[p].min + Window(c)
  {
  }

  lemma WithinWindowStep(c: Config, s: State, step: Step, t: Topic, k: nat, m: nat)
    requires Counted(s, t) && WithinWindow(c, s, t, k, m) && m + Window(c) + k < I64 && SeqOf(c.boot, t) < I64
    requires MinsAtMost(s, t, m) && |AdmittedOn(Do(c, s, step), t)| <= k
    ensures WithinWindow(c, Do(c, s, step), t, k, m)
  {
    GivenStep(c, s, step, t);
    AdmittedStep(c, s, step, t);
    if Enabled(c, s, step) && step.CheckWindow? && s.pubs[step.p].topic == t {
      PassedCheck(c, s, step.p, t);
    }
    hide Do, AdmittedOn, Given, Window, Counted;
  }

  lemma CountedValue(s: State, t: Topic)
    requires Counted(s, t) && |Given(s, t)| < U64
    ensures SeqOf(s.rep, t) == |Given(s, t)|
  {
  }

  /** Main result: with at most `k` publishers past the check at once, and `m` the largest minimum
      any publisher reads, no number above m + window + k - 1 is ever given out; a process that
      starts above that gives out none. */
  lemma {:induction false} WindowBound(c: Config, steps: seq<Step>, t: Topic, k: nat, m: nat)
    requires Limits(c, steps, t, k, m) && m + Window(c) + k < I64 && SeqOf(c.boot, t) < I64
    ensures WithinWindow(c, After(c, steps), t, k, m)
    ensures SeqOf(After(c, steps).rep, t) == |Given(After(c, steps), t)|
    ensures SeqOf(After(c, steps).rep, t) <= Max(SeqOf(c.boot, t), m + Window(c) + k - 1)
  {
    NumbersAreConsecutive(c, steps, t);
    if steps == [] {
      PastCounted(c, t);
      assert AdmittedOn(Start(c), t) == {};
    } else {
      hide Do, AdmittedOn, Given, Window, Counted;
      var init, step := steps[..|steps| - 1], steps[|steps| - 1];
      WindowBound(c, init, t, k, m);
      NumbersAreConsecutive(c, init, t);
      WithinWindowStep(c, After(c, init), step, t, k, m);
    }
    CountedValue(After(c, steps), t);
  }

  /** At most `k` publishers past the check, with nothing asked of what they read. */
  ghost predicate AtMost(c: Config, steps: seq<Step>, t: Topic, k: nat) {
    |AdmittedOn(After(c, steps), t)| <= k && (steps != [] ==> AtMost(c, steps[..|steps| - 1], t, k))
  }

  /** Without the gRPC server nothing is ever acknowledged. */
  lemma {:induction false} HttpNeverAcks(c: Config, steps: seq<Step>)
    requires !c.grpc
    ensures After(c, steps).ack == map[]
  {
    if steps != [] {
      HttpNeverAcks(c, steps[..|steps| - 1]);
      hide Assign, Clean, Broadcast, Cutoff;
    }
  }

  lemma ZeroMinsStep(c: Config, s: State, step: Step, t: Topic)
    requires !c.grpc && MinsAtMost(s, t, 0)
    ensures MinsAtMost(Do(c, s, step), t, 0)
  {
  }

  lemma {:induction false} ZeroMins(c: Config, steps: seq<Step>, t: Topic, k: nat)
    requires !c.grpc && AtMost(c, steps, t, k)
    ensures Limits(c, steps, t, k, 0)
  {
    if steps != [] {
      hide Do, AdmittedOn, MinsAtMost;
      ZeroMins(c, steps[..|steps| - 1], t, k);
      ZeroMinsStep(c, After(c, steps[..|steps| - 1]), steps[|steps| - 1], t);
    }
  }

  /** Without acknowledgements (the HTTP server) a topic stops for good after window + k - 1
      messages. */
  lemma HttpTopicStops(c: Config, steps: seq<Step>, t: Topic, k: nat)
    requires !c.grpc && AtMost(c, steps, t, k) && Window(c) + k < I64 && SeqOf(c.boot, t) < I64
    ensures |Given(After(c, steps), t)| <= Max(SeqOf(c.boot, t), (if c.window > 0 then c.window else 1024) + k - 1)
  {
    ZeroMins(c, steps, t, k);
    WindowBound(c, steps, t, k, 0);
  }

  /** The guard of the wait loop, for a publisher that reads and checks without interference. */
  ghost predicate WindowOpen(c: Config, s: State, t: Topic) {
    IntDiff(SeqOf(s.rep, t), Cutoff(Readable(c, s), t)) < Window(c)
  }

  lemma Admission(c: Config, s: State, p: PubId, t: Topic, data: Bytes)
    requires p !in s.pubs && !s.tick.Sweeping? && WindowOpen(c, s, t)
    ensures var s1 := Do(c, s, Begin(p, t, data));
            var s2 := Do(c, s1, ReadAcks(p));
            && s1 == s.(pubs := s.pubs[p := Waiting(t, data)])
            && s2 == s.(pubs := s.pubs[p := HasMin(t, data, Cutoff(Readable(c, s), t))])
            && Do(c, s2, CheckWindow(p)) == s.(pubs := s.pubs[p := Admitted(t, data)])
  {
    hide Cutoff, Window;
    var min := Cutoff(Readable(c, s), t);
    var s1 := s.(pubs := s.pubs[p := Waiting(t, data)]);
    var s2 := s.(pubs := s.pubs[p := HasMin(t, data, min)]);
    assert s1.pubs[p := HasMin(t, data, min)] == s2.pubs;
    assert s2.pubs[p := Admitted(t, data)] == s.pubs[p := Admitted(t, data)];
  }

  /** A publisher in front of an open window passes, whatever minimum it had read before: a failed
      check makes it read again. */
  lemma WaitersPass(c: Config, s: State, p: PubId)
    requires p in s.pubs && (s.pubs[p].Waiting? || s.pubs[p].HasMin?) && !s.tick.Sweeping?
    requires WindowOpen(c, s, s.pubs[p].topic)
    ensures var s' := Do(c, Do(c, Do(c, s, CheckWindow(p)), ReadAcks(p)), CheckWindow(p));
            s' == s.(pubs := s.pubs[p := Admitted(s.pubs[p].topic, s.pubs[p].data)])
  {
    hide Cutoff, Window;
    var t, data := s.pubs[p].topic, s.pubs[p].data;
    var s1 := Do(c, s, CheckWindow(p));
    var min := Cutoff(Readable(c, s), t);
    if s1.pubs[p].Waiting? {
      assert s1.pubs == s.pubs[p := Waiting(t, data)];
      assert s1.pubs[p := HasMin(t, data, min)] == s.pubs[p := HasMin(t, data, min)];
      var s2 := Do(c, s1, ReadAcks(p));
      assert s2 == s.(pubs := s.pubs[p := HasMin(t, data, min)]);
      assert s2.pubs[p := Admitted(t, data)] == s.pubs[p := Admitted(t, data)];
    }
  }
}
