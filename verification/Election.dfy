/** The leader-change goroutine and the election watcher, which share two flags and publish on
    the same bus. */
module Election {
  import opened EventBus

  /** Each goroutine is between its publish and its flag update, or not: the leader goroutine
      publishes first and then resets the flags, the watcher sets its flag first and then
      publishes. */
  datatype Watch = Watch(hadLeader: bool, inProgress: bool, leaderMidway: bool, watcherMidway: bool, log: seq<Event>)

  const START := Watch(false, false, false, false, [])

  datatype Step =
    | LeaderPublish(leader: string)
    | LeaderFlags
    | WatchTick(leaderKnown: bool)
    | WatchPublish
    | Other(ev: Event)

  predicate Enabled(s: Watch, step: Step) {
    match step
    case LeaderPublish(_) => !s.leaderMidway
    case LeaderFlags => s.leaderMidway
    case WatchTick(_) => !s.watcherMidway
    case WatchPublish => s.watcherMidway
    case Other(ev) => !ev.LeaderChanged? && !ev.ElectionStart?
  }

  function Do(s: Watch, step: Step): Watch {
    if !Enabled(s, step) then s
    else
      match step
      case LeaderPublish(l) => s.(leaderMidway := true, log := s.log + [LeaderChanged(l)])
      case LeaderFlags => s.(leaderMidway := false, inProgress := false, hadLeader := true)
      case WatchTick(ok) =>
        if s.hadLeader && !ok && !s.inProgress then s.(inProgress := true, watcherMidway := true) else s
      case WatchPublish => s.(watcherMidway := false, log := s.log + [ElectionStart])
      case Other(ev) => s.(log := s.log + [ev])
  }

  function After(steps: seq<Step>): Watch {
    if steps == [] then START else Do(After(steps[..|steps| - 1]), steps[|steps| - 1])
  }

  function Starts(log: seq<Event>): nat {
    if log == [] then 0 else Starts(log[..|log| - 1]) + if log[|log| - 1].ElectionStart? then 1 else 0
  }

  function Changes(log: seq<Event>): nat {
    if log == [] then 0 else Changes(log[..|log| - 1]) + if log[|log| - 1].LeaderChanged? then 1 else 0
  }

  lemma CountAppend(log: seq<Event>, ev: Event)
    ensures Starts(log + [ev]) == Starts(log) + if ev.ElectionStart? then 1 else 0
    ensures Changes(log + [ev]) == Changes(log) + if ev.LeaderChanged? then 1 else 0
  {
  }

  function Bit(b: bool): nat {
    if b then 1 else 0
  }

  /** Elections announced or about to be, plus the one the flags would still allow, are covered
      by leader changes whose flag update is done. */
  ghost predicate Covered(s: Watch) {
    Starts(s.log) + Bit(s.watcherMidway) + Bit(s.hadLeader && !s.inProgress) <= Changes(s.log) - Bit(s.leaderMidway)
  }

  lemma CoveredStep(s: Watch, step: Step)
    requires Covered(s)
    ensures Covered(Do(s, step))
  {
  }

  lemma {:induction false} RunsAreCovered(steps: seq<Step>)
    ensures Covered(After(steps))
  {
    if steps != [] {
      RunsAreCovered(steps[..|steps| - 1]);
      CoveredStep(After(steps[..|steps| - 1]), steps[|steps| - 1]);
    }
  }

  /** Main result: in every prefix of the publish order of every run, elections started never
      outnumber leader changes. */
  lemma {:induction false} StartsNeverOutnumberChanges(steps: seq<Step>, i: nat)
    requires i <= |After(steps).log|
    ensures Starts(After(steps).log[..i]) <= Changes(After(steps).log[..i])
  {
    var log := After(steps).log;
    if i == |log| {
      assert log[..i] == log;
      RunsAreCovered(steps);
    } else if steps != [] {
      var init := steps[..|steps| - 1];
      var before := After(init).log;
      assert log == before || (|log| == |before| + 1 && log[..|before|] == before);
      assert i <= |before| && log[..i] == before[..i];
      StartsNeverOutnumberChanges(init, i);
    }
  }

  /** How often the watcher found no leader. */
  function LostTicks(steps: seq<Step>): nat {
    if steps == [] then 0
    else LostTicks(steps[..|steps| - 1]) + if steps[|steps| - 1] == WatchTick(false) then 1 else 0
  }

  /** Every election start goes back to its own observation of a lost leader. */
  lemma {:induction false} StartsNeedLostLeader(steps: seq<Step>)
    ensures Starts(After(steps).log) + Bit(After(steps).watcherMidway) <= LostTicks(steps)
  {
    if steps != [] {
      var init, step := steps[..|steps| - 1], steps[|steps| - 1];
      StartsNeedLostLeader(init);
      match step {
        case LeaderPublish(l) => CountAppend(After(init).log, LeaderChanged(l));
        case WatchPublish => CountAppend(After(init).log, ElectionStart);
        case Other(ev) => CountAppend(After(init).log, ev);
        case _ =>
      }
    }
  }

  /** The events need not alternate: two leader changes can be published before the first of
      two election starts. */
  lemma StartsNeedNotAlternate()
    ensures exists steps :: After(steps).log == [LeaderChanged("a"), LeaderChanged("b"), ElectionStart, ElectionStart]
  {
    var s1 := [LeaderPublish("a")];
    var s2 := s1 + [LeaderFlags];
    var s3 := s2 + [WatchTick(false)];
    var s4 := s3 + [LeaderPublish("b")];
    var s5 := s4 + [LeaderFlags];
    var s6 := s5 + [WatchPublish];
    var s7 := s6 + [WatchTick(false)];
    var s8 := s7 + [WatchPublish];
    Extend([], LeaderPublish("a"));
    Extend(s1, LeaderFlags);
    Extend(s2, WatchTick(false));
    Extend(s3, LeaderPublish("b"));
    Extend(s4, LeaderFlags);
    Extend(s5, WatchPublish);
    Extend(s6, WatchTick(false));
    Extend(s7, WatchPublish);
    assert s1 == [] + [LeaderPublish("a")];
    assert After(s8).log == [LeaderChanged("a"), LeaderChanged("b"), ElectionStart, ElectionStart];
  }

  lemma Extend(steps: seq<Step>, step: Step)
    ensures After(steps + [step]) == Do(After(steps), step)
  {
  }

  // ----- what the flags and counts mean -----

  /** How often the leader goroutine has updated the flags. */
  function Updates(steps: seq<Step>): nat {
    if steps == [] then 0
    else
      var init, step := steps[..|steps| - 1], steps[|steps| - 1];
      Updates(init) + if step.LeaderFlags? && Enabled(After(init), step) then 1 else 0
  }

  /** The watcher found the leader lost, after one had been known, with no election under way. */
  predicate Fires(s: Watch, step: Step) {
    step == WatchTick(false) && Enabled(s, step) && s.hadLeader && !s.inProgress
  }

  function Fired(steps: seq<Step>): nat {
    if steps == [] then 0
    else Fired(steps[..|steps| - 1]) + Bit(Fires(After(steps[..|steps| - 1]), steps[|steps| - 1]))
  }

  /** How often it has done so since the last flag update. */
  function FiredSince(steps: seq<Step>): nat {
    if steps == [] then 0
    else
      var init, step := steps[..|steps| - 1], steps[|steps| - 1];
      if step.LeaderFlags? && Enabled(After(init), step) then 0 else FiredSince(init) + Bit(Fires(After(init), step))
  }

  lemma AccountedStep(s: Watch, step: Step)
    ensures var s', sets := Do(s, step), step.LeaderFlags? && Enabled(s, step);
            && Changes(s'.log) + Bit(s.leaderMidway) == Changes(s.log) + Bit(s'.leaderMidway) + Bit(sets)
            && Starts(s'.log) + Bit(s'.watcherMidway) == Starts(s.log) + Bit(s.watcherMidway) + Bit(Fires(s, step))
            && s'.hadLeader == (sets || s.hadLeader)
            && s'.inProgress == (!sets && (s.inProgress || Fires(s, step)))
            && (s.inProgress ==> !Fires(s, step))
  {
    match step {
      case LeaderPublish(l) => CountAppend(s.log, LeaderChanged(l));
      case WatchPublish => CountAppend(s.log, ElectionStart);
      case Other(ev) => CountAppend(s.log, ev);
      case _ =>
    }
  }

  /** Main result: over every run, each goroutine publishes one event per round. Every leader change
      is followed by its flag update before the next, every election start goes back to one tick that
      found the leader lost, a leader has been known exactly when the flags were updated, and an
      election is under way exactly when such a tick came since the last update. */
  lemma {:induction false} EventsAreAccounted(steps: seq<Step>)
    ensures var s := After(steps);
            && Changes(s.log) == Updates(steps) + Bit(s.leaderMidway)
            && Fired(steps) == Starts(s.log) + Bit(s.watcherMidway)
            && (s.hadLeader <==> Updates(steps) > 0)
            && FiredSince(steps) == Bit(s.inProgress)
  {
    if steps != [] {
      hide Do, Fires, Starts, Changes;
      EventsAreAccounted(steps[..|steps| - 1]);
      AccountedStep(After(steps[..|steps| - 1]), steps[|steps| - 1]);
    } else {
      hide Updates, Fired, FiredSince;
      NothingYet();
    }
  }

  lemma NothingYet()
    ensures Updates([]) == Fired([]) == FiredSince([]) == Starts([]) == Changes([]) == 0
  {
  }
}
