/** The connection cache under arbitrary interleavings of `Get`, release, janitor and `Close`. */
module ConnProof {
  import opened ConnCache

  type GetId = nat

  /** A connection for a target: handed out, or dialled and not yet installed. */
  datatype Held = Held(target: Target, cc: Conn)

  /** `dialing` are calls of `Get` that missed and dial outside the lock; `gap` those that have
      dialled and not yet taken the lock again; `handles` those that returned and whose release
      has not been called. `dialled` are all connections ever dialled. */
  datatype State = State(
    cache: Cache,
    dialing: map<GetId, Target>,
    gap: map<GetId, Held>,
    handles: map<GetId, Held>,
    dialled: set<Conn>,
    used: set<GetId>)

  const INIT := State(EMPTY_CACHE, map[], map[], map[], {}, {})

  datatype Step =
    | Lookup(g: GetId, target: Target, now: int)
    | Dial(g: GetId, cc: Conn)
    | DialFails(g: GetId)
    | InstallDialled(g: GetId, now: int)
    | ReleaseHandle(g: GetId, now: int)
    | Janitor(cutoff: int)

  predicate Enabled(s: State, step: Step) {
    match step
    case Lookup(g, _, _) => g !in s.used
    case Dial(g, cc) => g in s.dialing && cc !in s.dialled
    case DialFails(g) => g in s.dialing
    case InstallDialled(g, _) => g in s.gap
    case ReleaseHandle(g, _) => g in s.handles
    case Janitor(_) => true
  }

  function DoLookup(s: State, g: GetId, target: Target, now: int): State {
    if target in s.cache.conns then
      s.(cache := Hit(s.cache, target, now),
         handles := s.handles[g := Held(target, s.cache.conns[target].cc)], used := s.used + {g})
    else s.(dialing := s.dialing[g := target], used := s.used + {g})
  }

  function DoInstall(s: State, g: GetId, now: int): State
    requires g in s.gap
  {
    var Held(target, cc) := s.gap[g];
    var m := Install(s.cache, target, cc, now);
    s.(cache := m, gap := s.gap - {g}, handles := s.handles[g := Held(target, m.conns[target].cc)])
  }

  /** A disabled step changes nothing, so that every sequence of steps is a schedule. */
  function Do(s: State, step: Step): State {
    if !Enabled(s, step) then s
    else
      match step
      case Lookup(g, target, now) => DoLookup(s, g, target, now)
      case Dial(g, cc) => s.(dialing := s.dialing - {g},
                             gap := s.gap[g := Held(s.dialing[g], cc)], dialled := s.dialled + {cc})
      case DialFails(g) => s.(dialing := s.dialing - {g})
      case InstallDialled(g, now) => DoInstall(s, g, now)
      case ReleaseHandle(g, now) => s.(cache := Release(s.cache, s.handles[g].target, now), handles := s.handles - {g})
      case Janitor(cutoff) => s.(cache := Evict(s.cache, cutoff))
  }

  function After(steps: seq<Step>): State {
    if steps == [] then INIT else Do(After(steps[..|steps| - 1]), steps[|steps| - 1])
  }

  // ----- reference counts -----

  function HandlesOn(s: State, t: Target): set<GetId> {
    set g | g in s.handles && s.handles[g].target == t
  }

  ghost predicate CountedAt(s: State, t: Target) {
    RefOf(s.cache, t) == |HandlesOn(s, t)|
  }

  /** Every cached entry counts its unreleased handles, and they all hold its connection. */
  ghost predicate Counted(s: State) {
    && (forall t :: CountedAt(s, t))
    && (forall g :: g in s.handles ==>
          s.handles[g].target in s.cache.conns && s.handles[g].cc == s.cache.conns[s.handles[g].target].cc)
    && (forall g :: g in s.handles || g in s.gap || g in s.dialing ==> g in s.used)
    && (forall g :: g in s.handles ==> g !in s.gap && g !in s.dialing)
    && (forall g :: g in s.gap ==> g !in s.dialing)
  }

  /** What a step does to the handles of a target. */
  lemma HandlesStep(s: State, step: Step, t: Target)
    requires Counted(s)
    ensures var s' := Do(s, step);
            if Enabled(s, step) && step.Lookup? && step.target == t && t in s.cache.conns
            then step.g !in HandlesOn(s, t) && HandlesOn(s', t) == HandlesOn(s, t) + {step.g}
            else if Enabled(s, step) && step.InstallDialled? && s.gap[step.g].target == t
            then step.g !in HandlesOn(s, t) && HandlesOn(s', t) == HandlesOn(s, t) + {step.g}
            else if Enabled(s, step) && step.ReleaseHandle? && s.handles[step.g].target == t
            then step.g in HandlesOn(s, t) && HandlesOn(s', t) == HandlesOn(s, t) - {step.g}
            else HandlesOn(s', t) == HandlesOn(s, t)
  {
  }

  /** How many handles the entry of a target counts, 0 when there is no entry. */
  function RefOf(m: Cache, t: Target): nat {
    if t in m.conns then m.conns[t].ref else 0
  }

  /** What a step does to the count of a target's entry. */
  lemma RefStep(s: State, step: Step, t: Target)
    ensures var m, m' := s.cache, Do(s, step).cache;
            if Enabled(s, step) && step.Lookup? && step.target == t && t in m.conns
            then t in m'.conns && RefOf(m', t) == RefOf(m, t) + 1
            else if Enabled(s, step) && step.InstallDialled? && s.gap[step.g].target == t
            then t in m'.conns && RefOf(m', t) == RefOf(m, t) + 1
            else if Enabled(s, step) && step.ReleaseHandle? && s.handles[step.g].target == t
            then RefOf(m', t) == (if RefOf(m, t) > 0 then RefOf(m, t) - 1 else 0) && (t in m'.conns <==> t in m.conns)
            else RefOf(m', t) == RefOf(m, t) && (RefOf(m, t) > 0 ==> t in m'.conns)
  {
  }

  lemma CountedAtStep(s: State, step: Step, t: Target)
    requires Counted(s)
    ensures CountedAt(Do(s, step), t)
  {
    HandlesStep(s, step, t);
    RefStep(s, step, t);
    assert CountedAt(s, t);
    hide HandlesOn, Do, Counted;
  }

  /** The janitor spares every entry in use. */
  lemma EvictSpares(m: Cache, cutoff: int, t: Target)
    ensures t in m.conns && m.conns[t].ref > 0 ==> t in Evict(m, cutoff).conns
    ensures t in Evict(m, cutoff).conns ==> t in m.conns && Evict(m, cutoff).conns[t] == m.conns[t]
  {
  }

  lemma HeldHasRef(s: State, g: GetId)
    requires Counted(s) && g in s.handles
    ensures s.cache.conns[s.handles[g].target].ref > 0
  {
    var t := s.handles[g].target;
    assert CountedAt(s, t);
    assert g in HandlesOn(s, t);
  }

  lemma CountedStep(s: State, step: Step)
    requires Counted(s)
    ensures Counted(Do(s, step))
  {
    var s' := Do(s, step);
    forall t ensures CountedAt(s', t) {
      CountedAtStep(s, step, t);
    }
    forall g | g in s'.handles
      ensures s'.handles[g].target in s'.cache.conns && s'.handles[g].cc == s'.cache.conns[s'.handles[g].target].cc
    {
      if g in s.handles {
        HeldHasRef(s, g);
      }
      if step.Janitor? {
        EvictSpares(s.cache, step.cutoff, s'.handles[g].target);
        hide Evict;
      }
    }
    hide Evict, CountedAt;
  }

  // ----- conservation -----

  ghost predicate Cached(s: State, cc: Conn) {
    exists t :: t in s.cache.conns && s.cache.conns[t].cc == cc
  }

  ghost predicate InGap(s: State, cc: Conn) {
    exists g :: g in s.gap && s.gap[g].cc == cc
  }

  /** Exactly one of: cached, held by a `Get` between dial and install, closed. */
  ghost predicate OneHome(s: State, cc: Conn) {
    if cc in s.cache.closed then !Cached(s, cc) && !InGap(s, cc)
    else Cached(s, cc) != InGap(s, cc)
  }

  ghost predicate DistinctConns(conns: map<Target, Entry>) {
    forall t, u :: t in conns && u in conns && t != u ==> conns[t].cc != conns[u].cc
  }

  ghost predicate DistinctGap(gap: map<GetId, Held>) {
    forall g, h :: g in gap && h in gap && g != h ==> gap[g].cc != gap[h].cc
  }

  ghost predicate Distinct(s: State) {
    DistinctConns(s.cache.conns) && DistinctGap(s.gap)
  }

  ghost predicate Known(s: State) {
    && (forall t :: t in s.cache.conns ==> s.cache.conns[t].cc in s.dialled)
    && (forall g :: g in s.gap ==> s.gap[g].cc in s.dialled)
    && s.cache.closed <= s.dialled
  }

  ghost predicate Counters(m: Cache) {
    && m.closes == |m.closed|
    && m.active == |m.conns| == m.dials - m.evictions
  }

  ghost predicate Conserved(s: State) {
    && Distinct(s) && Known(s) && Counters(s.cache)
    && forall cc :: cc in s.dialled ==> OneHome(s, cc)
  }

  lemma {:induction false} ConnsOfSize(conns: map<Target, Entry>, ts: set<Target>)
    requires ts <= conns.Keys
    requires DistinctConns(conns)
    ensures |ConnsOf(conns, ts)| == |ts|
  {
    if ts != {} {
      var t :| t in ts;
      ConnsOfSize(conns, ts - {t});
      assert ConnsOf(conns, ts) == ConnsOf(conns, ts - {t}) + {conns[t].cc};
    }
  }

  /** Dropping entries closes each of their connections for the first and only time. */
  lemma DropConserves(s: State, ts: set<Target>, s': State)
    requires Conserved(s) && ts <= s.cache.conns.Keys
    requires s'.cache.conns == s.cache.conns - ts && s'.cache.closed == s.cache.closed + ConnsOf(s.cache.conns, ts)
    requires s'.gap == s.gap && s'.dialled == s.dialled
    ensures Distinct(s') && Known(s') && |s'.cache.closed| == |s.cache.closed| + |ts|
    ensures |s'.cache.conns| == |s.cache.conns| - |ts|
    ensures forall cc :: cc in s'.dialled ==> OneHome(s', cc)
  {
    var conns := s.cache.conns;
    var dropped := ConnsOf(conns, ts);
    ConnsOfSize(conns, ts);
    forall cc | cc in dropped ensures cc !in s.cache.closed {
      assert Cached(s, cc);
      assert OneHome(s, cc);
    }
    assert s.cache.closed !! dropped;
    assert s'.cache.conns.Keys == conns.Keys - ts;
    assert |conns.Keys - ts| == |conns.Keys| - |ts|;
    forall cc | cc in s'.dialled ensures OneHome(s', cc) {
      DroppedHome(s, ts, s', cc);
    }
  }

  lemma DroppedHome(s: State, ts: set<Target>, s': State, cc: Conn)
    requires Distinct(s) && OneHome(s, cc) && ts <= s.cache.conns.Keys
    requires s'.cache.conns == s.cache.conns - ts && s'.cache.closed == s.cache.closed + ConnsOf(s.cache.conns, ts)
    requires s'.gap == s.gap
    ensures OneHome(s', cc)
  {
    var conns := s.cache.conns;
    assert InGap(s', cc) == InGap(s, cc);
    if cc in ConnsOf(conns, ts) {
      var t :| t in ts && conns[t].cc == cc;
      assert Cached(s, cc);
      assert !Cached(s', cc);
    } else if Cached(s, cc) {
      var t :| t in conns && conns[t].cc == cc;
      assert t in s'.cache.conns;
      assert Cached(s', cc);
    }
  }

  /** Steps that leave every connection where it is. */
  lemma SameHomes(s: State, s': State)
    requires Conserved(s) && s'.gap == s.gap && s'.dialled == s.dialled && s'.cache.closed == s.cache.closed
    requires s'.cache.conns.Keys == s.cache.conns.Keys
    requires forall t :: t in s.cache.conns ==> s'.cache.conns[t].cc == s.cache.conns[t].cc
    requires Counters(s'.cache)
    ensures Conserved(s')
  {
  }

  /** A dialled connection starts in the gap. */
  lemma DialConserves(s: State, g: GetId, cc: Conn)
    requires Conserved(s) && Counted(s) && Enabled(s, Dial(g, cc))
    ensures Conserved(Do(s, Dial(g, cc)))
  {
    var s' := Do(s, Dial(g, cc));
    assert g !in s.gap;
    forall x | x in s'.dialled ensures OneHome(s', x) {
      assert Cached(s', x) == Cached(s, x);
      if x == cc {
        assert s'.gap[g].cc == cc;
        assert InGap(s', cc) && !Cached(s, cc);
      } else {
        assert OneHome(s, x);
        assert InGap(s', x) == InGap(s, x) by {
          if InGap(s, x) {
            var h :| h in s.gap && s.gap[h].cc == x;
            assert h in s'.gap && s'.gap[h].cc == x;
          }
        }
      }
    }
  }

  /** It leaves the gap by being cached, or closed when the race is lost. */
  lemma InstallConserves(s: State, g: GetId, now: int)
    requires Conserved(s) && Enabled(s, InstallDialled(g, now))
    ensures Conserved(Do(s, InstallDialled(g, now)))
  {
    var s' := Do(s, InstallDialled(g, now));
    InstallEffect(s, g, now);
    InstallCounters(s, g, now);
    InstallDistinct(s, g, now);
    InstallKnown(s, g, now);
    hide Do, Distinct, Known, OneHome, Counters;
    forall x | x in s'.dialled ensures OneHome(s', x) {
      InstallHome(s, g, now, x);
    }
  }

  lemma InstallEffect(s: State, g: GetId, now: int)
    requires Enabled(s, InstallDialled(g, now))
    ensures var s' := Do(s, InstallDialled(g, now));
            var Held(target, cc) := s.gap[g];
            && s'.gap == s.gap - {g} && s'.dialled == s.dialled
            && s'.cache.conns.Keys == s.cache.conns.Keys + {target}
            && (forall t :: t in s.cache.conns ==> s'.cache.conns[t].cc == s.cache.conns[t].cc)
            && if target in s.cache.conns
               then s'.cache == s.cache.(conns := s'.cache.conns,
                                               closed := s.cache.closed + {cc}, closes := s.cache.closes + 1)
               else s'.cache.conns[target].cc == cc
                    && s'.cache == s.cache.(conns := s'.cache.conns,
                                                    dials := s.cache.dials + 1, active := s.cache.active + 1)
  {
  }

  lemma InstallCached(s: State, g: GetId, now: int, x: Conn)
    requires Enabled(s, InstallDialled(g, now))
    ensures Cached(Do(s, InstallDialled(g, now)), x) ==
            (Cached(s, x) || (x == s.gap[g].cc && s.gap[g].target !in s.cache.conns))
  {
    var s' := Do(s, InstallDialled(g, now));
    InstallEffect(s, g, now);
    hide Do;
    var Held(target, cc) := s.gap[g];
    if Cached(s, x) {
      var t :| t in s.cache.conns && s.cache.conns[t].cc == x;
      assert t in s'.cache.conns && s'.cache.conns[t].cc == x;
    }
    if target !in s.cache.conns {
      assert target in s'.cache.conns && s'.cache.conns[target].cc == cc;
    }
    if Cached(s', x) {
      var t :| t in s'.cache.conns && s'.cache.conns[t].cc == x;
      assert t in s.cache.conns ==> s.cache.conns[t].cc == x;
    }
  }

  /** A connection in the gap is neither cached nor closed. */
  lemma GapHome(s: State, g: GetId)
    requires Conserved(s) && g in s.gap
    ensures s.gap[g].cc in s.dialled && s.gap[g].cc !in s.cache.closed && !Cached(s, s.gap[g].cc)
  {
  }

  lemma InstallHome(s: State, g: GetId, now: int, x: Conn)
    requires Conserved(s) && Enabled(s, InstallDialled(g, now)) && x in s.dialled
    ensures OneHome(Do(s, InstallDialled(g, now)), x)
  {
    var s' := Do(s, InstallDialled(g, now));
    assert InGap(s, s.gap[g].cc);
    assert OneHome(s, x);
    GapHome(s, g);
    InstallEffect(s, g, now);
    InstallCached(s, g, now, x);
    GapShrinks(s, s', g, x);
    hide Cached, InGap, Do;
  }

  lemma InstallDistinct(s: State, g: GetId, now: int)
    requires Conserved(s) && Enabled(s, InstallDialled(g, now))
    ensures Distinct(Do(s, InstallDialled(g, now)))
  {
  }

  lemma InstallKnown(s: State, g: GetId, now: int)
    requires Known(s) && Enabled(s, InstallDialled(g, now))
    ensures Known(Do(s, InstallDialled(g, now)))
  {
  }

  lemma InstallCounters(s: State, g: GetId, now: int)
    requires Conserved(s) && Enabled(s, InstallDialled(g, now))
    ensures Counters(Do(s, InstallDialled(g, now)).cache)
  {
  }

  lemma GapShrinks(s: State, s': State, g: GetId, x: Conn)
    requires Distinct(s) && g in s.gap && s'.gap == s.gap - {g}
    ensures InGap(s', x) == (InGap(s, x) && x != s.gap[g].cc)
  {
    if InGap(s, x) && x != s.gap[g].cc {
      var h :| h in s.gap && s.gap[h].cc == x;
      assert h in s'.gap;
    }
  }

  lemma QuietStep(s: State, step: Step)
    requires step.Lookup? || step.DialFails? || step.ReleaseHandle?
    ensures var s' := Do(s, step);
            && s'.gap == s.gap && s'.dialled == s.dialled
            && s'.cache.conns.Keys == s.cache.conns.Keys
            && (forall t :: t in s.cache.conns ==> s'.cache.conns[t].cc == s.cache.conns[t].cc)
            && s'.cache == s.cache.(conns := s'.cache.conns)
  {
  }

  lemma ConservedStep(s: State, step: Step)
    requires Conserved(s) && Counted(s)
    ensures Conserved(Do(s, step))
  {
    hide Distinct, OneHome, Counted, Known;
    if Enabled(s, step) {
      match step {
        case Dial(g, cc) => DialConserves(s, g, cc);
        case InstallDialled(g, now) => InstallConserves(s, g, now);
        case Janitor(cutoff) => DropConserves(s, IdleTargets(s.cache, cutoff), Do(s, step));
        case _ =>
          QuietStep(s, step);
          hide Do;
          SameHomes(s, Do(s, step));
      }
    }
  }

  lemma {:induction false} RunsConserve(steps: seq<Step>)
    ensures Counted(After(steps)) && Conserved(After(steps))
  {
    hide Do, Counted, Conserved;
    if steps == [] {
      InitGood();
    } else {
      var init := steps[..|steps| - 1];
      RunsConserve(init);
      CountedStep(After(init), steps[|steps| - 1]);
      ConservedStep(After(init), steps[|steps| - 1]);
    }
  }

  lemma InitGood()
    ensures Counted(INIT) && Conserved(INIT)
  {
  }

  /** Main result: in every reachable state before `Close`, every entry's count is its number of
      unreleased handles, all handles of a target share the cached connection, and no
      connection in use has been closed. */
  lemma HandlesStayOpen(steps: seq<Step>)
    ensures var s := After(steps);
            && (forall t :: t in s.cache.conns ==> s.cache.conns[t].ref == |HandlesOn(s, t)|)
            && (forall g, h :: g in s.handles && h in s.handles && s.handles[g].target == s.handles[h].target ==>
                  s.handles[g].cc == s.handles[h].cc)
            && (forall g :: g in s.handles ==> s.handles[g].cc in s.dialled && s.handles[g].cc !in s.cache.closed)
  {
    RunsConserve(steps);
    var s := After(steps);
    forall t | t in s.cache.conns ensures s.cache.conns[t].ref == |HandlesOn(s, t)| {
      assert CountedAt(s, t);
    }
    forall g | g in s.handles ensures s.handles[g].cc in s.dialled && s.handles[g].cc !in s.cache.closed {
      assert Cached(s, s.handles[g].cc);
      assert OneHome(s, s.handles[g].cc);
    }
  }

  /** Main result: every connection ever dialled is in exactly one place, none is closed twice,
      and installs minus evictions is the active gauge is the cache size. */
  lemma ConnectionsConserved(steps: seq<Step>)
    ensures var s := After(steps);
            && (forall cc :: cc in s.dialled ==> OneHome(s, cc))
            && s.cache.closes == |s.cache.closed|
            && s.cache.active == |s.cache.conns| == s.cache.dials - s.cache.evictions
  {
    RunsConserve(steps);
  }

  /** After `Close`, every dialled connection is closed exactly when no `Get` was between dial
      and install. */
  lemma CloseClosesAllIff(steps: seq<Step>)
    ensures var s := After(steps);
            var m := CloseAll(s.cache);
            && m.conns == map[] && m.closes == |m.closed|
            && (s.dialled <= m.closed <==> s.gap == map[])
  {
    RunsConserve(steps);
    var s := After(steps);
    var m := CloseAll(s.cache);
    var s' := s.(cache := m);
    DropConserves(s, s.cache.conns.Keys, s');
    assert m.conns.Keys == {};
    if s.gap == map[] {
      forall cc | cc in s.dialled ensures cc in m.closed {
        assert OneHome(s', cc);
      }
    } else {
      var g :| g in s.gap;
      assert InGap(s', s.gap[g].cc);
      assert OneHome(s', s.gap[g].cc);
    }
  }
}
