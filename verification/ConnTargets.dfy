/** Every call of `Get` is served with a connection dialled for the target it asked for. */
module ConnTargets {
  import opened Base
  import opened ConnCache
  import opened ConnProof

  /** The target that call `g` of `Get` was made for. */
  function AskedFor(steps: seq<Step>, g: GetId): Option<Target> {
    if steps == [] then None
    else
      var init, step := steps[..|steps| - 1], steps[|steps| - 1];
      if AskedFor(init, g).Some? then AskedFor(init, g)
      else if step.Lookup? && step.g == g then Some(step.target)
      else None
  }

  /** The target of the call that dialled connection `cc`. */
  function DialledFor(steps: seq<Step>, cc: Conn): Option<Target> {
    if steps == [] then None
    else
      var init, step := steps[..|steps| - 1], steps[|steps| - 1];
      if DialledFor(init, cc).Some? then DialledFor(init, cc)
      else if step.Dial? && step.cc == cc && Enabled(After(init), step) then AskedFor(init, step.g)
      else None
  }

  /** The call asked for the target, and the connection was dialled for it. */
  ghost predicate Matches(steps: seq<Step>, g: GetId, h: Held) {
    AskedFor(steps, g) == Some(h.target) && DialledFor(steps, h.cc) == Some(h.target)
  }

  /** Calls are known by their targets, and a call that dials dials for its own. */
  ghost predicate CallsOk(steps: seq<Step>, s: State) {
    && (forall g :: g in s.used <==> AskedFor(steps, g).Some?)
    && (forall g :: g in s.dialing ==> AskedFor(steps, g) == Some(s.dialing[g]))
  }

  ghost predicate DialsOk(steps: seq<Step>, s: State) {
    forall cc :: cc in s.dialled <==> DialledFor(steps, cc).Some?
  }

  /** The connection of a handle, and of a `Get` between dial and install, was dialled for the target
      that this call asked for; a cached entry's connection was dialled for its own target. */
  ghost predicate OnTarget(steps: seq<Step>, s: State) {
    && (forall g :: g in s.gap ==> Matches(steps, g, s.gap[g]))
    && (forall g :: g in s.handles ==> Matches(steps, g, s.handles[g]))
    && (forall t :: t in s.cache.conns ==> DialledFor(steps, s.cache.conns[t].cc) == Some(t))
  }

  /** The connection that a `Get` whose dial has succeeded ends up with. */
  function Served(s: State, h: Held): Conn {
    if h.target in s.cache.conns then s.cache.conns[h.target].cc else h.cc
  }

  /** Where calls, their connections and cached connections come from. */
  lemma TargetStep(s: State, step: Step)
    requires Enabled(s, step)
    ensures var s' := Do(s, step);
            && s'.used == s.used + (if step.Lookup? then {step.g} else {})
            && s'.dialled == s.dialled + (if step.Dial? then {step.cc} else {})
            && (forall g :: g in s'.dialing ==>
                  || (g in s.dialing && s'.dialing[g] == s.dialing[g])
                  || (step.Lookup? && g == step.g && s'.dialing[g] == step.target))
            && (forall g :: g in s'.gap ==>
                  || (g in s.gap && s'.gap[g] == s.gap[g])
                  || (step.Dial? && g == step.g && s'.gap[g] == Held(s.dialing[g], step.cc)))
  {
  }

  lemma ServedStep(s: State, step: Step)
    requires Enabled(s, step)
    ensures var s' := Do(s, step);
            && (forall g :: g in s'.handles ==>
                  || (g in s.handles && s'.handles[g] == s.handles[g])
                  || (step.Lookup? && g == step.g && step.target in s.cache.conns
                      && s'.handles[g] == Held(step.target, s.cache.conns[step.target].cc))
                  || (step.InstallDialled? && g == step.g
                      && s'.handles[g] == Held(s.gap[g].target, Served(s, s.gap[g]))))
            && (forall t :: t in s'.cache.conns ==>
                  || (t in s.cache.conns && s'.cache.conns[t].cc == s.cache.conns[t].cc)
                  || (step.InstallDialled? && t == s.gap[step.g].target && s'.cache.conns[t].cc == s.gap[step.g].cc))
  {
  }

  lemma AskedNext(init: seq<Step>, step: Step, g: GetId)
    ensures AskedFor(init + [step], g) ==
            if AskedFor(init, g).Some? then AskedFor(init, g)
            else if step.Lookup? && step.g == g then Some(step.target) else None
  {
    assert (init + [step])[..|init|] == init;
  }

  lemma DialledNext(init: seq<Step>, step: Step, cc: Conn)
    ensures DialledFor(init + [step], cc) ==
            if DialledFor(init, cc).Some? then DialledFor(init, cc)
            else if step.Dial? && step.cc == cc && Enabled(After(init), step) then AskedFor(init, step.g) else None
  {
    assert (init + [step])[..|init|] == init;
  }

  lemma CallsOkStep(init: seq<Step>, step: Step)
    requires CallsOk(init, After(init))
    ensures CallsOk(init + [step], Do(After(init), step))
  {
    var s := After(init);
    if Enabled(s, step) {
      TargetStep(s, step);
      hide Do;
    }
    forall g ensures g in Do(s, step).used <==> AskedFor(init + [step], g).Some? {
      AskedNext(init, step, g);
    }
    forall g | g in Do(s, step).dialing ensures AskedFor(init + [step], g) == Some(Do(s, step).dialing[g]) {
      AskedNext(init, step, g);
      assert g in s.dialing ==> AskedFor(init, g).Some?;
    }
  }

  lemma DialsOkStep(init: seq<Step>, step: Step)
    requires CallsOk(init, After(init)) && DialsOk(init, After(init))
    ensures DialsOk(init + [step], Do(After(init), step))
  {
    var s := After(init);
    if Enabled(s, step) {
      TargetStep(s, step);
      hide Do;
    }
    forall cc ensures cc in Do(s, step).dialled <==> DialledFor(init + [step], cc).Some? {
      DialledNext(init, step, cc);
    }
  }

  lemma MatchesNext(init: seq<Step>, step: Step, g: GetId, h: Held)
    requires Matches(init, g, h)
    ensures Matches(init + [step], g, h)
  {
    AskedNext(init, step, g);
    DialledNext(init, step, h.cc);
  }

  /** A dial serves the target the call asked for. */
  lemma DialMatches(init: seq<Step>, step: Step)
    requires step.Dial? && Enabled(After(init), step) && CallsOk(init, After(init)) && DialsOk(init, After(init))
    ensures Matches(init + [step], step.g, Held(After(init).dialing[step.g], step.cc))
  {
    AskedNext(init, step, step.g);
    DialledNext(init, step, step.cc);
  }

  /** A hit serves the target the call asks for. */
  lemma HitMatches(init: seq<Step>, step: Step)
    requires step.Lookup? && Enabled(After(init), step) && CallsOk(init, After(init)) && OnTarget(init, After(init))
    requires step.target in After(init).cache.conns
    ensures Matches(init + [step], step.g, Held(step.target, After(init).cache.conns[step.target].cc))
  {
    AskedNext(init, step, step.g);
    DialledNext(init, step, After(init).cache.conns[step.target].cc);
  }

  /** So does the connection a `Get` ends up with, whoever won the race. */
  lemma InstallMatches(init: seq<Step>, step: Step)
    requires step.InstallDialled? && Enabled(After(init), step) && OnTarget(init, After(init))
    ensures var s := After(init);
            Matches(init + [step], step.g, Held(s.gap[step.g].target, Served(s, s.gap[step.g])))
  {
    var s := After(init);
    MatchesNext(init, step, step.g, Held(s.gap[step.g].target, Served(s, s.gap[step.g])));
  }

  lemma HandlesOnTarget(init: seq<Step>, step: Step, g: GetId)
    requires CallsOk(init, After(init)) && OnTarget(init, After(init)) && g in Do(After(init), step).handles
    ensures Matches(init + [step], g, Do(After(init), step).handles[g])
  {
    var s, s' := After(init), Do(After(init), step);
    if Enabled(s, step) {
      ServedStep(s, step);
      hide Do;
    }
    hide Matches, Served;
    if g in s.handles && s'.handles[g] == s.handles[g] {
      MatchesNext(init, step, g, s.handles[g]);
    } else if step.Lookup? {
      HitMatches(init, step);
    } else {
      InstallMatches(init, step);
    }
  }

  lemma OnTargetStep(init: seq<Step>, step: Step)
    requires CallsOk(init, After(init)) && DialsOk(init, After(init)) && OnTarget(init, After(init))
    ensures OnTarget(init + [step], Do(After(init), step))
  {
    var s, s' := After(init), Do(After(init), step);
    if Enabled(s, step) {
      TargetStep(s, step);
      ServedStep(s, step);
    }
    forall g | g in s'.gap ensures Matches(init + [step], g, s'.gap[g]) {
      if g in s.gap && s'.gap[g] == s.gap[g] {
        MatchesNext(init, step, g, s.gap[g]);
      } else {
        DialMatches(init, step);
      }
      hide Do, Matches;
    }
    forall g | g in s'.handles ensures Matches(init + [step], g, s'.handles[g]) {
      HandlesOnTarget(init, step, g);
    }
    forall t | t in s'.cache.conns ensures DialledFor(init + [step], s'.cache.conns[t].cc) == Some(t) {
      DialledNext(init, step, s'.cache.conns[t].cc);
      hide Do;
    }
    hide Do, Matches, DialledFor;
  }

  /** Main result: over every run, the connection of a handle, and of a `Get` between dial and
      install, was dialled by a call for the same target that this call asked for; a cached entry's
      connection was dialled for its own target. */
  lemma {:induction false} GetsServeTheirTarget(steps: seq<Step>)
    ensures CallsOk(steps, After(steps)) && DialsOk(steps, After(steps)) && OnTarget(steps, After(steps))
  {
    if steps != [] {
      var init, step := steps[..|steps| - 1], steps[|steps| - 1];
      hide Do, CallsOk, DialsOk, OnTarget;
      GetsServeTheirTarget(init);
      CallsOkStep(init, step);
      DialsOkStep(init, step);
      OnTargetStep(init, step);
      assert init + [step] == steps;
    }
  }

  // ----- where a call stands -----

  /** The call has failed to dial, or its handle was released. */
  ghost predicate Ended(steps: seq<Step>, g: GetId) {
    steps != [] &&
    var init, step := steps[..|steps| - 1], steps[|steps| - 1];
    || Ended(init, g)
    || ((step == DialFails(g) || (step.ReleaseHandle? && step.g == g)) && Enabled(After(init), step))
  }

  /** Every call made is dialling, between dial and install, holding a handle, or over. */
  ghost predicate OnePlace(s: State, g: GetId, ended: bool) {
    && (g in s.used <==> ended || g in s.dialing || g in s.gap || g in s.handles)
    && (ended ==> g !in s.dialing && g !in s.gap && g !in s.handles)
    && (g in s.dialing ==> g !in s.gap && g !in s.handles)
    && (g in s.gap ==> g !in s.handles)
  }

  lemma OnePlaceStep(s: State, step: Step, g: GetId, ended: bool)
    requires OnePlace(s, g, ended)
    ensures OnePlace(Do(s, step), g,
              ended || ((step == DialFails(g) || (step.ReleaseHandle? && step.g == g)) && Enabled(s, step)))
  {
    hide Evict, Install, Release, Hit;
  }

  /** Over every run a call is in exactly one place, and over exactly when it failed to dial or was
      released. */
  lemma {:induction false} CallsAreAccounted(steps: seq<Step>, g: GetId)
    ensures OnePlace(After(steps), g, Ended(steps, g))
  {
    if steps != [] {
      var init, step := steps[..|steps| - 1], steps[|steps| - 1];
      hide Do, OnePlace;
      CallsAreAccounted(init, g);
      OnePlaceStep(After(init), step, g, Ended(init, g));
    } else {
      assert OnePlace(INIT, g, false);
    }
  }

  /** A `Get` that meets no interference is served: from the cache, or with the connection it dials,
      which is then cached; releasing it leaves the entry with the handles it had. A dial that fails
      leaves everything as it was. */
  lemma GetsComplete(steps: seq<Step>, g: GetId, target: Target, cc: Conn, now: int)
    requires g !in After(steps).used && cc !in After(steps).dialled
    ensures var s := After(steps);
            var s' := Do(Do(Do(s, Lookup(g, target, now)), Dial(g, cc)), InstallDialled(g, now));
            var got := if target in s.cache.conns then s.cache.conns[target].cc else cc;
            var ref := RefOf(s.cache, target);
            && s'.handles == s.handles[g := Held(target, got)] && s'.dialing == s.dialing && s'.gap == s.gap
            && s'.cache.conns == s.cache.conns[target := Entry(got, now, ref + 1)] && s'.cache.closed == s.cache.closed
            && Do(s', ReleaseHandle(g, now)).cache.conns == s.cache.conns[target := Entry(got, now, ref)]
            && Do(s', ReleaseHandle(g, now)).handles == s.handles
            && (target !in s.cache.conns ==>
                  Do(Do(s, Lookup(g, target, now)), DialFails(g)) == s.(used := s.used + {g}))
  {
    RunsConserve(steps);
    var s := After(steps);
    hide Do, After, Counted, Conserved;
    if target in s.cache.conns {
      HitServes(s, g, target, cc, now);
    } else {
      DialServes(s, g, target, cc, now);
    }
  }

  lemma HitServes(s: State, g: GetId, target: Target, cc: Conn, now: int)
    requires Counted(s) && g !in s.used && target in s.cache.conns
    ensures var s' := Do(Do(Do(s, Lookup(g, target, now)), Dial(g, cc)), InstallDialled(g, now));
            var e := s.cache.conns[target];
            && s'.handles == s.handles[g := Held(target, e.cc)] && s'.dialing == s.dialing && s'.gap == s.gap
            && s'.cache.conns == s.cache.conns[target := Entry(e.cc, now, e.ref + 1)]
            && s'.cache.closed == s.cache.closed
            && Do(s', ReleaseHandle(g, now)).cache.conns == s.cache.conns[target := Entry(e.cc, now, e.ref)]
            && Do(s', ReleaseHandle(g, now)).handles == s.handles
  {
    var e := s.cache.conns[target];
    assert s.handles[g := Held(target, e.cc)] - {g} == s.handles;
    hide CountedAt, Evict;
  }

  lemma DialServes(s: State, g: GetId, target: Target, cc: Conn, now: int)
    requires Counted(s) && g !in s.used && cc !in s.dialled && target !in s.cache.conns
    ensures var s' := Do(Do(Do(s, Lookup(g, target, now)), Dial(g, cc)), InstallDialled(g, now));
            && s'.handles == s.handles[g := Held(target, cc)] && s'.dialing == s.dialing && s'.gap == s.gap
            && s'.cache.conns == s.cache.conns[target := Entry(cc, now, 1)] && s'.cache.closed == s.cache.closed
            && Do(s', ReleaseHandle(g, now)).cache.conns == s.cache.conns[target := Entry(cc, now, 0)]
            && Do(s', ReleaseHandle(g, now)).handles == s.handles
            && Do(Do(s, Lookup(g, target, now)), DialFails(g)) == s.(used := s.used + {g})
  {
    var h := Held(target, cc);
    var s1 := s.(dialing := s.dialing[g := target], used := s.used + {g});
    var s2 := s1.(dialing := s.dialing, gap := s.gap[g := h], dialled := s.dialled + {cc});
    var m := Install(s.cache, target, cc, now);
    var s3 := s2.(gap := s.gap, cache := m, handles := s.handles[g := h]);
    assert s.dialing[g := target] - {g} == s.dialing;
    assert s.gap[g := h] - {g} == s.gap;
    assert s.handles[g := h] - {g} == s.handles;
    assert Do(s, Lookup(g, target, now)) == s1;
    assert Do(s1, Dial(g, cc)) == s2;
    assert Do(s2, InstallDialled(g, now)) == s3;
    hide CountedAt, Evict;
  }

  /** Of two calls that miss the same target and both dial, the second to install gets the first
      one's connection, and its own is closed. */
  lemma RaceIsLost(s: State, g: GetId, h: GetId, now: int)
    requires g in s.gap && h in s.gap && g != h && s.gap[g].target == s.gap[h].target
    requires s.gap[g].target !in s.cache.conns
    ensures var s' := Do(Do(s, InstallDialled(g, now)), InstallDialled(h, now));
            && g in s'.handles && h in s'.handles && s'.handles[g] == s'.handles[h] == s.gap[g]
            && s'.cache.closed == s.cache.closed + {s.gap[h].cc}
            && s'.cache.conns == s.cache.conns[s.gap[g].target := Entry(s.gap[g].cc, now, 2)]
  {
  }
}
