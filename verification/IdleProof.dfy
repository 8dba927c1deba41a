/** When an idle connection is evicted. */
module IdleProof {
  import opened Base
  import opened ConnCache
  import opened ConnProof

  /** The janitor's ticks come every ttl / 2 from its start. */
  function TickTime(start: int, ttl: int, i: nat): int {
    if i == 0 then start else TickTime(start, ttl, i - 1) + ttl / 2
  }

  function From(s: State, steps: seq<Step>): State {
    if steps == [] then s else Do(From(s, steps[..|steps| - 1]), steps[|steps| - 1])
  }

  function Ticks(steps: seq<Step>): nat {
    if steps == [] then 0 else Ticks(steps[..|steps| - 1]) + if steps[|steps| - 1].Janitor? then 1 else 0
  }

  /** The step neither looks up, installs nor releases a connection for the target. */
  ghost predicate Ignores(s: State, step: Step, target: Target) {
    match step
    case Lookup(_, t, _) => t != target
    case InstallDialled(g, _) => g in s.gap ==> s.gap[g].target != target
    case ReleaseHandle(g, _) => g in s.handles ==> s.handles[g].target != target
    case _ => true
  }

  /** A continuation in which the target is not used again and the janitor's ticks, of which
      `done` have passed, come on time. */
  ghost predicate QuietRun(s: State, steps: seq<Step>, target: Target, start: int, ttl: int, done: nat) {
    steps == [] ||
    var init, step := steps[..|steps| - 1], steps[|steps| - 1];
    && QuietRun(s, init, target, start, ttl, done)
    && Ignores(From(s, init), step, target)
    && (step.Janitor? ==> step.cutoff == TickTime(start, ttl, done + Ticks(steps)) - ttl)
  }

  lemma IgnoredEntry(s: State, step: Step, target: Target)
    requires Ignores(s, step, target)
    ensures var m, m' := s.cache, Do(s, step).cache;
            var evicts := step.Janitor? && target in IdleTargets(m, step.cutoff);
            && (target in m'.conns <==> target in m.conns && !evicts)
            && (target in m'.conns ==> m'.conns[target] == m.conns[target])
            && m.closed <= m'.closed
            && (evicts ==> m.conns[target].cc in m'.closed)
  {
  }

  lemma {:induction false} TickTimeIs(start: int, ttl: int, i: nat)
    ensures TickTime(start, ttl, i) == start + i * (ttl / 2)
  {
    if i > 0 {
      TickTimeIs(start, ttl, i - 1);
      assert i * (ttl / 2) == (i - 1) * (ttl / 2) + ttl / 2;
    }
  }

  lemma {:induction false} TicksAdvance(start: int, ttl: int, i: nat, j: nat)
    requires 0 <= ttl && i <= j
    ensures TickTime(start, ttl, i) <= TickTime(start, ttl, j)
    decreases j - i
  {
    if i < j {
      TicksAdvance(start, ttl, i, j - 1);
    }
  }

  /** An unused entry is there until a tick later than lastUsed + ttl, and that tick closes it. */
  lemma {:induction false} EvictedByTick(s: State, steps: seq<Step>, target: Target, start: int, ttl: int, done: nat)
    requires 2 <= ttl && target in s.cache.conns && s.cache.conns[target].ref == 0
    requires TickTime(start, ttl, done) <= s.cache.conns[target].lastUsed
    requires QuietRun(s, steps, target, start, ttl, done)
    ensures var m, e := From(s, steps).cache, s.cache.conns[target];
            if TickTime(start, ttl, done + Ticks(steps)) <= e.lastUsed + ttl
            then target in m.conns && m.conns[target] == e
            else target !in m.conns && e.cc in m.closed
  {
    if steps != [] {
      var init, step := steps[..|steps| - 1], steps[|steps| - 1];
      EvictedByTick(s, init, target, start, ttl, done);
      IgnoredEntry(From(s, init), step, target);
      TicksAdvance(start, ttl, done + Ticks(init), done + Ticks(steps));
    }
  }

  lemma {:induction false} TickAfter(start: int, ttl: int, done: nat, deadline: int) returns (n: nat)
    requires 2 <= ttl && TickTime(start, ttl, done) <= deadline
    ensures 1 <= n && TickTime(start, ttl, done + n - 1) <= deadline < TickTime(start, ttl, done + n)
    decreases deadline - TickTime(start, ttl, done)
  {
    if TickTime(start, ttl, done + 1) > deadline {
      n := 1;
    } else {
      n := TickAfter(start, ttl, done + 1, deadline);
      n := n + 1;
    }
  }

  /** Main result: an entry with no handles, last used at u and not used again, is evicted and
      closed by one particular tick, whose time is more than u + ttl and at most
      u + ttl + ttl / 2: over every continuation with on-time ticks it is cached before that
      tick and closed from it on. */
  lemma IdleEvictionBound(s: State, target: Target, start: int, ttl: int, done: nat) returns (n: nat)
    requires 2 <= ttl && target in s.cache.conns && s.cache.conns[target].ref == 0
    requires TickTime(start, ttl, done) <= s.cache.conns[target].lastUsed
    ensures var u := s.cache.conns[target].lastUsed;
            u + ttl < TickTime(start, ttl, done + n) <= u + ttl + ttl / 2
    ensures forall steps :: QuietRun(s, steps, target, start, ttl, done) ==>
              var m, e := From(s, steps).cache, s.cache.conns[target];
              if Ticks(steps) < n then target in m.conns && m.conns[target] == e
              else target !in m.conns && e.cc in m.closed
  {
    var e := s.cache.conns[target];
    n := TickAfter(start, ttl, done, e.lastUsed + ttl);
    forall steps | QuietRun(s, steps, target, start, ttl, done)
      ensures var m := From(s, steps).cache;
              if Ticks(steps) < n then target in m.conns && m.conns[target] == e
              else target !in m.conns && e.cc in m.closed
    {
      EvictedByTick(s, steps, target, start, ttl, done);
      if Ticks(steps) < n {
        TicksAdvance(start, ttl, done + Ticks(steps), done + n - 1);
      } else {
        TicksAdvance(start, ttl, done + n, done + Ticks(steps));
      }
    }
  }

  /** The time of the last step of a run that handed out or took back a connection for the
      target. */
  function LastUse(steps: seq<Step>, target: Target): Option<int> {
    if steps == [] then None
    else
      var init, step := steps[..|steps| - 1], steps[|steps| - 1];
      var s := After(init);
      match step
      case Lookup(g, t, now) =>
        if g !in s.used && t == target && t in s.cache.conns then Some(now) else LastUse(init, target)
      case InstallDialled(g, now) =>
        if g in s.gap && s.gap[g].target == target then Some(now) else LastUse(init, target)
      case ReleaseHandle(g, now) =>
        if g in s.handles && s.handles[g].target == target then Some(now) else LastUse(init, target)
      case _ => LastUse(init, target)
  }

  lemma {:induction false} LastUsedIsLastUse(steps: seq<Step>, target: Target)
    requires target in After(steps).cache.conns
    ensures LastUse(steps, target) == Some(After(steps).cache.conns[target].lastUsed)
  {
    if steps != [] {
      var init, step := steps[..|steps| - 1], steps[|steps| - 1];
      var s := After(init);
      if Ignores(s, step, target) {
        IgnoredEntry(s, step, target);
        LastUsedIsLastUse(init, target);
      } else if target in s.cache.conns {
        LastUsedIsLastUse(init, target);
      }
      hide Evict;
    }
  }

  /** Main result: a connection with no unreleased handle, not used again after its last use at
      time u, is closed by one particular tick, more than u + ttl and at most
      u + ttl + ttl / 2, over every continuation with on-time ticks. */
  lemma IdleConnectionClosed(past: seq<Step>, target: Target, start: int, ttl: int, done: nat) returns (n: nat)
    requires 2 <= ttl && target in After(past).cache.conns && HandlesOn(After(past), target) == {}
    requires LastUse(past, target).Some? && TickTime(start, ttl, done) <= LastUse(past, target).value
    ensures var u := LastUse(past, target).value;
            u + ttl < start + (done + n) * (ttl / 2) <= u + ttl + ttl / 2
    ensures forall steps :: QuietRun(After(past), steps, target, start, ttl, done) ==>
              var m, e := From(After(past), steps).cache, After(past).cache.conns[target];
              if Ticks(steps) < n then target in m.conns && m.conns[target] == e
              else target !in m.conns && e.cc in m.closed
  {
    LastUsedIsLastUse(past, target);
    HandlesStayOpen(past);
    n := IdleEvictionBound(After(past), target, start, ttl, done);
    TickTimeIs(start, ttl, done + n);
  }
}
