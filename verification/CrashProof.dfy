/** A leader with a buffer directory can crash in any reachable state: between two steps of the
    protocol the directory mirrors the buffer. */
module CrashProof {
  import opened Base
  import opened FileNames
  import opened ReplBuffer
  import opened ReplServer
  import opened Protocol
  import opened BufferProof
  import D = DiskRecovery

  ghost predicate DiskSafe(s: State) {
    forall t :: Given(s, t) != [] ==> Stable(t) && |Given(s, t)| < U64
  }

  lemma HistoryGrows(ops: seq<D.Op>, op: D.Op)
    requires D.Tame(ops)
    requires op.Publish? ==> Stable(op.topic) && SeqOf(D.After(ops), op.topic) < U64 - 1
    ensures D.After(ops + [op]) == D.Do(D.After(ops), op) && D.Tame(ops + [op])
  {
  }

  /** The record evolves by publishes and cleanups only, after a past `ops0`. */
  lemma {:induction false} RecordHistory(c: Config, ops0: seq<D.Op>, steps: seq<Step>) returns (ops: seq<D.Op>)
    requires D.Tame(ops0) && c.boot == D.After(ops0)
    requires c.disk && DiskSafe(After(c, steps))
    ensures D.Tame(ops) && D.After(ops) == After(c, steps).rep
  {
    if steps == [] {
      ops := ops0;
    } else {
      var init, step := steps[..|steps| - 1], steps[|steps| - 1];
      var s, s' := After(c, init), After(c, steps);
      StepExtends(c, s, step);
      forall t | Given(s, t) != [] ensures Stable(t) && |Given(s, t)| < U64 {
        assert Given(s, t) <= Given(s', t);
      }
      hide Stable, Clean, Assign, Cutoff;
      ops := RecordHistory(c, ops0, init);
      StepFrame(c, s, step);
      if Enabled(c, s, step) && step.Number? {
        var pub := s.pubs[step.p];
        NumbersAreConsecutive(c, init, pub.topic);
        assert |Given(s', pub.topic)| == |Given(s, pub.topic)| + 1;
        HistoryGrows(ops, D.Publish(pub.topic, pub.data));
        ops := ops + [D.Publish(pub.topic, pub.data)];
      } else if Enabled(c, s, step) && step.TickTopic? {
        var op := D.Cleanup(step.topic, Cutoff(s.tick.snap, step.topic));
        HistoryGrows(ops, op);
        ops := ops + [op];
      }
    }
  }

  /** Main result: a crash in any reachable state of a process whose own start was such a restart,
      or fresh, followed by a restart that lists the directory in any order, gives back every
      buffered entry; a topic's number comes back exactly when one of its entries was still
      buffered. The restored record is contiguous and has such a past again, so that everything
      proved of one process holds of the next. */
  lemma CrashRecovers(c: Config, ops0: seq<D.Op>, steps: seq<Step>, names: seq<string>) returns (ops: seq<D.Op>)
    requires D.Tame(ops0) && c.boot == D.After(ops0)
    requires c.disk && DiskSafe(After(c, steps))
    requires D.Enumerates(names, After(c, steps).rep.dir)
    ensures var r := After(c, steps).rep;
            var r' := RestoreAll(r.dir, names);
            && D.SameEntries(r'.buf, r.buf)
            && (forall t :: SeqOf(r', t) == if EntriesOf(r.buf, t) == map[] then 0 else SeqOf(r, t))
            && Contiguous(r') && D.Tame(ops) && D.After(ops) == r'
  {
    ops := RecordHistory(c, ops0, steps);
    D.HistoryKeepsMirror(ops);
    D.RestartRebuilds(After(c, steps).rep, names);
    HistoryGrows(ops, D.Crash(names));
    ops := ops + [D.Crash(names)];
  }
}
