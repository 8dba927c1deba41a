/** Restart after a crash: the directory gives back the buffer that memory lost. */
module DiskRecovery {
  import opened Base
  import opened FileNames
  import opened ReplBuffer

  /** What a publish leaves behind: the next number, a copy under it, and with a directory the file
      named for it, whatever the topic; everything else is as before. */
  lemma PublishWrites(r: Rep, disk: bool, t: Topic, data: Bytes)
    ensures var r', n := Assign(r, disk, t, data), Inc(SeqOf(r, t));
            && (forall u :: SeqOf(r', u) == if u == t then n else SeqOf(r, u))
            && (forall u, k: uint64 ::
                  Lookup(r'.buf, u, k) == if u == t && k == n then Some(data) else Lookup(r.buf, u, k))
            && r'.dir == if disk then r.dir[FileName(t, n) := data] else r.dir
  {
    hide FileName;
  }

  /** The name is that of one of the topic's entries up to the cutoff. */
  ghost predicate RemovedName(r: Rep, t: Topic, a: uint64, name: string) {
    exists n: uint64 :: InBuf(r.buf, t, n) && n <= a && name == FileName(t, n)
  }

  /** What a cleanup takes away: the topic's entries up to the cutoff, and with a directory the files
      named for them; everything else is as before. */
  lemma CleanupRemoves(r: Rep, disk: bool, t: Topic, a: uint64)
    requires t in r.buf
    ensures var r' := Clean(r, disk, t, a);
            && r'.seqs == r.seqs
            && (forall u, k: uint64 :: Lookup(r'.buf, u, k) == if u == t && k <= a then None else Lookup(r.buf, u, k))
            && (forall name :: name in r'.dir <==> name in r.dir && !(disk && RemovedName(r, t, a, name)))
            && (forall name :: name in r'.dir ==> r'.dir[name] == r.dir[name])
  {
    hide FileName;
    forall name ensures name in FilesUpTo(r.buf[t], t, a) <==> RemovedName(r, t, a, name) {
      if n :| n in r.buf[t] && n <= a && name == FileName(t, n) {
        assert InBuf(r.buf, t, n);
      }
    }
  }

  /** A file so removed is also that of every other topic with the same sanitised form. */
  lemma SharedFilesGo(r: Rep, t: Topic, a: uint64, u: Topic, k: uint64)
    ensures RemovedName(r, t, a, FileName(u, k)) <==> Sanitize(u) == Sanitize(t) && k <= a && InBuf(r.buf, t, k)
  {
    forall n: uint64 ensures FileName(u, k) == FileName(t, n) <==> Sanitize(u) == Sanitize(t) && n == k {
      NameCollision(u, k, t, n);
    }
    hide FileName;
  }

  /** What a process and its crashes do to the record. A crash happens while the replication
      lock is free, and the next process lists the directory as `names`. */
  datatype Op =
    | Publish(topic: Topic, data: Bytes)
    | Cleanup(topic: Topic, cutoff: uint64)
    | Crash(names: seq<string>)

  ghost predicate Enumerates(names: seq<string>, dir: map<string, Bytes>) {
    && (forall i :: 0 <= i < |names| ==> names[i] in dir)
    && (forall name :: name in dir ==> name in names)
  }

  ghost predicate Enabled(r: Rep, op: Op) {
    match op
    case Publish(_, _) => true
    case Cleanup(t, _) => t in r.buf
    case Crash(names) => Enumerates(names, r.dir)
  }

  /** A disabled operation changes nothing, so every sequence of operations is a history. */
  ghost function Do(r: Rep, op: Op): Rep {
    if !Enabled(r, op) then r
    else
      match op
      case Publish(t, data) => Assign(r, true, t, data)
      case Cleanup(t, a) => Clean(r, true, t, a)
      case Crash(names) => RestoreAll(r.dir, names)
  }

  ghost function After(ops: seq<Op>): Rep {
    if ops == [] then EMPTY_REP else Do(After(ops[..|ops| - 1]), ops[|ops| - 1])
  }

  /** The topics a history publishes to are stable, and no topic runs out of numbers. */
  ghost predicate Tame(ops: seq<Op>) {
    ops == [] ||
    var init, op := ops[..|ops| - 1], ops[|ops| - 1];
    Tame(init) && (op.Publish? ==> Stable(op.topic) && SeqOf(After(init), op.topic) < U64 - 1)
  }

  ghost predicate SameEntries(a: Buf, b: Buf) {
    forall t, n: uint64 :: Lookup(a, t, n) == Lookup(b, t, n)
  }

  /** The files are exactly the buffered entries, with the same bytes. */
  ghost predicate Mirror(r: Rep) {
    && (forall t, n: uint64 :: InBuf(r.buf, t, n) ==>
          Stable(t) && FileName(t, n) in r.dir && r.dir[FileName(t, n)] == r.buf[t][n])
    && (forall name :: name in r.dir ==> FromBuf(r, name))
  }

  ghost predicate FromBuf(r: Rep, name: string) {
    match ParseName(name)
    case None => false
    case Some((t, n)) => InBuf(r.buf, t, n) && name == FileName(t, n)
  }

  lemma AssignKeepsMirror(r: Rep, t: Topic, data: Bytes)
    requires Mirror(r) && Stable(t)
    ensures Mirror(Assign(r, true, t, data))
  {
    var n := Inc(SeqOf(r, t));
    var r' := Assign(r, true, t, data);
    NameRoundTrip(t, n);
    forall t1, n1 | InBuf(r'.buf, t1, n1)
      ensures Stable(t1) && FileName(t1, n1) in r'.dir && r'.dir[FileName(t1, n1)] == r'.buf[t1][n1]
    {
      NameCollision(t, n, t1, n1);
      assert (t1, n1) != (t, n) ==> InBuf(r.buf, t1, n1);
    }
    forall name | name in r'.dir ensures FromBuf(r', name) {
      if name != FileName(t, n) {
        assert FromBuf(r, name);
      }
    }
  }

  lemma CleanKeepsMirror(r: Rep, t: Topic, a: uint64)
    requires Mirror(r) && t in r.buf
    ensures Mirror(Clean(r, true, t, a))
  {
    var r' := Clean(r, true, t, a);
    forall t1, n1 | InBuf(r'.buf, t1, n1)
      ensures Stable(t1) && FileName(t1, n1) in r'.dir && r'.dir[FileName(t1, n1)] == r'.buf[t1][n1]
    {
      assert InBuf(r.buf, t1, n1);
      forall n | n in r.buf[t] && n <= a ensures FileName(t, n) != FileName(t1, n1) {
        NameCollision(t, n, t1, n1);
        assert InBuf(r.buf, t, n);
      }
    }
    forall name | name in r'.dir ensures FromBuf(r', name) {
      assert FromBuf(r, name);
    }
  }

  lemma DistinctFiles(t: Topic, n: uint64, t1: Topic, n1: uint64)
    requires Stable(t) && Stable(t1)
    ensures FileName(t, n) == FileName(t1, n1) ==> (t, n) == (t1, n1)
  {
    NameCollision(t, n, t1, n1);
  }

  /** What restoring the files in `done` builds, at one entry. */
  ghost predicate RestoredAt(r: Rep, was: Rep, done: set<string>, t: Topic, n: uint64) {
    && (InBuf(r.buf, t, n) <==> InBuf(was.buf, t, n) && FileName(t, n) in done)
    && (InBuf(r.buf, t, n) ==> Lookup(r.buf, t, n) == Lookup(was.buf, t, n) && n <= SeqOf(r, t))
  }

  ghost predicate SeqBuffered(r: Rep, t: Topic) {
    SeqOf(r, t) == 0 || InBuf(r.buf, t, SeqOf(r, t))
  }

  ghost predicate Restored(r: Rep, was: Rep, done: set<string>) {
    && (forall t, n: uint64 :: RestoredAt(r, was, done, t, n))
    && (forall t :: SeqBuffered(r, t))
  }

  /** Reading one more file adds exactly its entry. */
  lemma RestoreAddsEntry(r: Rep, name: string, t: Topic, n: uint64, t1: Topic, n1: uint64)
    requires name in r.dir && ParseName(name) == Some((t, n))
    ensures var r' := RestoreOne(r, name);
            && Lookup(r'.buf, t1, n1) == (if (t1, n1) == (t, n) then Some(r.dir[name]) else Lookup(r.buf, t1, n1))
            && SeqOf(r', t1) == if t1 == t then Max(SeqOf(r, t), n) else SeqOf(r, t1)
  {
  }

  lemma RestoreStepAt(was: Rep, r: Rep, done: set<string>, name: string, t: Topic, n: uint64, t1: Topic, n1: uint64)
    requires r.dir == was.dir && name in was.dir && ParseName(name) == Some((t, n))
    requires Lookup(was.buf, t, n) == Some(was.dir[name]) && name == FileName(t, n)
    requires FileName(t1, n1) == name && InBuf(was.buf, t1, n1) ==> (t1, n1) == (t, n)
    requires RestoredAt(r, was, done, t1, n1)
    ensures RestoredAt(RestoreOne(r, name), was, done + {name}, t1, n1)
  {
  }

  lemma RestoreStep(was: Rep, r: Rep, done: set<string>, name: string)
    requires Mirror(was) && r.dir == was.dir && name in was.dir && Restored(r, was, done)
    ensures Restored(RestoreOne(r, name), was, done + {name})
  {
    hide FileName, ParseName, RestoreOne;
    var r' := RestoreOne(r, name);
    assert FromBuf(was, name);
    var (t, n) := ParseName(name).value;
    assert InBuf(was.buf, t, n);
    forall t1, n1: uint64 ensures RestoredAt(r', was, done + {name}, t1, n1) {
      if InBuf(was.buf, t1, n1) {
        DistinctFiles(t, n, t1, n1);
      }
      RestoreStepAt(was, r, done, name, t, n, t1, n1);
    }
    forall t1 ensures SeqBuffered(r', t1) {
      assert SeqBuffered(r, t1);
      RestoreAddsEntry(r, name, t, n, t1, SeqOf(r', t1));
      RestoreAddsEntry(r, name, t, n, t1, SeqOf(r, t1));
    }
  }

  lemma {:induction false} RestorePrefix(was: Rep, names: seq<string>)
    requires Mirror(was)
    requires forall i :: 0 <= i < |names| ==> names[i] in was.dir
    ensures Restored(RestoreAll(was.dir, names), was, set name | name in names)
  {
    hide FileName, ParseName, Mirror;
    if names == [] {
      var r := RestoreAll(was.dir, names);
      assert forall t :: SeqBuffered(r, t);
      assert forall t, n: uint64 :: !InBuf(r.buf, t, n);
    } else {
      var init, last := names[..|names| - 1], names[|names| - 1];
      RestorePrefix(was, init);
      RestoreStep(was, RestoreAll(was.dir, init), (set name | name in init), last);
      assert (set name | name in init) + {last} == set name | name in names;
    }
  }

  /** Restart rebuilds the buffer whatever the directory order; a topic gets its number back
      exactly when an entry was still buffered, and starts again from 0 otherwise. */
  lemma RestartRebuilds(r: Rep, names: seq<string>)
    requires Mirror(r) && Contiguous(r) && Enumerates(names, r.dir)
    ensures var r' := RestoreAll(r.dir, names);
            && Mirror(r') && Contiguous(r')
            && SameEntries(r'.buf, r.buf)
            && forall t :: SeqOf(r', t) == if EntriesOf(r.buf, t) == map[] then 0 else SeqOf(r, t)
  {
    var r' := RestoreAll(r.dir, names);
    RestorePrefix(r, names);
    var done := set name | name in names;
    forall t, n: uint64 ensures Lookup(r'.buf, t, n) == Lookup(r.buf, t, n) && RestoredAt(r', r, done, t, n) {
      assert InBuf(r.buf, t, n) ==> FileName(t, n) in done;
      assert RestoredAt(r', r, done, t, n);
    }
    forall t, n | InBuf(r'.buf, t, n)
      ensures Stable(t) && FileName(t, n) in r'.dir && r'.dir[FileName(t, n)] == r'.buf[t][n]
    {
      assert InBuf(r.buf, t, n);
    }
    forall name | name in r'.dir ensures FromBuf(r', name) {
      assert FromBuf(r, name);
      var (t, n) := ParseName(name).value;
      assert Lookup(r'.buf, t, n) == Lookup(r.buf, t, n);
    }
    forall t
      ensures SeqOf(r', t) == if EntriesOf(r.buf, t) == map[] then 0 else SeqOf(r, t)
      ensures ContiguousAt(r', t)
    {
      assert SeqBuffered(r', t);
      forall n: uint64 | InBuf(r'.buf, t, n) ensures n <= SeqOf(r', t) {
        assert RestoredAt(r', r, done, t, n);
      }
      RestartNumber(r, r', t);
    }
  }

  lemma RestartNumber(r: Rep, r': Rep, t: Topic)
    requires Contiguous(r) && SameEntries(r'.buf, r.buf)
    requires forall n: uint64 :: InBuf(r'.buf, t, n) ==> n <= SeqOf(r', t)
    requires SeqBuffered(r', t)
    ensures SeqOf(r', t) == if EntriesOf(r.buf, t) == map[] then 0 else SeqOf(r, t)
    ensures ContiguousAt(r', t)
  {
    assert ContiguousAt(r, t);
    var lo :| Interval(r, t, lo);
    forall n ensures InBuf(r'.buf, t, n) <==> InBuf(r.buf, t, n) {
      assert Lookup(r'.buf, t, n) == Lookup(r.buf, t, n);
    }
    if lo < SeqOf(r, t) {
      assert InBuf(r.buf, t, SeqOf(r, t));
      assert Interval(r', t, lo);
    } else {
      var es := EntriesOf(r.buf, t);
      forall n | n in es ensures false {
        assert InBuf(r.buf, t, n);
      }
      assert es.Keys == {};
      assert es == map[];
      assert Interval(r', t, 0);
    }
  }

  lemma StepKeepsContiguous(r: Rep, op: Op)
    requires Contiguous(r) && Enabled(r, op) && !op.Crash?
    requires op.Publish? ==> SeqOf(r, op.topic) < U64 - 1
    ensures Contiguous(Do(r, op))
  {
    forall t ensures ContiguousAt(Do(r, op), t) {
      assert ContiguousAt(r, t);
      var lo :| Interval(r, t, lo);
      match op {
        case Publish(t1, data) => AssignKeepsInterval(r, true, t1, data, t, lo);
        case Cleanup(t1, a) => CleanRaisesInterval(r, true, t1, a, t, lo);
      }
    }
  }

  /** The directory mirrors memory and numbering stays contiguous through any number of
      publishes, cleanups, crashes and restarts. */
  lemma {:induction false} HistoryKeepsMirror(ops: seq<Op>)
    requires Tame(ops)
    ensures Mirror(After(ops)) && Contiguous(After(ops))
  {
    if ops == [] {
      forall t ensures ContiguousAt(EMPTY_REP, t) {
        assert Interval(EMPTY_REP, t, 0);
      }
    } else {
      var init, op := ops[..|ops| - 1], ops[|ops| - 1];
      HistoryKeepsMirror(init);
      var r := After(init);
      if Enabled(r, op) {
        match op {
          case Publish(t, data) => AssignKeepsMirror(r, t, data); StepKeepsContiguous(r, op);
          case Cleanup(t, a) => CleanKeepsMirror(r, t, a); StepKeepsContiguous(r, op);
          case Crash(names) => RestartRebuilds(r, names);
        }
      }
    }
  }

  /** Main result: after any history, a restart from any listing of the directory refines the
      in-memory buffer. */
  lemma RestartRefinesMemory(ops: seq<Op>, names: seq<string>)
    requires Tame(ops) && Enumerates(names, After(ops).dir)
    ensures var r, r' := After(ops), After(ops + [Crash(names)]);
            && SameEntries(r'.buf, r.buf)
            && forall t :: SeqOf(r', t) == if EntriesOf(r.buf, t) == map[] then 0 else SeqOf(r, t)
  {
    HistoryKeepsMirror(ops);
    RestartRebuilds(After(ops), names);
    assert (ops + [Crash(names)])[..|ops|] == ops;
  }

  /** Exactly the stable topics survive: publishing to a topic that sanitising changes, or to
      the empty topic, leaves a buffer that no restart gives back. */
  lemma PublishRecoverableIff(r: Rep, t: Topic, data: Bytes, names: seq<string>)
    requires Mirror(r) && Contiguous(r) && SeqOf(r, t) < U64 - 1
    requires Enumerates(names, Assign(r, true, t, data).dir)
    ensures var r' := Assign(r, true, t, data);
            SameEntries(RestoreAll(r'.dir, names).buf, r'.buf) <==> Stable(t)
  {
    var r' := Assign(r, true, t, data);
    var n := Inc(SeqOf(r, t));
    if Stable(t) {
      AssignKeepsMirror(r, t, data);
      StepKeepsContiguous(r, Publish(t, data));
      RestartRebuilds(r', names);
    } else {
      forall name | name in r'.dir && ParseName(name).Some?
        ensures Stable(ParseName(name).value.0)
      {
        NameRoundTrip(t, n);
        SanitizeIdempotent(t);
        if name != FileName(t, n) {
          assert FromBuf(r, name);
        }
      }
      RestoredTopicsAreStable(r'.dir, names);
      var back := RestoreAll(r'.dir, names);
      assert t !in back.buf;
      assert Lookup(back.buf, t, n) != Lookup(r'.buf, t, n);
    }
  }

  lemma {:induction false} RestoredTopicsAreStable(dir: map<string, Bytes>, names: seq<string>)
    requires forall i :: 0 <= i < |names| ==> names[i] in dir
    requires forall name :: name in dir && ParseName(name).Some? ==> Stable(ParseName(name).value.0)
    ensures forall t :: t in RestoreAll(dir, names).buf ==> Stable(t)
  {
    if names != [] {
      RestoredTopicsAreStable(dir, names[..|names| - 1]);
      assert names[|names| - 1] in dir;
    }
  }

  // ----- any directory, any listing -----

  /** Some listed name parses as (t, n). */
  ghost predicate Listed(names: seq<string>, t: Topic, n: uint64) {
    exists i :: ListedAt(names, i, t, n)
  }

  ghost predicate ListedAt(names: seq<string>, i: int, t: Topic, n: uint64) {
    0 <= i < |names| && ParseName(names[i]) == Some((t, n))
  }

  /** Main result: whatever the directory holds, stray files included, and in whatever order it is
      listed, a restart buffers (t, n) exactly when some listed name parses as that, with the bytes
      of the last such file, and the topic's number is the largest one listed, 0 if there is none. */
  lemma {:induction false} RestoreReadsListing(dir: map<string, Bytes>, names: seq<string>, t: Topic, n: uint64)
    requires forall i :: 0 <= i < |names| ==> names[i] in dir
    ensures var r := RestoreAll(dir, names);
            && (InBuf(r.buf, t, n) <==> Listed(names, t, n))
            && (forall i :: ListedAt(names, i, t, n) && (forall j :: ListedAt(names, j, t, n) ==> j <= i) ==>
                  Lookup(r.buf, t, n) == Some(dir[names[i]]))
            && (Listed(names, t, n) ==> n <= SeqOf(r, t))
            && (SeqOf(r, t) == 0 || Listed(names, t, SeqOf(r, t)))
  {
    hide ParseName;
    if names != [] {
      var init, last := names[..|names| - 1], names[|names| - 1];
      var was := RestoreAll(dir, init);
      RestoreReadsListing(dir, init, t, n);
      ListedPrefix(names, t, n);
      ListedPrefix(names, t, SeqOf(was, t));
      if ParseName(last).Some? {
        var (t1, n1) := ParseName(last).value;
        RestoreAddsEntry(was, last, t1, n1, t, n);
        assert ListedAt(names, |names| - 1, t1, n1);
      }
      forall i | ListedAt(names, i, t, n) && (forall j :: ListedAt(names, j, t, n) ==> j <= i)
        ensures Lookup(RestoreAll(dir, names).buf, t, n) == Some(dir[names[i]])
      {
        if i < |names| - 1 {
          LastInPrefix(names, i, t, n);
        }
      }
    }
  }

  lemma ListedPrefix(names: seq<string>, t: Topic, n: uint64)
    requires names != []
    ensures Listed(names, t, n) <==> Listed(names[..|names| - 1], t, n) || ParseName(names[|names| - 1]) == Some((t, n))
  {
    hide ParseName;
    var init := names[..|names| - 1];
    assert forall i :: 0 <= i < |init| ==> init[i] == names[i];
    assert forall i :: ListedAt(names, i, t, n) && i != |init| ==> ListedAt(init, i, t, n);
    if ParseName(names[|names| - 1]) == Some((t, n)) {
      assert ListedAt(names, |names| - 1, t, n);
    }
    if i :| ListedAt(init, i, t, n) {
      assert ListedAt(names, i, t, n);
    }
  }

  lemma LastInPrefix(names: seq<string>, i: int, t: Topic, n: uint64)
    requires i < |names| - 1 && ListedAt(names, i, t, n) && forall j :: ListedAt(names, j, t, n) ==> j <= i
    ensures var init := names[..|names| - 1];
            && ListedAt(init, i, t, n) && init[i] == names[i]
            && (forall j :: ListedAt(init, j, t, n) ==> j <= i) && ParseName(names[|names| - 1]) != Some((t, n))
  {
    hide ParseName;
    var init := names[..|names| - 1];
    assert !ListedAt(names, |names| - 1, t, n);
    forall j | ListedAt(init, j, t, n) ensures j <= i {
      assert ListedAt(names, j, t, n);
    }
  }

  // ----- any topics -----

  /** A name that parses is the one this code writes for what it parses as. */
  ghost predicate OwnFiles(dir: map<string, Bytes>) {
    forall name :: name in dir ==> OwnName(name)
  }

  ghost predicate OwnName(name: string) {
    match ParseName(name)
    case None => true
    case Some((t, n)) => Sanitize(t) == t && name == FileName(t, n)
  }

  lemma WrittenIsOwn(t: Topic, n: uint64)
    ensures OwnName(FileName(t, n))
  {
    NameRoundTrip(t, n);
    SanitizeIdempotent(t);
    NameCollision(t, n, Sanitize(t), n);
  }

  lemma {:induction false} HistoryOwnsFiles(ops: seq<Op>)
    ensures OwnFiles(After(ops).dir)
  {
    if ops != [] {
      var init, op := ops[..|ops| - 1], ops[|ops| - 1];
      HistoryOwnsFiles(init);
      hide OwnName, FileName;
      if op.Publish? {
        WrittenIsOwn(op.topic, Inc(SeqOf(After(init), op.topic)));
      }
    }
  }

  /** Main result: after any history of publishes, cleanups, crashes and restarts on any topics, a
      restart buffers exactly the files, each under the sanitised topic of its name. */
  lemma RestartReadsFiles(ops: seq<Op>, names: seq<string>, t: Topic, n: uint64)
    requires Enumerates(names, After(ops).dir)
    ensures var dir := After(ops).dir;
            Lookup(After(ops + [Crash(names)]).buf, t, n) ==
            if Stable(t) && FileName(t, n) in dir then Some(dir[FileName(t, n)]) else None
  {
    var dir := After(ops).dir;
    assert (ops + [Crash(names)])[..|ops|] == ops;
    HistoryOwnsFiles(ops);
    RestoreReadsListing(dir, names, t, n);
    NameRoundTrip(t, n);
    forall i | ListedAt(names, i, t, n) ensures Stable(t) && names[i] == FileName(t, n) {
      assert OwnName(names[i]);
      ParseNameIff(names[i], t, n);
    }
    hide FileName, ParseName;
    if Stable(t) && FileName(t, n) in dir {
      var i :| 0 <= i < |names| && names[i] == FileName(t, n);
      assert ListedAt(names, i, t, n);
      var k := LastListing(names, |names|, t, n);
    }
  }

  lemma {:induction false} LastListing(names: seq<string>, m: nat, t: Topic, n: uint64) returns (k: nat)
    requires m <= |names| && exists i :: i < m && ListedAt(names, i, t, n)
    ensures k < m && ListedAt(names, k, t, n) && forall j :: j < m && ListedAt(names, j, t, n) ==> j <= k
  {
    if ListedAt(names, m - 1, t, n) {
      k := m - 1;
    } else {
      k := LastListing(names, m - 1, t, n);
    }
  }

  /** A message published with a directory comes back after a restart from any listing, whatever the
      history and the topic, under the sanitised topic; those of the empty topic do not. */
  lemma PublishComesBack(ops: seq<Op>, t: Topic, data: Bytes, names: seq<string>)
    requires Enumerates(names, After(ops + [Publish(t, data)]).dir)
    ensures var n := Inc(SeqOf(After(ops), t));
            Lookup(After(ops + [Publish(t, data)] + [Crash(names)]).buf, Sanitize(t), n) ==
            if t != "" then Some(data) else None
  {
    var more, n := ops + [Publish(t, data)], Inc(SeqOf(After(ops), t));
    assert more[..|ops|] == ops;
    PublishWrites(After(ops), true, t, data);
    SanitizeIdempotent(t);
    NameCollision(t, n, Sanitize(t), n);
    RestartReadsFiles(more, names, Sanitize(t), n);
    hide FileName, ParseName;
  }
}
