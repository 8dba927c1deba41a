/** The leader's replication record: the last number given out per topic, the copies kept for
    resending, and the directory that mirrors them. The directory is a map from file name to
    contents, and file operations succeed. */
module ReplBuffer {
  import opened Base
  import opened FileNames

  type Entries = map<uint64, Bytes>
  type Buf = map<Topic, Entries>

  datatype Rep = Rep(seqs: map<Topic, uint64>, buf: Buf, dir: map<string, Bytes>)

  const EMPTY_REP := Rep(map[], map[], map[])

  function SeqOf(r: Rep, t: Topic): uint64 {
    At(r.seqs, t, 0)
  }

  function EntriesOf(buf: Buf, t: Topic): Entries {
    At(buf, t, map[])
  }

  function Lookup(buf: Buf, t: Topic, n: uint64): Option<Bytes> {
    if n in EntriesOf(buf, t) then Some(EntriesOf(buf, t)[n]) else None
  }

  /** The locked section of `Publish`. */
  function Assign(r: Rep, disk: bool, t: Topic, data: Bytes): Rep {
    var n := Inc(SeqOf(r, t));
    Rep(r.seqs[t := n],
        r.buf[t := EntriesOf(r.buf, t)[n := data]],
        if disk then r.dir[FileName(t, n) := data] else r.dir)
  }

  /** Entries that survive a cleanup with cutoff `a`. */
  function Above(es: Entries, a: uint64): Entries {
    map n | n in es && n > a :: es[n]
  }

  function FilesUpTo(es: Entries, t: Topic, a: uint64): set<string> {
    set n | n in es && n <= a :: FileName(t, n)
  }

  /** The cleanup half of a retry tick for one topic of the buffer. */
  function Clean(r: Rep, disk: bool, t: Topic, a: uint64): Rep
    requires t in r.buf
  {
    Rep(r.seqs,
        r.buf[t := Above(r.buf[t], a)],
        if disk then r.dir - FilesUpTo(r.buf[t], t, a) else r.dir)
  }

  ghost predicate InBuf(buf: Buf, t: Topic, n: uint64) {
    Lookup(buf, t, n).Some?
  }

  /** The buffered numbers of a topic are exactly (lo, seq]. */
  ghost predicate Interval(r: Rep, t: Topic, lo: int) {
    && 0 <= lo <= SeqOf(r, t)
    && forall n: uint64 :: InBuf(r.buf, t, n) <==> lo < n <= SeqOf(r, t)
  }

  ghost predicate ContiguousAt(r: Rep, t: Topic) {
    exists lo :: Interval(r, t, lo)
  }

  ghost predicate Contiguous(r: Rep) {
    forall t :: ContiguousAt(r, t)
  }

  /** The lower end that a cleanup with cutoff `a` leaves. */
  function Raise(lo: int, a: uint64, top: uint64): int {
    Max(lo, if a < top then a else top)
  }

  lemma AssignKeepsInterval(r: Rep, disk: bool, t: Topic, data: Bytes, t1: Topic, lo: int)
    requires Interval(r, t1, lo) && (t == t1 ==> SeqOf(r, t) < U64 - 1)
    ensures Interval(Assign(r, disk, t, data), t1, lo)
  {
    hide FileName;
    var r' := Assign(r, disk, t, data);
    forall n: uint64 ensures InBuf(r'.buf, t1, n) <==> lo < n <= SeqOf(r', t1) {
      assert InBuf(r.buf, t1, n) <==> lo < n <= SeqOf(r, t1);
    }
  }

  lemma CleanRaisesInterval(r: Rep, disk: bool, t: Topic, a: uint64, t1: Topic, lo: int)
    requires Interval(r, t1, lo) && t in r.buf
    ensures Interval(Clean(r, disk, t, a), t1, if t == t1 then Raise(lo, a, SeqOf(r, t)) else lo)
  {
    hide FilesUpTo;
    var r' := Clean(r, disk, t, a);
    var lo' := if t == t1 then Raise(lo, a, SeqOf(r, t)) else lo;
    forall n: uint64 ensures InBuf(r'.buf, t1, n) <==> lo' < n <= SeqOf(r', t1) {
      assert InBuf(r.buf, t1, n) <==> lo < n <= SeqOf(r, t1);
    }
  }

  lemma IntervalUnique(r: Rep, t: Topic, lo: int, lo': int)
    requires Interval(r, t, lo) && Interval(r, t, lo')
    ensures lo == lo'
  {
    assert lo < SeqOf(r, t) ==> InBuf(r.buf, t, lo + 1);
    assert lo' < SeqOf(r, t) ==> InBuf(r.buf, t, lo' + 1);
  }

  /** A cleanup that has not reached the numbers in `todo` yet. */
  ghost function CleanBut(r: Rep, disk: bool, t: Topic, a: uint64, todo: set<uint64>): Rep
    requires t in r.buf
  {
    Rep(r.seqs,
        r.buf[t := map n | n in r.buf[t] && (n in todo || n > a) :: r.buf[t][n]],
        if disk then r.dir - FilesUpTo(r.buf[t] - todo, t, a) else r.dir)
  }

  lemma CleanStart(r: Rep, disk: bool, t: Topic, a: uint64)
    requires t in r.buf
    ensures CleanBut(r, disk, t, a, r.buf[t].Keys) == r
  {
    var es := r.buf[t];
    assert (map n | n in es && (n in es.Keys || n > a) :: es[n]) == es;
    assert FilesUpTo(es - es.Keys, t, a) == {};
  }

  lemma CleanNext(r: Rep, disk: bool, t: Topic, a: uint64, todo: set<uint64>, n: uint64)
    requires t in r.buf && n in todo && todo <= r.buf[t].Keys
    ensures var mid, next := CleanBut(r, disk, t, a, todo), CleanBut(r, disk, t, a, todo - {n});
            next == if n > a then mid
                    else Rep(r.seqs, mid.buf[t := mid.buf[t] - {n}],
                             if disk then mid.dir - {FileName(t, n)} else r.dir)
  {
    hide FileName;
    var es, rest := r.buf[t], todo - {n};
    var mid, next := CleanBut(r, disk, t, a, todo), CleanBut(r, disk, t, a, rest);
    if n > a {
      assert mid.buf[t] == next.buf[t];
      assert FilesUpTo(es - rest, t, a) == FilesUpTo(es - todo, t, a);
    } else {
      assert next.buf[t] == mid.buf[t] - {n};
      assert FilesUpTo(es - rest, t, a) == FilesUpTo(es - todo, t, a) + {FileName(t, n)};
    }
  }

  lemma CleanEnd(r: Rep, disk: bool, t: Topic, a: uint64)
    requires t in r.buf
    ensures CleanBut(r, disk, t, a, {}) == Clean(r, disk, t, a)
  {
    var es := r.buf[t];
    var none: set<uint64> := {};
    assert CleanBut(r, disk, t, a, none).buf[t] == Above(es, a);
    assert es - none == es;
  }

  /** One iteration of `restoreBufferFromDisk`. */
  function RestoreOne(r: Rep, name: string): Rep
    requires name in r.dir
  {
    match ParseName(name)
    case None => r
    case Some((t, n)) =>
      Rep(if n > SeqOf(r, t) then r.seqs[t := n] else r.seqs,
          r.buf[t := EntriesOf(r.buf, t)[n := r.dir[name]]],
          r.dir)
  }

  function RestoreAll(dir: map<string, Bytes>, names: seq<string>): (r: Rep)
    requires forall i :: 0 <= i < |names| ==> names[i] in dir
    ensures r.dir == dir
  {
    if names == [] then Rep(map[], map[], dir)
    else RestoreOne(RestoreAll(dir, names[..|names| - 1]), names[|names| - 1])
  }

  /** The in-place form of the record, as `Cluster` holds it. */
  class Replicator {
    const disk: bool
    var seqs: map<Topic, uint64>
    var buf: Buf
    var dir: map<string, Bytes>

    function Value(): Rep
      reads this
    {
      Rep(seqs, buf, dir)
    }

    constructor (disk: bool, dir: map<string, Bytes>)
      ensures this.disk == disk && Value() == Rep(map[], map[], dir)
    {
      this.disk := disk;
      this.seqs, this.buf, this.dir := map[], map[], dir;
    }

    method AssignNext(t: Topic, data: Bytes) returns (n: uint64)
      modifies this
      ensures n == Inc(SeqOf(old(Value()), t))
      ensures Value() == Assign(old(Value()), disk, t, data)
      ensures dir == if disk then old(dir)[FileName(t, n) := data] else old(dir)
    {
      hide FileName;
      seqs := seqs[t := Inc(At(seqs, t, 0))];
      n := seqs[t];
      if t !in buf {
        buf := buf[t := map[]];
      }
      var es: Entries := buf[t];
      buf := buf[t := es[n := data]];
      assert buf == Assign(old(Value()), disk, t, data).buf;
      if disk {
        dir := dir[FileName(t, n) := data];
      }
    }

    /** Deletes in any order while iterating, as `range` over a Go map does. */
    method CleanTopic(t: Topic, a: uint64)
      requires t in buf
      modifies this
      ensures Value() == Clean(old(Value()), disk, t, a)
    {
      var es: Entries := buf[t];
      ghost var was := Value();
      var todo := es.Keys;
      CleanStart(was, disk, t, a);
      while todo != {}
        invariant todo <= es.Keys && Value() == CleanBut(was, disk, t, a, todo)
        decreases |todo|
      {
        var n: uint64 :| n in todo;
        CleanNext(was, disk, t, a, todo, n);
        todo := todo - {n};
        if n <= a {
          buf := buf[t := buf[t] - {n}];
          if disk {
            dir := dir - {FileName(t, n)};
          }
        }
      }
      CleanEnd(was, disk, t, a);
    }

    /** `restoreBufferFromDisk` on a fresh record, for one order of the directory entries. */
    method RestoreBufferFromDisk(names: seq<string>)
      requires seqs == map[] && buf == map[]
      requires forall i :: 0 <= i < |names| ==> names[i] in dir
      modifies this
      ensures Value() == RestoreAll(old(dir), names)
    {
      hide FileName, ParseName;
      for i := 0 to |names|
        invariant Value() == RestoreAll(old(dir), names[..i])
      {
        assert names[..i + 1][..i] == names[..i];
        match ParseName(names[i]) {
          case None =>
          case Some((t, n)) =>
            if t !in buf {
              buf := buf[t := map[]];
            }
            var es: Entries := buf[t];
            buf := buf[t := es[n := dir[names[i]]]];
            if n > At(seqs, t, 0) {
              seqs := seqs[t := n];
            }
        }
      }
      assert names[..|names|] == names;
    }
  }
}
