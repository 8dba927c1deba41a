/** One tick of `replicationRetryLoop`: drop what every acking node has acknowledged, resend
    the rest in ascending order. */
module RetryLoop {
  import opened Base
  import opened ReplBuffer
  import opened ReplServer

  /** The buffered messages with numbers in (lo, hi], ascending. */
  function Resends(t: Topic, es: Entries, lo: int, hi: int): seq<Msg>
    requires hi < U64 && -1 <= lo
    decreases hi - lo
  {
    if hi <= lo then []
    else Resends(t, es, lo, hi - 1) + (if hi in es then [Msg(t, es[hi], hi)] else [])
  }

  /** `ms` are exactly the entries with numbers in (lo, hi]: each once, in ascending order,
      with its own bytes. */
  ghost predicate CopiesOf(ms: seq<Msg>, t: Topic, es: Entries, lo: int, hi: int) {
    && (forall m :: m in ms ==> m.topic == t && lo < m.num <= hi && m.num in es && m.data == es[m.num])
    && (forall i, j :: 0 <= i < j < |ms| ==> ms[i].num < ms[j].num)
    && (forall n: uint64 :: n in es && lo < n <= hi ==> Msg(t, es[n], n) in ms)
  }

  lemma {:induction false} ResendsExactly(t: Topic, es: Entries, lo: int, hi: int)
    requires hi < U64 && -1 <= lo
    ensures CopiesOf(Resends(t, es, lo, hi), t, es, lo, hi)
    decreases hi - lo
  {
    if hi > lo {
      ResendsExactly(t, es, lo, hi - 1);
      var before, last: seq<Msg> := Resends(t, es, lo, hi - 1), if hi in es then [Msg(t, es[hi], hi)] else [];
      AppendCopy(before, last, t, es, lo, hi);
    }
  }

  lemma AppendCopy(before: seq<Msg>, last: seq<Msg>, t: Topic, es: Entries, lo: int, hi: uint64)
    requires lo < hi && CopiesOf(before, t, es, lo, hi - 1)
    requires last == if hi in es then [Msg(t, es[hi], hi)] else []
    ensures CopiesOf(before + last, t, es, lo, hi)
  {
  }

  /** The record after the topics in `order` have been cleaned, and what was sent meanwhile. */
  ghost function CleanTopics(r: Rep, disk: bool, acked: Acks, order: seq<Topic>): (r': Rep)
    requires forall i :: 0 <= i < |order| ==> order[i] in r.buf
    ensures r'.buf.Keys == r.buf.Keys && r'.seqs == r.seqs
  {
    if order == [] then r
    else
      var t := order[|order| - 1];
      Clean(CleanTopics(r, disk, acked, order[..|order| - 1]), disk, t, Cutoff(acked, t))
  }

  ghost function TickMsgs(r: Rep, acked: Acks, order: seq<Topic>): seq<Msg> {
    if order == [] then []
    else
      var t := order[|order| - 1];
      var a := Cutoff(acked, t);
      TickMsgs(r, acked, order[..|order| - 1]) + Resends(t, Above(EntriesOf(r.buf, t), a), a, SeqOf(r, t))
  }

  lemma CleanAt(r: Rep, disk: bool, t1: Topic, a: uint64, t: Topic)
    requires t1 in r.buf && t in r.buf
    ensures Clean(r, disk, t1, a).buf[t] == if t == t1 then Above(r.buf[t], a) else r.buf[t]
  {
  }

  lemma CleanTwice(es: Entries, a: uint64)
    ensures Above(Above(es, a), a) == Above(es, a)
  {
  }

  lemma {:induction false} CleanTopicsAt(r: Rep, disk: bool, acked: Acks, order: seq<Topic>, t: Topic)
    requires forall i :: 0 <= i < |order| ==> order[i] in r.buf
    requires t in r.buf
    ensures CleanTopics(r, disk, acked, order).buf[t] ==
            if t in order then Above(r.buf[t], Cutoff(acked, t)) else r.buf[t]
  {
    hide FilesUpTo, Cutoff, Above, Clean;
    if order != [] {
      var init, last := order[..|order| - 1], order[|order| - 1];
      CleanTopicsAt(r, disk, acked, init, t);
      assert t in order <==> t in init || t == last;
      CleanAt(CleanTopics(r, disk, acked, init), disk, last, Cutoff(acked, last), t);
      CleanTwice(r.buf[t], Cutoff(acked, t));
    }
  }

  lemma ResendsNext(t: Topic, es: Entries, a: uint64, n: uint64)
    requires forall i: uint64 :: i in es ==> i > a
    ensures Resends(t, es, a, n) == Resends(t, es, a, n - 1) + if n in es then [Msg(t, es[n], n)] else []
  {
  }

  lemma ResendsNone(t: Topic, es: Entries, a: uint64, hi: int, top: uint64)
    requires -1 <= hi < U64 && hi >= top && (hi == top || hi == a || hi == -1)
    ensures Resends(t, es, a, hi) == Resends(t, es, a, top)
  {
  }

  lemma NothingResent(t: Topic, es: Entries, a: uint64, w: Wire, net: nat -> set<StreamId>)
    ensures BroadcastAll(w, Resends(t, es, a, Inc(a) - 1), net) == w
  {
  }

  method ResendTopic(rep: Replicator, server: Server, t: Topic, a: uint64)
    requires server.Valid() && t in rep.buf
    requires forall n: uint64 :: n in rep.buf[t] ==> n > a
    requires SeqOf(rep.Value(), t) < U64 - 1
    modifies server
    ensures server.Valid() && server.ack == old(server.ack) && server.serving == old(server.serving)
    ensures var ms := Resends(t, rep.buf[t], a, SeqOf(rep.Value(), t));
            server.Value() == BroadcastAll(old(server.Value()), ms, server.net)
  {
    hide Broadcast, BroadcastAll, Resends;
    ghost var was := server.Value();
    NothingResent(t, rep.buf[t], a, was, server.net);
    var max: uint64 := At(rep.seqs, t, 0);
    var n := Inc(a);
    while n <= max
      invariant n == Inc(a) || n <= max + 1
      invariant server.Valid() && server.ack == old(server.ack) && server.serving == old(server.serving)
      invariant server.Value() == BroadcastAll(was, Resends(t, rep.buf[t], a, n - 1), server.net)
      decreases max - n
    {
      ghost var sent := Resends(t, rep.buf[t], a, n - 1);
      ResendsNext(t, rep.buf[t], a, n);
      assert sent + [] == sent;
      if n in rep.buf[t] {
        BroadcastNext(was, sent, Msg(t, rep.buf[t][n], n), server.net);
        var cnt := server.BroadcastWithSeq(t, rep.buf[t][n], n);
      }
      n := Inc(n);
    }
    ResendsNone(t, rep.buf[t], a, n - 1, max);
  }

  method TickTopic(rep: Replicator, server: Server, t: Topic, a: uint64)
    requires server.Valid() && t in rep.buf && SeqOf(rep.Value(), t) < U64 - 1
    modifies rep, server
    ensures server.Valid() && server.ack == old(server.ack) && server.serving == old(server.serving)
    ensures rep.Value() == Clean(old(rep.Value()), rep.disk, t, a)
    ensures var ms := Resends(t, Above(old(rep.buf)[t], a), a, SeqOf(old(rep.Value()), t));
            server.Value() == BroadcastAll(old(server.Value()), ms, server.net)
  {
    hide FilesUpTo;
    rep.CleanTopic(t, a);
    ResendTopic(rep, server, t, a);
  }

  lemma TickGrows(r: Rep, disk: bool, acked: Acks, order: seq<Topic>, t: Topic)
    requires forall i :: 0 <= i < |order| ==> order[i] in r.buf
    requires t in r.buf && t !in order
    ensures var mid, a := CleanTopics(r, disk, acked, order), Cutoff(acked, t);
            && mid.buf[t] == r.buf[t]
            && CleanTopics(r, disk, acked, order + [t]) == Clean(mid, disk, t, a)
            && TickMsgs(r, acked, order + [t]) ==
               TickMsgs(r, acked, order) + Resends(t, Above(mid.buf[t], a), a, SeqOf(mid, t))
  {
    CleanTopicsAt(r, disk, acked, order, t);
    assert (order + [t])[..|order|] == order;
  }

  /** `order` lists the topics of `all` outside `todo`, each once. */
  ghost predicate Visits(order: seq<Topic>, all: set<Topic>, todo: set<Topic>) {
    && todo <= all
    && (forall t :: t in order <==> t in all && t !in todo)
    && (forall i, j :: 0 <= i < j < |order| ==> order[i] != order[j])
  }

  lemma VisitNext(order: seq<Topic>, all: set<Topic>, todo: set<Topic>, t: Topic)
    requires Visits(order, all, todo) && t in todo
    ensures t in all && t !in order && Visits(order + [t], all, todo - {t})
    ensures forall i :: 0 <= i < |order| ==> order[i] in all
  {
  }

  /** A whole tick. The topics are visited in some order; a topic whose number has reached
      2^64 - 1 is excluded, because the source's loop then never ends (see
      ResendLoopEndsIff). */
  method RetryTick(rep: Replicator, server: Server) returns (ghost order: seq<Topic>)
    requires server.Valid()
    requires forall t :: t in rep.buf ==> SeqOf(rep.Value(), t) < U64 - 1
    modifies rep, server
    ensures server.Valid() && server.ack == old(server.ack) && server.serving == old(server.serving)
    ensures Visits(order, old(rep.buf).Keys, {})
    ensures rep.Value() == CleanTopics(old(rep.Value()), rep.disk, server.ack, order)
    ensures var ms := TickMsgs(old(rep.Value()), server.ack, order);
            server.Value() == BroadcastAll(old(server.Value()), ms, server.net)
  {
    hide Clean, Resends, Above, TickMsgs, CleanTopics, MinAck, Visits, Broadcast;
    ghost var was, acks, wire := rep.Value(), server.ack, server.Value();
    var acked := server.AckedAllNow();
    var todo := rep.buf.Keys;
    order := [];
    assert Visits(order, rep.buf.Keys, todo) by {
      VisitNone(todo);
    }
    EmptyTick(was, rep.disk, acks);
    while todo != {}
      invariant Visits(order, was.buf.Keys, todo)
      invariant forall i :: 0 <= i < |order| ==> order[i] in was.buf
      invariant server.Valid() && server.ack == acks && server.serving == old(server.serving)
      invariant rep.Value() == CleanTopics(was, rep.disk, acks, order)
      invariant server.Value() == BroadcastAll(wire, TickMsgs(was, acks, order), server.net)
      decreases |todo|
    {
      var t :| t in todo;
      VisitNext(order, was.buf.Keys, todo, t);
      todo := todo - {t};
      TickGrows(was, rep.disk, acks, order, t);
      ghost var r, a := rep.Value(), Cutoff(acks, t);
      TickTopic(rep, server, t, At(acked, t, 0));
      BroadcastBoth(wire, TickMsgs(was, acks, order), Resends(t, Above(r.buf[t], a), a, SeqOf(r, t)), server.net);
      order := order + [t];
    }
  }

  lemma VisitNone(all: set<Topic>)
    ensures Visits([], all, all)
  {
  }

  lemma EmptyTick(r: Rep, disk: bool, acked: Acks)
    ensures TickMsgs(r, acked, []) == [] && CleanTopics(r, disk, acked, []) == r
  {
  }

  /** The part of a broadcast order that concerns one topic. */
  function OnTopic(ms: seq<Msg>, t: Topic): seq<Msg> {
    if ms == [] then []
    else OnTopic(ms[..|ms| - 1], t) + if ms[|ms| - 1].topic == t then [ms[|ms| - 1]] else []
  }

  lemma {:induction false} OnTopicConcat(a: seq<Msg>, b: seq<Msg>, t: Topic)
    ensures OnTopic(a + b, t) == OnTopic(a, t) + OnTopic(b, t)
  {
    if b == [] {
      assert a + b == a;
    } else {
      OnTopicConcat(a, b[..|b| - 1], t);
      assert (a + b)[..|a + b| - 1] == a + b[..|b| - 1];
    }
  }

  lemma {:induction false} OnTopicUniform(ms: seq<Msg>, t1: Topic, t: Topic)
    requires forall m :: m in ms ==> m.topic == t1
    ensures OnTopic(ms, t) == if t == t1 then ms else []
  {
    if ms != [] {
      var init, last := ms[..|ms| - 1], ms[|ms| - 1];
      assert last in ms && forall m :: m in init ==> m in ms;
      OnTopicUniform(init, t1, t);
      assert ms == init + [last];
    }
  }

  lemma {:induction false} TickMsgsOnTopic(r: Rep, acked: Acks, order: seq<Topic>, t: Topic)
    requires forall i, j :: 0 <= i < j < |order| ==> order[i] != order[j]
    ensures var a := Cutoff(acked, t);
            OnTopic(TickMsgs(r, acked, order), t) ==
            if t in order then Resends(t, Above(EntriesOf(r.buf, t), a), a, SeqOf(r, t)) else []
  {
    hide Cutoff, Above, CopiesOf;
    if order != [] {
      var init, last := order[..|order| - 1], order[|order| - 1];
      TickMsgsOnTopic(r, acked, init, t);
      var a, es := Cutoff(acked, last), EntriesOf(r.buf, last);
      var msgs := Resends(last, Above(es, a), a, SeqOf(r, last));
      TopicOfResends(last, Above(es, a), a, SeqOf(r, last));
      OnTopicConcat(TickMsgs(r, acked, init), msgs, t);
      OnTopicUniform(msgs, last, t);
      assert t in order <==> t in init || t == last;
      assert last !in init;
    }
  }

  lemma TopicOfResends(t: Topic, es: Entries, lo: int, hi: int)
    requires hi < U64 && -1 <= lo
    ensures forall m :: m in Resends(t, es, lo, hi) ==> m.topic == t
  {
  }

  /** What a tick broadcasts on each topic is exactly what its cleanup left buffered: each
      entry once, ascending, with its own bytes; the cutoff is the true minimum over the
      nodes in the ack map. */
  lemma TickResendsWhatIsLeft(r: Rep, disk: bool, acked: Acks, order: seq<Topic>, t: Topic)
    requires Visits(order, r.buf.Keys, {})
    requires forall n: uint64 :: n in EntriesOf(r.buf, t) ==> n <= SeqOf(r, t)
    ensures forall i :: 0 <= i < |order| ==> order[i] in r.buf
    ensures var a, left := Cutoff(acked, t), EntriesOf(CleanTopics(r, disk, acked, order).buf, t);
            && IsMinAck(At(acked, t, map[]), a)
            && (forall n: uint64 :: n in left <==> n in EntriesOf(r.buf, t) && n > a)
            && CopiesOf(OnTopic(TickMsgs(r, acked, order), t), t, left, -1, U64)
  {
    assert forall i :: 0 <= i < |order| ==> order[i] in order;
    var a, es := Cutoff(acked, t), EntriesOf(r.buf, t);
    CutoffIsMin(acked, t);
    TickMsgsOnTopic(r, acked, order, t);
    ResendsExactly(t, Above(es, a), a, SeqOf(r, t));
    if t in r.buf {
      CleanTopicsAt(r, disk, acked, order, t);
    }
  }

  /** Successive values of the resend loop's counter, with Go's wrap-around. */
  function Counter(a: uint64, k: nat): uint64 {
    if k == 0 then Inc(a) else Inc(Counter(a, k - 1))
  }

  lemma {:induction false} CounterClimbs(a: uint64, k: nat)
    requires Inc(a) + k < U64
    ensures Counter(a, k) == Inc(a) + k
  {
    if k > 0 {
      CounterClimbs(a, k - 1);
    }
  }

  /** The resend loop of a topic reaches its end exactly when the topic's number is below
      2^64 - 1: at the top value `s <= max` holds for every `uint64`. */
  lemma ResendLoopEndsIff(a: uint64, max: uint64)
    ensures (exists k :: Counter(a, k) > max) <==> max < U64 - 1
  {
    if max < U64 - 1 {
      var k := U64 - 1 - Inc(a);
      CounterClimbs(a, k);
      assert Counter(a, k) > max;
    }
  }
}
