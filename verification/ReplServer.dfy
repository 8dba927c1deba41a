/** The replication half of the leader's gRPC server: subscribers, broadcasts and
    acknowledgements. Each server method is one atomic step. */
module ReplServer {
  import opened Base

  type StreamId = nat
  type NodeAcks = map<NodeId, uint64>
  type Acks = map<Topic, NodeAcks>

  datatype Msg = Msg(topic: Topic, data: Bytes, num: uint64)

  /** A subscriber's stream: which node opened it, how long the broadcast order was and which
      numbers had been given out then, the messages it accepted, and how many of them the
      node has received. */
  datatype Stream = Stream(node: NodeId, openedAt: nat, base: map<Topic, uint64>, sent: seq<Msg>, received: nat)

  /** Live subscribers, all streams ever opened, and the order of all broadcasts. */
  datatype Wire = Wire(subs: set<StreamId>, streams: map<StreamId, Stream>, log: seq<Msg>)

  const EMPTY_WIRE := Wire({}, map[], [])

  function AddSub(w: Wire, id: StreamId, node: NodeId, base: map<Topic, uint64>): Wire {
    Wire(w.subs + {id}, w.streams[id := Stream(node, |w.log|, base, [], 0)], w.log)
  }

  function RemoveSub(w: Wire, id: StreamId): Wire {
    w.(subs := w.subs - {id})
  }

  /** Every live subscriber outside `failed` accepts the message; the others are dropped. */
  function Broadcast(w: Wire, m: Msg, failed: set<StreamId>): Wire {
    Wire(w.subs - failed, Deliver(w.streams, w.subs - failed, m), w.log + [m])
  }

  function Accept(st: Stream, m: Msg): Stream {
    st.(sent := st.sent + [m])
  }

  function Deliver(streams: map<StreamId, Stream>, takers: set<StreamId>, m: Msg): map<StreamId, Stream> {
    map id | id in streams :: if id in takers then Accept(streams[id], m) else streams[id]
  }

  lemma DeliverKeys(streams: map<StreamId, Stream>, takers: set<StreamId>, m: Msg)
    ensures Deliver(streams, {}, m) == streams
    ensures Deliver(streams, takers, m).Keys == streams.Keys
  {
  }

  lemma DeliverOneMore(streams: map<StreamId, Stream>, takers: set<StreamId>, m: Msg, id: StreamId)
    requires id in streams && id !in takers
    ensures id in Deliver(streams, takers, m) && Deliver(streams, takers, m)[id] == streams[id]
    ensures Deliver(streams, takers + {id}, m) == Deliver(streams, takers, m)[id := Accept(streams[id], m)]
  {
  }

  /** From `w` to `w'` the messages `ms` were broadcast: a stream that is still subscribed has taken
      all of them, one that was dropped meanwhile a first part, and any other none. */
  ghost predicate Sends(w: Wire, w': Wire, ms: seq<Msg>) {
    && w'.log == w.log + ms && w'.subs <= w.subs && w'.streams.Keys == w.streams.Keys
    && forall id :: id in w.streams ==> TakesPart(w, w', id, ms)
  }

  ghost predicate TakesPart(w: Wire, w': Wire, id: StreamId, ms: seq<Msg>)
    requires id in w.streams && id in w'.streams
  {
    var st, st' := w.streams[id], w'.streams[id];
    && st'.node == st.node && st'.openedAt == st.openedAt && st'.base == st.base && st'.received == st.received
    && (exists k :: 0 <= k <= |ms| && st'.sent == st.sent + ms[..k])
    && (id in w'.subs ==> st'.sent == st.sent + ms)
    && (id !in w.subs ==> st'.sent == st.sent)
  }

  lemma SendsNone(w: Wire)
    ensures Sends(w, w, [])
  {
    forall id | id in w.streams ensures TakesPart(w, w, id, []) {
      assert w.streams[id].sent == w.streams[id].sent + [][..0];
    }
  }

  lemma SendsOne(w: Wire, m: Msg, failed: set<StreamId>)
    ensures Sends(w, Broadcast(w, m, failed), [m])
  {
    var w' := Broadcast(w, m, failed);
    forall id | id in w.streams ensures TakesPart(w, w', id, [m]) {
      var sent := w.streams[id].sent;
      assert sent == sent + [m][..0] && sent + [m] == sent + [m][..1];
    }
  }

  lemma SendsBoth(w: Wire, mid: Wire, w': Wire, a: seq<Msg>, b: seq<Msg>)
    requires Sends(w, mid, a) && Sends(mid, w', b)
    ensures Sends(w, w', a + b)
  {
    assert w.log + a + b == w.log + (a + b);
    forall id | id in w.streams ensures TakesPart(w, w', id, a + b) {
      assert TakesPart(w, mid, id, a) && TakesPart(mid, w', id, b);
      TakesBoth(w, mid, w', id, a, b);
    }
  }

  lemma TakesBoth(w: Wire, mid: Wire, w': Wire, id: StreamId, a: seq<Msg>, b: seq<Msg>)
    requires id in w.streams && id in mid.streams && id in w'.streams && mid.subs <= w.subs && w'.subs <= mid.subs
    requires TakesPart(w, mid, id, a) && TakesPart(mid, w', id, b)
    ensures TakesPart(w, w', id, a + b)
  {
    var was, now := w.streams[id].sent, w'.streams[id].sent;
    if id in mid.subs {
      assert mid.streams[id].sent == was + a;
      var k :| 0 <= k <= |b| && now == mid.streams[id].sent + b[..k];
      assert (a + b)[..|a| + k] == a + b[..k];
      assert now == was + a + b[..k] == was + (a + b[..k]);
      assert was + a + b == was + (a + b);
    } else {
      assert now == mid.streams[id].sent;
      var k :| 0 <= k <= |a| && mid.streams[id].sent == was + a[..k];
      assert (a + b)[..k] == a[..k];
      assert id in w.subs || a[..k] == [];
    }
  }

  /** Broadcasting `ms` one after another; `net(k)` are the streams on which the k-th broadcast ever
      fails. */
  function BroadcastAll(w: Wire, ms: seq<Msg>, net: nat -> set<StreamId>): Wire {
    if ms == [] then w
    else
      var mid := BroadcastAll(w, ms[..|ms| - 1], net);
      Broadcast(mid, ms[|ms| - 1], net(|mid.log|))
  }

  lemma BroadcastNext(w: Wire, ms: seq<Msg>, m: Msg, net: nat -> set<StreamId>)
    ensures var mid := BroadcastAll(w, ms, net);
            BroadcastAll(w, ms + [m], net) == Broadcast(mid, m, net(|mid.log|))
  {
    assert (ms + [m])[..|ms|] == ms;
  }

  lemma {:induction false} BroadcastBoth(w: Wire, a: seq<Msg>, b: seq<Msg>, net: nat -> set<StreamId>)
    ensures BroadcastAll(w, a + b, net) == BroadcastAll(BroadcastAll(w, a, net), b, net)
  {
    if b == [] {
      assert a + b == a;
    } else {
      BroadcastBoth(w, a, b[..|b| - 1], net);
      assert (a + b)[..|a + b| - 1] == a + b[..|b| - 1];
    }
  }

  /** No broadcast from the `from`-th up to the `to`-th fails on the stream. */
  ghost predicate Holds(net: nat -> set<StreamId>, id: StreamId, from: nat, to: nat) {
    forall k: nat :: from <= k < to ==> id !in net(k)
  }

  /** Main result: what a series of broadcasts does to the subscribers. A stream stays exactly when
      no send on it fails, and has then taken every message. */
  lemma {:induction false} BroadcastsReach(w: Wire, ms: seq<Msg>, net: nat -> set<StreamId>, id: StreamId)
    requires id in w.streams
    ensures var w' := BroadcastAll(w, ms, net);
            && Sends(w, w', ms)
            && (id in w'.subs <==> id in w.subs && Holds(net, id, |w.log|, |w.log| + |ms|))
  {
    hide Sends, Broadcast, Holds;
    if ms == [] {
      SendsNone(w);
      HoldsNone(net, id, |w.log|);
    } else {
      var init, last := ms[..|ms| - 1], ms[|ms| - 1];
      BroadcastsReach(w, init, net, id);
      BroadcastReaches(w, BroadcastAll(w, init, net), init, last, net, id);
      assert ms == init + [last];
    }
  }

  lemma HoldsNone(net: nat -> set<StreamId>, id: StreamId, n: nat)
    ensures Holds(net, id, n, n)
  {
  }

  /** ... and one on which the k-th of them is the first to fail has taken those before it. */
  lemma {:induction false} FirstFailureEnds(w: Wire, ms: seq<Msg>, net: nat -> set<StreamId>, id: StreamId, k: nat)
    requires id in w.subs && id in w.streams && k < |ms|
    requires Holds(net, id, |w.log|, |w.log| + k) && id in net(|w.log| + k)
    ensures var w' := BroadcastAll(w, ms, net);
            id in w'.streams && w'.streams[id].sent == w.streams[id].sent + ms[..k]
  {
    hide Sends, Broadcast, Holds;
    var init, last := ms[..|ms| - 1], ms[|ms| - 1];
    BroadcastsReach(w, init, net, id);
    BroadcastReaches(w, BroadcastAll(w, init, net), init, last, net, id);
    SendsLog(w, BroadcastAll(w, init, net), init);
    if k < |init| {
      FirstFailureEnds(w, init, net, id, k);
      FailedLeft(net, id, |w.log|, |w.log| + k, |w.log| + |init|);
      assert ms[..k] == init[..k];
    } else {
      assert ms[..k] == init;
    }
  }

  lemma FailedLeft(net: nat -> set<StreamId>, id: StreamId, from: nat, k: nat, to: nat)
    requires from <= k < to && id in net(k)
    ensures !Holds(net, id, from, to)
  {
  }

  lemma SendsLog(w: Wire, w': Wire, ms: seq<Msg>)
    requires Sends(w, w', ms)
    ensures |w'.log| == |w.log| + |ms| && w'.streams.Keys == w.streams.Keys
  {
  }

  lemma BroadcastReaches(w: Wire, mid: Wire, init: seq<Msg>, last: Msg, net: nat -> set<StreamId>, id: StreamId)
    requires id in w.streams && Sends(w, mid, init)
    requires id in mid.subs <==> id in w.subs && Holds(net, id, |w.log|, |w.log| + |init|)
    ensures var w', ms := Broadcast(mid, last, net(|mid.log|)), init + [last];
            && Sends(w, w', ms)
            && (id in w'.subs <==> id in w.subs && Holds(net, id, |w.log|, |w.log| + |ms|))
            && id in w'.streams && (id !in mid.subs ==> w'.streams[id] == mid.streams[id])
            && (id in mid.subs && id in net(|mid.log|) ==> w'.streams[id].sent == w.streams[id].sent + init)
  {
    SendsOne(mid, last, net(|mid.log|));
    SendsBoth(w, mid, Broadcast(mid, last, net(|mid.log|)), init, [last]);
    assert TakesPart(w, mid, id, init);
  }

  /** A broadcast under way: who has accepted, who has failed, who is still to be tried. */
  ghost predicate Split(all: set<StreamId>, takers: set<StreamId>, failed: set<StreamId>, todo: set<StreamId>) {
    all == takers + failed + todo && takers !! failed !! todo
  }

  lemma SplitNext(all: set<StreamId>, takers: set<StreamId>, failed: set<StreamId>, todo: set<StreamId>, id: StreamId)
    requires Split(all, takers, failed, todo) && id in todo
    ensures id in all && id !in takers && |takers + {id}| == |takers| + 1
    ensures Split(all, takers + {id}, failed, todo - {id})
    ensures Split(all, takers, failed + {id}, todo - {id})
    ensures all - (failed + {id}) == all - failed - {id}
  {
  }

  lemma SplitEnds(all: set<StreamId>, takers: set<StreamId>, failed: set<StreamId>)
    ensures Split(all, {}, {}, all) && all - {} == all
    ensures Split(all, takers, failed, {}) ==> takers == all - failed && failed <= all
  {
  }

  /** `Ack` overwrites the node's entry, and ignores an empty topic or node. */
  function RecordAck(ack: Acks, t: Topic, node: NodeId, n: uint64): Acks {
    if t == "" || node == "" then ack
    else
      var nodes: NodeAcks := At(ack, t, map[]);
      ack[t := nodes[node := n]]
  }

  /** The smallest acknowledgement over the nodes that acked at all, 0 if there are none. */
  ghost predicate IsMinAck(nodes: NodeAcks, v: uint64) {
    && (nodes == map[] ==> v == 0)
    && (nodes != map[] ==> exists node :: node in nodes && nodes[node] == v)
    && (forall node :: node in nodes ==> v <= nodes[node])
  }

  /** Reference definition of `minAck`. */
  ghost function MinAck(nodes: NodeAcks): (v: uint64)
    ensures IsMinAck(nodes, v)
    decreases |nodes|
  {
    if nodes == map[] then 0
    else
      var node: NodeId :| node in nodes;
      var rest: NodeAcks := nodes - {node};
      assert rest.Keys == nodes.Keys - {node};
      assert forall other :: other in nodes ==> other == node || other in rest;
      var v := MinAck(rest);
      if rest == map[] || nodes[node] < v then nodes[node] else v
  }

  /** The order of iteration cannot matter: the minimum is unique. */
  lemma MinAckUnique(nodes: NodeAcks, v: uint64)
    requires IsMinAck(nodes, v)
    ensures v == MinAck(nodes)
  {
  }

  ghost function AckedAll(ack: Acks): map<Topic, uint64> {
    map t | t in ack :: MinAck(ack[t])
  }

  /** The cutoff a reader computes for a topic from the ack map it read. */
  ghost function Cutoff(ack: Acks, t: Topic): uint64 {
    At(AckedAll(ack), t, 0)
  }

  lemma CutoffIsMin(ack: Acks, t: Topic)
    ensures IsMinAck(At(ack, t, map[]), Cutoff(ack, t))
  {
  }

  /** Because acknowledgements overwrite, a late one can take the minimum back down. */
  lemma CutoffCanFall(t: Topic, node: NodeId, n: uint64, m: uint64)
    requires t != "" && node != "" && m < n
    ensures var ack := RecordAck(map[], t, node, n);
            Cutoff(ack, t) == n && Cutoff(RecordAck(ack, t, node, m), t) == m
  {
    var ack: Acks := RecordAck(map[], t, node, n);
    CutoffIsMin(ack, t);
    CutoffIsMin(RecordAck(ack, t, node, m), t);
    assert node in ack[t] && node in RecordAck(ack, t, node, m)[t];
  }

  /** `minAck`: a fold over the map in whatever order it is iterated. */
  method MinAckOf(nodes: NodeAcks) returns (min: uint64)
    ensures IsMinAck(nodes, min)
  {
    min := 0;
    var first := true;
    var todo := nodes.Keys;
    while todo != {}
      invariant todo <= nodes.Keys
      invariant first <==> todo == nodes.Keys
      invariant first ==> min == 0
      invariant !first ==> exists node :: node in nodes && node !in todo && nodes[node] == min
      invariant forall node :: node in nodes && node !in todo ==> min <= nodes[node]
      decreases |todo|
    {
      var node :| node in todo;
      todo := todo - {node};
      assert node in nodes && node !in todo;
      if first || nodes[node] < min {
        min := nodes[node];
        first := false;
      }
    }
    if first {
      min := 0;
      assert nodes.Keys == {};
    }
  }

  /** The server's state in place. `net` is the network: on which streams the k-th broadcast fails.
      The subscribers' map is made when the first one arrives. The streams and the broadcast order
      are what the network sees, kept as ghost state. */
  class Server {
    const net: nat -> set<StreamId>
    var count: nat
    var serving: bool
    var made: bool
    var subs: set<StreamId>
    var lastSeq: map<Topic, uint64>
    var ack: Acks
    ghost var streams: map<StreamId, Stream>
    ghost var log: seq<Msg>

    ghost function Value(): Wire
      reads this
    {
      Wire(subs, streams, log)
    }

    ghost predicate Valid()
      reads this
    {
      && (forall id :: id in subs ==> id in streams)
      && count == |log| && (!made ==> subs == {})
    }

    constructor (net: nat -> set<StreamId>)
      ensures Valid() && serving && !made && Value() == EMPTY_WIRE && ack == map[] && lastSeq == map[]
      ensures this.net == net
    {
      this.net, count, made := net, 0, false;
      serving, subs, lastSeq, ack, streams, log := true, {}, map[], map[], map[], [];
    }

    method Subscribe(id: StreamId, ghost node: NodeId, ghost base: map<Topic, uint64>)
      requires Valid() && id !in streams
      modifies this
      ensures Valid() && ack == old(ack) && lastSeq == old(lastSeq) && serving == old(serving)
      ensures Value() == if serving then AddSub(old(Value()), id, node, base) else old(Value())
      ensures made == (serving || old(made))
    {
      if serving {
        made := true;
        subs := subs + {id};
        streams := streams[id := Stream(node, |log|, base, [], 0)];
      }
    }

    method Unsubscribe(id: StreamId)
      requires Valid()
      modifies this
      ensures Valid() && ack == old(ack) && lastSeq == old(lastSeq) && serving == old(serving)
      ensures Value() == RemoveSub(old(Value()), id) && made == old(made)
    {
      subs := subs - {id};
    }

    /** One iteration of the broadcast: whether the stream takes the message is up to the network,
        and a stream that does not is dropped. */
    method SendMsg(id: StreamId, msg: Msg) returns (ok: bool)
      requires id in subs && id in streams
      modifies this`subs, this`streams
      ensures ok <==> id !in net(count)
      ensures ok ==> subs == old(subs) && streams == old(streams)[id := Accept(old(streams)[id], msg)]
      ensures !ok ==> subs == old(subs) - {id} && streams == old(streams)
    {
      ok := id !in net(count);
      if ok {
        streams := streams[id := Accept(streams[id], msg)];
      } else {
        subs := subs - {id};
      }
    }

    /** The loop over the subscribers, in any order. */
    method SendAll(msg: Msg) returns (cnt: nat)
      requires Valid()
      modifies this`subs, this`streams
      ensures subs == old(subs) - net(count) && streams == Deliver(old(streams), subs, msg) && cnt == |subs|
    {
      hide Deliver, Split;
      var todo := subs;
      ghost var was, takers: set<StreamId>, failed: set<StreamId> := streams, {}, {};
      cnt := 0;
      SplitEnds(subs, takers, failed);
      DeliverKeys(was, takers, msg);
      while todo != {}
        invariant Split(old(subs), takers, failed, todo)
        invariant subs == old(subs) - failed && cnt == |takers|
        invariant failed <= net(count) && takers !! net(count)
        invariant streams == Deliver(was, takers, msg)
        modifies this`subs, this`streams
        decreases |todo|
      {
        var id: StreamId :| id in todo;
        SplitNext(old(subs), takers, failed, todo, id);
        DeliverKeys(was, takers, msg);
        DeliverOneMore(was, takers, msg, id);
        todo := todo - {id};
        var ok := SendMsg(id, msg);
        if ok {
          cnt := cnt + 1;
          takers := takers + {id};
        } else {
          failed := failed + {id};
        }
      }
      SplitEnds(old(subs), takers, failed);
      assert takers == old(subs) - net(count);
    }

    method BroadcastWithSeq(t: Topic, data: Bytes, n: uint64) returns (cnt: nat)
      requires Valid()
      modifies this
      ensures Valid() && ack == old(ack) && serving == old(serving) && made == old(made)
      ensures cnt == |subs| && Value() == Broadcast(old(Value()), Msg(t, data, n), net(|old(log)|))
      ensures lastSeq == if made then old(lastSeq)[t := n] else old(lastSeq)
    {
      hide Deliver;
      var msg := Msg(t, data, n);
      DeliverKeys(streams, subs - net(count), msg);
      cnt := SendAll(msg);
      log := log + [msg];
      count := count + 1;
      if made {
        lastSeq := lastSeq[t := n];
      }
    }

    method Ack(t: Topic, node: NodeId, n: uint64)
      requires Valid()
      modifies this
      ensures Valid() && Value() == old(Value()) && lastSeq == old(lastSeq)
      ensures serving == old(serving) && made == old(made)
      ensures ack == RecordAck(old(ack), t, node, n)
    {
      if t != "" && node != "" {
        if t !in ack {
          ack := ack[t := map[]];
        }
        var nodes: NodeAcks := ack[t];
        ack := ack[t := nodes[node := n]];
      }
    }

    method AckedAllNow() returns (out: map<Topic, uint64>)
      ensures out == AckedAll(ack)
    {
      out := map[];
      var todo := ack.Keys;
      while todo != {}
        invariant todo <= ack.Keys
        invariant out == map t | t in ack && t !in todo :: MinAck(ack[t])
        decreases |todo|
      {
        var t :| t in todo;
        todo := todo - {t};
        var min := MinAckOf(ack[t]);
        MinAckUnique(ack[t], min);
        out := out[t := min];
      }
    }
  }
}
