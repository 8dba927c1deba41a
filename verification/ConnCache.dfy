/** The reference-counted cache of client connections: one critical section per function, and
    the in-place manager that implements them. */
module ConnCache {
  import opened Base

  type Target = string
  type Conn = nat

  datatype Entry = Entry(cc: Conn, lastUsed: int, ref: nat)

  /** The cache and its counters. `closed` are the connections Close was called on, `closes` the
      number of such calls. */
  datatype Cache = Cache(
    conns: map<Target, Entry>,
    closed: set<Conn>,
    closes: nat,
    dials: nat,
    evictions: nat,
    active: int)

  const EMPTY_CACHE := Cache(map[], {}, 0, 0, 0, 0)

  function Use(e: Entry, now: int): Entry {
    Entry(e.cc, now, e.ref + 1)
  }

  /** The first locked section of `Get`, on a hit. */
  function Hit(m: Cache, target: Target, now: int): Cache
    requires target in m.conns
  {
    m.(conns := m.conns[target := Use(m.conns[target], now)])
  }

  /** The second locked section of `Get`: install a fresh connection, or lose the race, close it
      and use the existing one. */
  function Install(m: Cache, target: Target, cc: Conn, now: int): Cache {
    if target in m.conns then
      m.(conns := m.conns[target := Use(m.conns[target], now)], closed := m.closed + {cc}, closes := m.closes + 1)
    else
      m.(conns := m.conns[target := Entry(cc, now, 1)], dials := m.dials + 1, active := m.active + 1)
  }

  function Release(m: Cache, target: Target, now: int): Cache {
    if target !in m.conns then m
    else
      var e := m.conns[target];
      m.(conns := m.conns[target := Entry(e.cc, now, if e.ref > 0 then e.ref - 1 else 0)])
  }

  function IdleTargets(m: Cache, cutoff: int): set<Target> {
    set t | t in m.conns && m.conns[t].ref == 0 && m.conns[t].lastUsed < cutoff
  }

  function ConnsOf(conns: map<Target, Entry>, ts: set<Target>): set<Conn>
    requires ts <= conns.Keys
  {
    set t | t in ts :: conns[t].cc
  }

  /** Closing and dropping a set of entries. */
  function Drop(m: Cache, ts: set<Target>): Cache
    requires ts <= m.conns.Keys
  {
    m.(conns := m.conns - ts, closed := m.closed + ConnsOf(m.conns, ts), closes := m.closes + |ts|)
  }

  /** One janitor tick. */
  function Evict(m: Cache, cutoff: int): Cache {
    Uncount(m, IdleTargets(m, cutoff))
  }

  /** Dropping a set of entries as evictions. */
  function Uncount(m: Cache, ts: set<Target>): Cache
    requires ts <= m.conns.Keys
  {
    Drop(m, ts).(evictions := m.evictions + |ts|, active := m.active - |ts|)
  }

  /** `Close` empties the cache and leaves the counters alone. */
  function CloseAll(m: Cache): Cache {
    Drop(m, m.conns.Keys)
  }

  function DropOne(m: Cache, t: Target): Cache
    requires t in m.conns
  {
    m.(conns := m.conns - {t}, closed := m.closed + {m.conns[t].cc}, closes := m.closes + 1)
  }

  lemma DropNone(m: Cache)
    ensures Drop(m, {}) == m && Uncount(m, {}) == m
  {
  }

  lemma DropNext(m: Cache, ts: set<Target>, t: Target)
    requires ts <= m.conns.Keys && t in m.conns && t !in ts
    ensures t in Drop(m, ts).conns && Drop(m, ts).conns[t] == m.conns[t]
    ensures Drop(m, ts + {t}) == DropOne(Drop(m, ts), t)
    ensures Uncount(m, ts + {t}) ==
            DropOne(Uncount(m, ts), t).(evictions := Uncount(m, ts).evictions + 1, active := Uncount(m, ts).active - 1)
  {
  }

  /** A sweep over `all` that drops `idle` has dropped `idle - todo` so far. */
  lemma SweepNext(idle: set<Target>, todo: set<Target>, t: Target)
    requires t in todo
    ensures t !in idle - todo
    ensures idle - (todo - {t}) == if t in idle then (idle - todo) + {t} else idle - todo
  {
  }

  lemma SweepEnds(idle: set<Target>, all: set<Target>)
    requires idle <= all
    ensures idle - all == {} && idle - {} == idle
  {
  }

  class ConnManager {
    const ttl: int
    var conns: map<Target, Entry>
    var closed: set<Conn>
    var closes: nat
    var dials: nat
    var evictions: nat
    var active: int

    function Value(): Cache
      reads this
    {
      Cache(conns, closed, closes, dials, evictions, active)
    }

    constructor (ttl: int)
      ensures this.ttl == (if ttl <= 0 then 30_000_000_000 else ttl) && Value() == EMPTY_CACHE
    {
      this.ttl := if ttl <= 0 then 30_000_000_000 else ttl;
      conns, closed, closes, dials, evictions, active := map[], {}, 0, 0, 0, 0;
    }

    /** First half of `Get`: None means that the caller has to dial. */
    method LookupConn(target: Target, now: int) returns (cc: Option<Conn>)
      modifies this
      ensures Value() == if target in old(conns) then Hit(old(Value()), target, now) else old(Value())
      ensures cc == if target in old(conns) then Some(old(conns)[target].cc) else None
    {
      if target in conns {
        conns := conns[target := Use(conns[target], now)];
        return Some(conns[target].cc);
      }
      return None;
    }

    /** Second half of `Get`, after a successful dial. */
    method InstallConn(target: Target, cc: Conn, now: int) returns (out: Conn)
      modifies this
      ensures Value() == Install(old(Value()), target, cc, now)
      ensures target in conns && out == conns[target].cc
    {
      if target in conns {
        closed, closes := closed + {cc}, closes + 1;
        conns := conns[target := Use(conns[target], now)];
        return conns[target].cc;
      }
      conns := conns[target := Entry(cc, now, 1)];
      dials, active := dials + 1, active + 1;
      return cc;
    }

    method ReleaseConn(target: Target, now: int)
      modifies this
      ensures Value() == Release(old(Value()), target, now)
    {
      if target in conns {
        var e := conns[target];
        var ref := if e.ref > 0 then e.ref - 1 else e.ref;
        conns := conns[target := Entry(e.cc, now, ref)];
      }
    }

    method DropEntry(t: Target)
      requires t in conns
      modifies this`conns, this`closed, this`closes
      ensures Value() == DropOne(old(Value()), t)
    {
      closed, closes := closed + {conns[t].cc}, closes + 1;
      conns := conns - {t};
    }

    /** The janitor's sweep, in any order. */
    method JanitorTick(now: int)
      modifies this
      ensures Value() == Evict(old(Value()), now - ttl)
    {
      hide Drop, DropOne;
      var cutoff := now - ttl;
      ghost var was, idle := Value(), IdleTargets(Value(), cutoff);
      var todo := conns.Keys;
      DropNone(was);
      SweepEnds(idle, todo);
      while todo != {}
        invariant todo <= was.conns.Keys && Value() == Uncount(was, idle - todo)
        decreases |todo|
      {
        hide Uncount;
        var t :| t in todo;
        SweepNext(idle, todo, t);
        DropNext(was, idle - todo, t);
        assert conns[t] == was.conns[t];
        todo := todo - {t};
        if conns[t].ref == 0 && conns[t].lastUsed < cutoff {
          DropEntry(t);
          evictions, active := evictions + 1, active - 1;
        }
      }
      SweepEnds(idle, was.conns.Keys);
    }

    method Close()
      modifies this
      ensures Value() == CloseAll(old(Value()))
    {
      hide Drop, DropOne;
      ghost var was, all := Value(), conns.Keys;
      var todo := conns.Keys;
      DropNone(was);
      SweepEnds(all, all);
      while todo != {}
        invariant todo <= all && Value() == Drop(was, all - todo)
        decreases |todo|
      {
        var t :| t in todo;
        SweepNext(all, todo, t);
        DropNext(was, all - todo, t);
        todo := todo - {t};
        DropEntry(t);
      }
      SweepEnds(all, all);
    }
  }
}
