/** The pool as the objects it is made of: m_clients and the Assoc objects in it, with the regions of
    get_assoc and release_assoc as methods, src/filter_z3950_client.cpp:328-487 and 626-651. */
module ClientClass {
  import opened ClientPool
  import opened ClientProtocol
  import opened Options

  class Connection {
    const host: string
    var inUse: bool
    var queueLen: int
    var destroyed: bool

    constructor (host: string)
      ensures this.host == host && inUse && queueLen == 1 && !destroyed
    {
      this.host, inUse, queueLen, destroyed := host, true, 1, false;
    }

    ghost function Value(): Assoc
      reads this
    {
      Assoc(host, inUse, queueLen, destroyed)
    }
  }

  class ConnectionPool {
    var connections: map<nat, Connection>
    ghost var pool: Clients  // what the objects stand for

    ghost predicate Valid()
      reads this, connections.Values
    {
      && pool.Keys == connections.Keys
      && (forall s :: s in connections ==> pool[s] == connections[s].Value())
      && forall s, k :: s in connections && k in connections && connections[s] == connections[k] ==> s == k
    }

    constructor ()
      ensures Valid() && pool == map[] && connections == map[]
    {
      connections, pool := map[], map[];
    }

    /** The ghost value follows a change to one connection. */
    twostate lemma Changed(s: nat)
      requires old(Valid()) && s in connections && connections == old(connections)
      requires forall k :: k in connections && k != s ==> connections[k].Value() == old(connections[k].Value())
      requires pool == old(pool)[s := connections[s].Value()]
      ensures Valid()
    {
    }

    method EnterQueue(s: nat)
      requires Valid() && s in connections
      modifies this`pool, connections[s]
      ensures Valid() && pool == Join(old(pool), s)
    {
      var c := connections[s];
      c.queueLen := c.queueLen + 1;
      pool := pool[s := c.Value()];
      Changed(s);
    }

    /** The loop that waits for the session's connection, from its test on. */
    method RetryTake(s: nat, closed: bool) returns (thread: Thread)
      requires Valid() && s in connections
      modifies this`pool, connections[s]
      ensures Valid() && (pool, thread) == TakeOrWait(old(pool), s, closed)
    {
      var c := connections[s];
      if !c.inUse {
        c.inUse := true;
        pool := pool[s := c.Value()];
        Changed(s);
        return Holding(s, closed, false);
      }
      return Waiting(s, closed);
    }

    lemma PoolShows(s: nat)
      requires Valid() && s in connections
      ensures s in pool && pool[s] == Assoc(connections[s].host, connections[s].inUse, connections[s].queueLen, connections[s].destroyed)
    {
    }

    /** The connections to a host, and those not in use, outside rest. */
    static ghost function NumberOutside(pool: Clients, host: string, rest: set<nat>): (int, int) {
      (|OfHost(pool, host) - rest|, |IdleOf(pool, host) - rest|)
    }

    static lemma CountStep(pool: Clients, host: string, rest: set<nat>, s: nat)
      requires s in rest && s in pool
      ensures var (number, idle) := NumberOutside(pool, host, rest);
              NumberOutside(pool, host, rest - {s}) == (number + B(pool[s].host == host), idle + B(pool[s].host == host && !pool[s].inUse))
    {
      assert s in OfHost(pool, host) <==> pool[s].host == host;
      assert s in IdleOf(pool, host) <==> pool[s].host == host && !pool[s].inUse;
      OneMore(OfHost(pool, host), rest, s);
      OneMore(IdleOf(pool, host), rest, s);
    }

    static lemma OneMore(x: set<nat>, rest: set<nat>, s: nat)
      requires s in rest
      ensures |x - (rest - {s})| == |x - rest| + B(s in x)
    {
      assert x - (rest - {s}) == if s in x then (x - rest) + {s} else x - rest;
    }

    static lemma CountEnds(pool: Clients, host: string)
      ensures NumberOutside(pool, host, pool.Keys) == (0, 0)
      ensures NumberOutside(pool, host, {}) == (|OfHost(pool, host)|, |IdleOf(pool, host)|)
    {
      var (x, y) := (OfHost(pool, host), IdleOf(pool, host));
      assert x - {} == x && y - {} == y && x - pool.Keys == {} && y - pool.Keys == {};
    }

    lemma KeysShown()
      requires Valid()
      ensures pool.Keys == connections.Keys
    {
    }

    /** The number of connections to a host, and of those not in use. */
    method CountHost(host: string) returns (number: nat, noNotInUse: nat)
      requires Valid()
      ensures number == |OfHost(pool, host)| && noNotInUse == |IdleOf(pool, host)|
    {
      hide OfHost, IdleOf, Valid, NumberOutside;
      KeysShown();
      CountEnds(pool, host);
      number, noNotInUse := 0, 0;
      var rest := connections.Keys;
      while rest != {}
        invariant rest <= connections.Keys
        invariant (number, noNotInUse) == NumberOutside(pool, host, rest)
      {
        var s :| s in rest;
        PoolShows(s);
        CountStep(pool, host, rest, s);
        rest := rest - {s};
        if connections[s].host == host {
          number := number + 1;
          if !connections[s].inUse {
            noNotInUse := noNotInUse + 1;
          }
        }
      }
    }

    method CheckRoom(host: string, max: nat) returns (limit: Limit)
      requires Valid()
      ensures limit == CheckLimit(pool, host, max)
    {
      hide OfHost, IdleOf, Valid;
      if max == 0 {
        return Room;
      }
      var number, noNotInUse := CountHost(host);
      if number < max {
        return Room;
      }
      return if noNotInUse == 0 then AllBusy else Reached;
    }

    method AddConnection(s: nat, host: string)
      requires Valid()
      modifies this
      ensures Valid() && pool == Create(old(pool), s, host)
    {
      var c := new Connection(host);
      connections := connections[s := c];
      pool := pool[s := c.Value()];
    }

    /** get_assoc up to its return or its first wait: what becomes of the thread. */
    method GetAssoc(req: Request, max: nat) returns (thread: Thread)
      requires Valid()
      modifies this, connections.Values
      ensures Valid() && (pool, thread) == ClientProtocol.GetAssoc(old(pool), req, max)
    {
      if req.session in connections {
        EnterQueue(req.session);
        thread := RetryTake(req.session, req.closed);
        return;
      }
      match req.kind {
        case Foreign =>
          return Free;
        case Other =>
          return Free;
        case Init(target) =>
          if target.None? {
            return Free;
          }
          thread := WaitForRoom(req.session, req.closed, target.value, max);
      }
    }

    /** The loop that waits for room, from its count on. */
    method WaitForRoom(s: nat, closed: bool, host: string, max: nat) returns (thread: Thread)
      requires Valid()
      modifies this
      ensures Valid() && (pool, thread) == CreateOrWait(old(pool), s, closed, host, max)
    {
      var limit := CheckRoom(host, max);
      match limit {
        case Room =>
          AddConnection(s, host);
          thread := Holding(s, closed, false);
        case AllBusy =>
          thread := Free;
        case Reached =>
          thread := AtLimit(s, closed, host);
      }
    }

    /** The first part of release_assoc: the fields of the connection. */
    method LeaveQueue(s: nat, closed: bool)
      requires Valid() && s in connections
      modifies this`pool, connections[s]
      ensures Valid() && connections == old(connections) && s in old(pool)
      ensures var a := old(pool)[s];
              pool == old(pool)[s := a.(inUse := false, queueLen := a.queueLen - 1, destroyed := closed || a.destroyed)]
    {
      var c := connections[s];
      c.inUse := false;
      c.queueLen := c.queueLen - 1;
      if closed {
        c.destroyed := true;
      }
      pool := pool[s := c.Value()];
      Changed(s);
    }

    /** release_assoc. */
    method ReleaseAssoc(s: nat, closed: bool)
      requires Valid()
      modifies this, connections.Values
      ensures Valid() && pool == Release(old(pool), s, closed)
    {
      KeysShown();
      if s !in connections {
        return;
      }
      LeaveQueue(s, closed);
      PoolShows(s);
      if closed && connections[s].queueLen == 0 {
        Erase(s);
        assert pool == Without(old(pool), s);
      }
    }

    method Erase(s: nat)
      requires Valid()
      modifies this
      ensures Valid() && pool == Without(old(pool), s)
    {
      connections := map k | k in connections && k != s :: connections[k];
      pool := Without(pool, s);
    }
  }
}
