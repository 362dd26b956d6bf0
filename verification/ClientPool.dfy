/** The pool of backend connections of the z3950_client filter: what each region under the mutex does
    to the connections, src/filter_z3950_client.cpp:328-487 and 626-651. */
module ClientPool {
  /** The fields of an Assoc that the pool reads and writes. */
  datatype Assoc = Assoc(host: string, inUse: bool, queueLen: int, destroyed: bool)

  /** m_clients: one connection for a session. */
  type Clients = map<nat, Assoc>

  function OfHost(clients: Clients, host: string): set<nat> {
    set s | s in clients && clients[s].host == host
  }

  function IdleOf(clients: Clients, host: string): set<nat> {
    set s | s in clients && clients[s].host == host && !clients[s].inUse
  }

  /** A thread enters the queue of its session's connection. */
  function Join(clients: Clients, s: nat): Clients
    requires s in clients
  {
    clients[s := clients[s].(queueLen := clients[s].queueLen + 1)]
  }

  /** It takes the connection if nobody uses it, and waits otherwise. */
  function Take(clients: Clients, s: nat): (r: (Clients, bool))
    requires s in clients
  {
    if clients[s].inUse then (clients, false) else (clients[s := clients[s].(inUse := true)], true)
  }

  datatype Limit = Room | AllBusy | Reached

  /** Whether one more connection to the host is allowed; max 0 means no limit. */
  function CheckLimit(clients: Clients, host: string, max: nat): Limit {
    if max == 0 || |OfHost(clients, host)| < max then Room
    else if IdleOf(clients, host) == {} then AllBusy
    else Reached
  }

  function Create(clients: Clients, s: nat, host: string): Clients {
    clients[s := Assoc(host, true, 1, false)]
  }

  function Without(clients: Clients, s: nat): Clients {
    map k | k in clients && k != s :: clients[k]
  }

  function Release(clients: Clients, s: nat, closed: bool): Clients {
    if s !in clients then clients
    else
      var a := clients[s].(inUse := false, queueLen := clients[s].queueLen - 1, destroyed := closed || clients[s].destroyed);
      if closed && a.queueLen == 0 then Without(clients, s) else clients[s := a]
  }
}
