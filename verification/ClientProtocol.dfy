/** The threads that share the pool: every region under the mutex is one step,
    src/filter_z3950_client.cpp:328-487, 515-540, 626-651. */
module ClientProtocol {
  import opened ClientPool
  import opened Options

  /** What arrives: not Z39.50, an Init with the target it names (if it names exactly one), or any other PDU. */
  datatype Kind = Foreign | Init(target: Option<string>) | Other

  /** closed is the flag of the package's own copy of its session. */
  datatype Request = Request(session: nat, closed: bool, kind: Kind)

  datatype Thread =
    | Free
    | Waiting(session: nat, closed: bool)                 // m_cond_session_ready.wait, for its connection
    | AtLimit(session: nat, closed: bool, host: string)   // timed_wait, for room for a new connection
    | Holding(session: nat, closed: bool, sent: bool)     // between get_assoc and release_assoc

  /** notified: the waiting threads that have been woken since they began to wait. */
  datatype Pool = Pool(clients: Clients, threads: map<nat, Thread>, notified: set<nat>)

  datatype Step =
    | Enter(t: nat, req: Request)
    | Wake(t: nat)
    | Recheck(t: nat, timedOut: bool)
    | Send(t: nat, closes: bool)
    | Finish(t: nat)

  predicate Creates(req: Request, clients: Clients) {
    req.session !in clients && req.kind.Init? && req.kind.target.Some?
  }

  /** What a thread may do next. A woken thread may find that it has to wait again. */
  predicate Enabled(p: Pool, step: Step) {
    step.t in p.threads &&
    match step
    case Enter(t, req) => p.threads[t] == Free
    case Wake(t) => p.threads[t].Waiting?
    case Recheck(t, _) => p.threads[t].AtLimit?
    case Send(t, _) => p.threads[t].Holding? && !p.threads[t].sent
    case Finish(t) => p.threads[t].Holding? && p.threads[t].sent
  }

  /** No session sends a second Init while a thread waits for room on behalf of its first. */
  ghost predicate OneInit(p: Pool, step: Step) {
    step.Enter? && Creates(step.req, p.clients) ==>
      forall u :: u in p.threads && p.threads[u].AtLimit? ==> p.threads[u].session != step.req.session
  }

  function Moved(p: Pool, clients: Clients, t: nat, thread: Thread): Pool {
    Pool(clients, p.threads[t := thread], p.notified - {t})
  }

  /** The loop that waits for the connection, from its test on: the pool and what becomes of the thread. */
  function TakeOrWait(clients: Clients, s: nat, closed: bool): (Clients, Thread)
    requires s in clients
  {
    var (clients', got) := Take(clients, s);
    (clients', if got then Holding(s, closed, false) else Waiting(s, closed))
  }

  /** The loop that waits for room, from its count on. */
  function CreateOrWait(clients: Clients, s: nat, closed: bool, host: string, max: nat): (Clients, Thread) {
    match CheckLimit(clients, host, max)
    case Room => (Create(clients, s, host), Holding(s, closed, false))
    case AllBusy => (clients, Free)
    case Reached => (clients, AtLimit(s, closed, host))
  }

  /** get_assoc up to its return or its first wait. */
  function GetAssoc(clients: Clients, req: Request, max: nat): (Clients, Thread) {
    if req.session in clients then TakeOrWait(Join(clients, req.session), req.session, req.closed)
    else if Creates(req, clients) then CreateOrWait(clients, req.session, req.closed, req.kind.target.value, max)
    else (clients, Free)
  }

  function TryTake(p: Pool, clients: Clients, t: nat, s: nat, closed: bool): Pool
    requires s in clients
  {
    var (clients', thread) := TakeOrWait(clients, s, closed);
    Moved(p, clients', t, thread)
  }

  function TryCreate(p: Pool, t: nat, s: nat, closed: bool, host: string, max: nat): Pool {
    var (clients, thread) := CreateOrWait(p.clients, s, closed, host, max);
    Moved(p, clients, t, thread)
  }

  /** Whether the request is relayed; a destroyed connection sends nothing. */
  predicate Relays(p: Pool, s: nat) {
    s in p.clients && !p.clients[s].destroyed
  }

  function Apply(p: Pool, step: Step, max: nat): Pool
    requires Enabled(p, step)
  {
    var thread := p.threads[step.t];
    match step
    case Enter(t, req) =>
      var (clients, thread) := GetAssoc(p.clients, req, max);
      Moved(p, clients, t, thread)
    case Wake(t) =>
      if thread.session in p.clients then TryTake(p, p.clients, t, thread.session, thread.closed) else p
    case Recheck(t, timedOut) =>
      if timedOut then Moved(p, p.clients, t, Free)
      else TryCreate(p, t, thread.session, thread.closed, thread.host, max)
    case Send(t, closes) =>
      Moved(p, p.clients, t, Holding(thread.session, thread.closed || (closes && Relays(p, thread.session)), true))
    case Finish(t) =>
      Pool(Release(p.clients, thread.session, thread.closed), p.threads[t := Free], p.threads.Keys)
  }

  // ---------- the invariant ----------

  predicate Uses(thread: Thread, s: nat) {
    (thread.Waiting? || thread.Holding?) && thread.session == s
  }

  predicate Holds(thread: Thread, s: nat) {
    thread.Holding? && thread.session == s
  }

  function Users(threads: map<nat, Thread>, s: nat): set<nat> {
    set t | t in threads && Uses(threads[t], s)
  }

  function Holders(threads: map<nat, Thread>, s: nat): set<nat> {
    set t | t in threads && Holds(threads[t], s)
  }

  /** What a thread waits for or holds is there. */
  ghost predicate Present(p: Pool) {
    forall t :: t in p.threads && (p.threads[t].Waiting? || p.threads[t].Holding?) ==> p.threads[t].session in p.clients
  }

  /** m_queue_len counts the holder and the waiters, and m_in_use says whether there is a holder. */
  ghost predicate Counted(p: Pool) {
    forall s :: s in p.clients ==>
      && p.clients[s].queueLen == |Users(p.threads, s)|
      && |Holders(p.threads, s)| == if p.clients[s].inUse then 1 else 0
  }

  predicate SameWait(a: Thread, b: Thread) {
    a.AtLimit? && b.AtLimit? && a.session == b.session
  }

  /** A session waiting for room has no connection, and waits in one thread. */
  ghost predicate Apart(p: Pool) {
    && (forall t :: t in p.threads && p.threads[t].AtLimit? ==> p.threads[t].session !in p.clients)
    && (forall t, u :: t in p.threads && u in p.threads && SameWait(p.threads[t], p.threads[u]) ==> t == u)
  }

  ghost predicate Limited(p: Pool, max: nat) {
    max > 0 ==> forall host :: |OfHost(p.clients, host)| <= max
  }

  /** A thread that has not been woken still has what it waits for against it. */
  ghost predicate Alert(p: Pool, max: nat) {
    && (forall t :: t in p.threads && p.threads[t].Waiting? && p.threads[t].session in p.clients && t !in p.notified
          ==> p.clients[p.threads[t].session].inUse)
    && (forall t :: t in p.threads && p.threads[t].AtLimit? && t !in p.notified
          ==> max > 0 && |OfHost(p.clients, p.threads[t].host)| >= max)
  }

  ghost predicate Inv(p: Pool, max: nat) {
    Present(p) && Counted(p) && Apart(p) && Limited(p, max) && Alert(p, max)
  }

  ghost predicate Initial(p: Pool) {
    p.clients == map[] && forall t :: t in p.threads ==> p.threads[t] == Free
  }

  // ---------- every step keeps it ----------

  function B(b: bool): int { if b then 1 else 0 }

  /** One thread changes. */
  ghost predicate Follows(p: Pool, q: Pool, t: nat) {
    t in p.threads && t in q.threads && q.threads == p.threads[t := q.threads[t]]
  }

  lemma UsersAfter(threads: map<nat, Thread>, t: nat, thread: Thread, s: nat)
    requires t in threads
    ensures |Users(threads[t := thread], s)| == |Users(threads, s)| - B(Uses(threads[t], s)) + B(Uses(thread, s))
    ensures |Holders(threads[t := thread], s)| == |Holders(threads, s)| - B(Holds(threads[t], s)) + B(Holds(thread, s))
  {
    var after := threads[t := thread];
    assert Users(after, s) - {t} == Users(threads, s) - {t};
    assert Holders(after, s) - {t} == Holders(threads, s) - {t};
    Minus(Users(after, s), t); Minus(Users(threads, s), t);
    Minus(Holders(after, s), t); Minus(Holders(threads, s), t);
  }

  lemma Minus(x: set<nat>, t: nat)
    ensures |x| == |x - {t}| + B(t in x)
  {
    if t !in x { assert x - {t} == x; }
  }

  lemma HostsAfter(clients: Clients, s: nat, a: Assoc, host: string)
    ensures |OfHost(clients[s := a], host)| == |OfHost(clients, host)| - B(s in clients && clients[s].host == host) + B(a.host == host)
    ensures |OfHost(Without(clients, s), host)| == |OfHost(clients, host)| - B(s in clients && clients[s].host == host)
  {
    var (x, y, z) := (OfHost(clients, host), OfHost(clients[s := a], host), OfHost(Without(clients, s), host));
    assert y - {s} == x - {s} && z - {s} == x - {s};
    Minus(x, s); Minus(y, s); Minus(z, s);
  }

  /** What the connection of session s must have become. */
  ghost predicate CountsFollow(p: Pool, q: Pool, t: nat, s: nat)
    requires t in p.threads && t in q.threads && s in q.clients
  {
    if s in p.clients then
      && q.clients[s].queueLen == p.clients[s].queueLen - B(Uses(p.threads[t], s)) + B(Uses(q.threads[t], s))
      && B(q.clients[s].inUse) == B(p.clients[s].inUse) - B(Holds(p.threads[t], s)) + B(Holds(q.threads[t], s))
    else
      q.clients[s].queueLen == B(Uses(q.threads[t], s)) && B(q.clients[s].inUse) == B(Holds(q.threads[t], s))
  }

  lemma KeepCounted(p: Pool, q: Pool, t: nat)
    requires Present(p) && Counted(p) && Follows(p, q, t)
    requires forall s :: s in q.clients ==> CountsFollow(p, q, t, s)
    ensures Counted(q)
  {
    hide Uses, Holds, Users, Holders;
    forall s | s in q.clients
      ensures q.clients[s].queueLen == |Users(q.threads, s)| && |Holders(q.threads, s)| == B(q.clients[s].inUse)
    {
      UsersAfter(p.threads, t, q.threads[t], s);
      assert CountsFollow(p, q, t, s);
      if s !in p.clients { NoUsers(p, s); UsersMember(p, t, s); }
    }
  }

  lemma NoUsers(p: Pool, s: nat)
    requires Present(p) && s !in p.clients
    ensures Users(p.threads, s) == {} && Holders(p.threads, s) == {}
  {
  }

  lemma UsersMember(p: Pool, t: nat, s: nat)
    requires Present(p) && s !in p.clients && t in p.threads
    ensures !Uses(p.threads[t], s) && !Holds(p.threads[t], s)
  {
  }

  /** In a counted pool, the holder of a connection is in its queue and alone. */
  lemma HolderIs(p: Pool, t: nat, s: nat)
    requires Present(p) && Counted(p) && t in p.threads && Holds(p.threads[t], s)
    ensures s in p.clients && p.clients[s].inUse && p.clients[s].queueLen >= 1 && Holders(p.threads, s) == {t}
  {
    var h := Holders(p.threads, s);
    assert t in h && t in Users(p.threads, s);
    Minus(h, t);
    Minus(Users(p.threads, s), t);
    assert h == {t} + (h - {t});
  }

  /** Connections stay, except one without users. */
  lemma KeepPresent(p: Pool, q: Pool, t: nat)
    requires Present(p) && Follows(p, q, t)
    requires forall s :: s in p.clients && s !in q.clients ==> Users(q.threads, s) == {}
    requires q.threads[t].Waiting? || q.threads[t].Holding? ==> q.threads[t].session in q.clients
    ensures Present(q)
  {
    forall u | u in q.threads && (q.threads[u].Waiting? || q.threads[u].Holding?) ensures q.threads[u].session in q.clients {
      assert u in Users(q.threads, q.threads[u].session);
    }
  }

  lemma KeepApart(p: Pool, q: Pool, t: nat)
    requires Apart(p) && Follows(p, q, t)
    requires forall s :: s in q.clients && s !in p.clients ==> p.threads[t] == Free || p.threads[t].session == s
    requires forall s :: s in q.clients && s !in p.clients ==> forall u :: u in p.threads && u != t && p.threads[u].AtLimit? ==> p.threads[u].session != s
    requires q.threads[t].AtLimit? ==>
      && q.threads[t].session !in q.clients
      && forall u :: u in p.threads && u != t && p.threads[u].AtLimit? ==> p.threads[u].session != q.threads[t].session
    ensures Apart(q)
  {
    forall u | u in q.threads && q.threads[u].AtLimit? ensures q.threads[u].session !in q.clients {
      if u != t { assert q.threads[u] == p.threads[u]; }
    }
  }

  lemma KeepLimited(p: Pool, q: Pool, max: nat)
    requires Limited(p, max) && (max > 0 ==> forall host :: |OfHost(q.clients, host)| <= |OfHost(p.clients, host)| || |OfHost(q.clients, host)| <= max)
    ensures Limited(q, max)
  {
    hide OfHost;
  }

  lemma KeepAlert(p: Pool, q: Pool, t: nat, max: nat)
    requires Alert(p, max) && Follows(p, q, t) && q.notified == p.notified - {t}
    requires forall s :: s in q.clients && s in p.clients && p.clients[s].inUse ==> q.clients[s].inUse
    requires forall host :: |OfHost(q.clients, host)| >= |OfHost(p.clients, host)|
    requires forall u :: u in p.threads && p.threads[u].Waiting? ==> p.threads[u].session in p.clients
    requires q.threads[t].Waiting? && q.threads[t].session in q.clients ==> q.clients[q.threads[t].session].inUse
    requires q.threads[t].AtLimit? ==> max > 0 && |OfHost(q.clients, q.threads[t].host)| >= max
    ensures Alert(q, max)
  {
    hide OfHost;
    forall u | u in q.threads && q.threads[u].Waiting? && q.threads[u].session in q.clients && u !in q.notified
      ensures q.clients[q.threads[u].session].inUse
    {
      if u != t { assert q.threads[u] == p.threads[u]; }
    }
    forall u | u in q.threads && q.threads[u].AtLimit? && u !in q.notified
      ensures max > 0 && |OfHost(q.clients, q.threads[u].host)| >= max
    {
      if u != t { assert q.threads[u] == p.threads[u]; }
    }
  }
}
