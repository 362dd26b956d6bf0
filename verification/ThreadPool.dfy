/** The thread pool of the frontend and the messages that pass through it: what happens under its two
    mutexes, src/thread_pool_observer.cpp:151-276, and what the messages do to the count of requests of
    their connection, src/filter_frontend_net.cpp:206-219, 427-431, 494-517. */
module ThreadPool {
  const QUEUE_SIZE_PER_THREAD := 64

  /** Where a message is. */
  datatype Place = Putting | Queued | InHand | InOutput | Delivered | CleanedUp

  datatype Message = Message(conn: nat, place: Place)

  /** What the thread of the socket manager is doing: nothing, emptying the output queue, putting a
      message, or sleeping on m_cond_input_full until there is room for it. */
  datatype Manager = Idle | Draining | InPut(id: nat) | Blocked(id: nat)

  /** The message is in put. */
  predicate Puts(manager: Manager, id: nat) { manager == InPut(id) || manager == Blocked(id) }

  /** closed is the flag of the connection's own session. */
  datatype Connection = Connection(noRequests: int, closed: bool)

  /** Worker threads stand at the top of their loop, sleep until there is input, have been woken from
      that, or have a message in hand; m_waiting_threads is asleep + woken. messages records every
      message there has been, by its number. */
  datatype Pool = Pool(
    input: seq<nat>, output: seq<nat>, inHand: set<nat>, manager: Manager, pipe: nat,
    top: nat, asleep: nat, woken: nat, noThreads: nat,
    messages: map<nat, Message>, next: nat, conns: map<nat, Connection>)

  datatype Limits = Limits(minThreads: nat, maxThreads: nat)

  // ---------- messages ----------

  function Marked(p: Pool, id: nat, place: Place): Pool
    requires id in p.messages
  {
    p.(messages := p.messages[id := p.messages[id].(place := place)])
  }

  predicate Pending(m: Message) { m.place != Delivered && m.place != CleanedUp }

  /** The messages of a connection that are on their way. */
  function Outstanding(messages: map<nat, Message>, c: nat): set<nat> {
    set id | id in messages && messages[id].conn == c && Pending(messages[id])
  }

  function Counted(p: Pool, c: nat, delta: int): Pool
    requires c in p.conns
  {
    p.(conns := p.conns[c := p.conns[c].(noRequests := p.conns[c].noRequests + delta)])
  }

  // ---------- the pool ----------

  function AddWorker(p: Pool, maxThreads: nat): Pool {
    if p.asleep + p.woken == 0 && p.noThreads < maxThreads then p.(noThreads := p.noThreads + 1, top := p.top + 1) else p
  }

  /** The loop at the end of put, from its test on; the thread goes to sleep while the queue is full. */
  function TryPush(p: Pool, id: nat): Pool
    requires id in p.messages
  {
    if |p.input| >= p.noThreads * QUEUE_SIZE_PER_THREAD then p.(manager := Blocked(id))
    else
      var q := Marked(p, id, Queued).(input := p.input + [id], manager := Idle);
      if q.asleep > 0 then q.(asleep := q.asleep - 1, woken := q.woken + 1) else q
  }

  function Put(p: Pool, id: nat, maxThreads: nat): Pool
    requires id in p.messages
  {
    TryPush(AddWorker(p, maxThreads), id)
  }

  /** A new message of connection c, on its way into put. */
  function Created(p: Pool, c: nat): Pool
    requires c in p.conns
  {
    Counted(p, c, 1).(messages := p.messages[p.next := Message(c, Putting)], next := p.next + 1, manager := InPut(p.next))
  }

  predicate OwnedBy(messages: map<nat, Message>, id: nat, c: nat) { id in messages && messages[id].conn == c }

  function Kept(messages: map<nat, Message>, input: seq<nat>, c: nat): seq<nat> {
    if input == [] then []
    else if OwnedBy(messages, input[0], c) then Kept(messages, input[1..], c)
    else [input[0]] + Kept(messages, input[1..], c)
  }

  function CleanedMessages(messages: map<nat, Message>, input: seq<nat>, c: nat): map<nat, Message> {
    map id | id in messages :: if id in input && messages[id].conn == c then messages[id].(place := CleanedUp) else messages[id]
  }

  /** The queued messages of connection c are dropped, each taking back its request. */
  function Cleanup(p: Pool, c: nat): Pool
    requires c in p.conns
  {
    var kept := Kept(p.messages, p.input, c);
    Counted(p, c, |kept| - |p.input|).(input := kept, messages := CleanedMessages(p.messages, p.input, c))
  }

  /** m_cond_input_full.notify_all. */
  function Roused(manager: Manager): Manager {
    if manager.Blocked? then InPut(manager.id) else manager
  }

  /** A worker takes the first message, and tells put that there is room. */
  function TakeInput(p: Pool): Pool
    requires p.input != [] && p.input[0] in p.messages
  {
    Marked(p, p.input[0], InHand).(input := p.input[1..], inHand := p.inHand + {p.input[0]}, manager := Roused(p.manager))
  }

  function PutOutput(p: Pool, id: nat): Pool
    requires id in p.messages
  {
    Marked(p, id, InOutput).(inHand := p.inHand - {id}, output := p.output + [id], pipe := p.pipe + 1, top := p.top + 1)
  }

  /** The manager takes the first message of the output queue and delivers its result. */
  function DeliverOutput(p: Pool): Pool
    requires p.output != [] && p.output[0] in p.messages && p.messages[p.output[0]].conn in p.conns
  {
    Counted(Marked(p, p.output[0], Delivered), p.messages[p.output[0]].conn, -1).(output := p.output[1..])
  }

  function WithoutConn(conns: map<nat, Connection>, c: nat): map<nat, Connection> {
    map k | k in conns && k != c :: conns[k]
  }

  // ---------- steps ----------

  datatype Step =
    | Accept(c: nat)
    | Receive(c: nat)    // recv_GDU
    | Fail(c: nat)       // failNotify, timeoutNotify
    | Push               // put goes on, at first or when it has been woken
    | Notify             // socketNotify reads its byte
    | Deliver
    | EndDrain
    | Loop               // a worker at the top of its loop looks for input
    | Wake               // a woken worker looks for input
    | Output(id: nat)    // a worker has handled its message

  ghost predicate Enabled(p: Pool, step: Step) {
    match step
    case Accept(c) => p.manager.Idle? && c !in p.conns
    case Receive(c) => p.manager.Idle? && c in p.conns
    case Fail(c) => p.manager.Idle? && c in p.conns
    case Push => p.manager.InPut? && p.manager.id in p.messages
    case Notify => p.manager.Idle? && p.pipe > 0
    case Deliver => p.manager.Draining? && p.output != [] && p.output[0] in p.messages && p.messages[p.output[0]].conn in p.conns
    case EndDrain => p.manager.Draining? && p.output == []
    case Loop => p.top > 0 && (p.input != [] ==> p.input[0] in p.messages)
    case Wake => p.woken > 0 && (p.input != [] ==> p.input[0] in p.messages)
    case Output(id) => id in p.inHand && id in p.messages
  }

  ghost function Apply(p: Pool, step: Step, limits: Limits): Pool
    requires Enabled(p, step)
  {
    match step
    case Accept(c) => p.(conns := p.conns[c := Connection(0, false)])
    case Receive(c) => Put(Created(p, c), p.next, limits.maxThreads)
    case Fail(c) =>
      if p.conns[c].closed then
        if p.conns[c].noRequests == 0 then p.(conns := WithoutConn(p.conns, c)) else p
      else
        var q := Created(p, c);
        var q' := q.(conns := q.conns[c := q.conns[c].(closed := true)]);
        Put(Cleanup(q', c), p.next, limits.maxThreads)
    case Push => TryPush(p, p.manager.id)
    case Notify => p.(pipe := p.pipe - 1, manager := Draining)
    case Deliver => DeliverOutput(p)
    case EndDrain => p.(manager := Idle)
    case Loop =>
      if p.input == [] then p.(top := p.top - 1, asleep := p.asleep + 1) else TakeInput(p).(top := p.top - 1)
    case Wake =>
      if p.input == [] then p.(woken := p.woken - 1, asleep := p.asleep + 1) else TakeInput(p).(woken := p.woken - 1)
    case Output(id) => PutOutput(p, id)
  }

  ghost predicate Initial(p: Pool, limits: Limits) {
    && p.input == [] && p.output == [] && p.inHand == {} && p.manager == Idle && p.pipe == 0
    && p.top == p.noThreads == limits.minThreads && p.asleep == 0 && p.woken == 0
    && p.messages == map[] && p.next == 0 && p.conns == map[]
  }

  // ---------- the invariant ----------

  ghost predicate Distinct(s: seq<nat>) { forall i, j :: 0 <= i < j < |s| ==> s[i] != s[j] }

  ghost predicate At(p: Pool, id: nat, place: Place) { id in p.messages && p.messages[id].place == place }

  /** Every message is in the one place its record names, and in no other. */
  ghost predicate Placed(p: Pool) {
    && Distinct(p.input) && Distinct(p.output)
    && (forall id: nat :: id in p.messages <==> id < p.next)
    && (forall id: nat :: id in p.input <==> At(p, id, Queued))
    && (forall id: nat :: id in p.output <==> At(p, id, InOutput))
    && (forall id: nat :: id in p.inHand <==> At(p, id, InHand))
    && (forall id: nat :: Puts(p.manager, id) <==> At(p, id, Putting))
  }

  /** m_no_requests counts the messages on their way, and these belong to connections that exist. */
  ghost predicate Tallied(p: Pool) {
    && (forall c :: c in p.conns ==> p.conns[c].noRequests == |Outstanding(p.messages, c)|)
    && (forall id :: id in p.messages && Pending(p.messages[id]) ==> p.messages[id].conn in p.conns)
  }

  ghost predicate Staffed(p: Pool, limits: Limits) {
    && p.noThreads == p.top + p.asleep + p.woken + |p.inHand|
    && |p.input| <= p.noThreads * QUEUE_SIZE_PER_THREAD
    && limits.minThreads <= p.noThreads && (p.noThreads <= limits.minThreads || p.noThreads <= limits.maxThreads)
  }

  /** With room for a thread at all there is one for the messages. */
  ghost predicate Manned(p: Pool, limits: Limits) {
    p.next > 0 && limits.maxThreads > 0 ==> p.noThreads > 0
  }

  /** While a worker sleeps, every queued message has woken another; while put sleeps, the queue is
      full; outside a drain every message in the output queue has left a byte in the pipe. */
  ghost predicate Signalled(p: Pool) {
    && (p.asleep > 0 ==> |p.input| <= p.woken)
    && (p.manager.Blocked? ==> |p.input| >= p.noThreads * QUEUE_SIZE_PER_THREAD)
    && (!p.manager.Draining? ==> |p.output| <= p.pipe)
  }

  ghost predicate Inv(p: Pool, limits: Limits) {
    Placed(p) && Tallied(p) && Staffed(p, limits) && Signalled(p)
  }
}
