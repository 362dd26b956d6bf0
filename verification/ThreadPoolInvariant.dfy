/** The thread pool keeps its invariant over every run: messages are conserved, queues stay bounded,
    counts agree, and the pool does not come to rest with messages in it. */
module ThreadPoolInvariant {
  import opened ThreadPool

  // ---------- sets and counts ----------

  lemma OutstandingMember(messages: map<nat, Message>, c: nat, id: nat)
    ensures id in Outstanding(messages, c) <==> id in messages && messages[id].conn == c && Pending(messages[id])
  {
  }

  lemma OutstandingAfter(messages: map<nat, Message>, id: nat, m: Message, c: nat)
    ensures |Outstanding(messages[id := m], c)|
         == |Outstanding(messages, c)| - B(id in messages && messages[id].conn == c && Pending(messages[id])) + B(m.conn == c && Pending(m))
  {
    hide Outstanding, Pending;
    var (x, y) := (Outstanding(messages, c), Outstanding(messages[id := m], c));
    forall k: nat | k != id ensures k in x <==> k in y {
      OutstandingMember(messages, c, k);
      OutstandingMember(messages[id := m], c, k);
    }
    assert x - {id} == y - {id};
    OutstandingMember(messages, c, id);
    OutstandingMember(messages[id := m], c, id);
    Minus(x, id); Minus(y, id);
  }

  function B(b: bool): int { if b then 1 else 0 }

  lemma Minus(x: set<nat>, t: nat)
    ensures |x| == |x - {t}| + B(t in x)
  {
    if t !in x { assert x - {t} == x; }
  }

  /** The record of one message changes, and with it at most its connection's count. */
  lemma TallyOne(p: Pool, q: Pool, id: nat, m: Message)
    requires Tallied(p) && q.messages == p.messages[id := m] && q.conns.Keys == p.conns.Keys && m.conn in p.conns
    requires id in p.messages ==> p.messages[id].conn == m.conn
    requires forall c :: c in p.conns ==>
      q.conns[c].noRequests == p.conns[c].noRequests + if c == m.conn then B(Pending(m)) - B(id in p.messages && Pending(p.messages[id])) else 0
    ensures Tallied(q)
  {
    hide Pending, Outstanding;
    forall c | c in q.conns ensures q.conns[c].noRequests == |Outstanding(q.messages, c)| {
      assert c in q.conns.Keys;
      assert c in p.conns;
      OutstandingAfter(p.messages, id, m, c);
    }
    forall k | k in q.messages && Pending(q.messages[k]) ensures q.messages[k].conn in q.conns {
      assert q.messages[k].conn in p.conns.Keys;
    }
  }

  lemma TallySame(p: Pool, q: Pool)
    requires Tallied(p) && q.messages == p.messages && q.conns == p.conns
    ensures Tallied(q)
  {
  }

  // ---------- put ----------

  lemma CreatedPlaced(p: Pool, c: nat)
    requires Placed(p) && p.manager.Idle? && c in p.conns
    ensures p.next !in p.messages && Placed(Created(p, c))
  {
    hide Distinct;
    var q := Created(p, c);
    forall id: nat, place: Place | id != p.next ensures At(q, id, place) <==> At(p, id, place) { }
    forall id: nat ensures !At(p, id, Putting) { assert !Puts(p.manager, id); }
    forall place: Place ensures !At(p, p.next, place) { }
  }

  lemma CreatedKeeps(p: Pool, c: nat, limits: Limits)
    requires Inv(p, limits) && p.manager.Idle? && c in p.conns
    ensures Inv(Created(p, c), limits)
  {
    CreatedPlaced(p, c);
    hide Placed;
    TallyOne(p, Created(p, c), p.next, Message(c, Putting));
    hide Tallied, Outstanding;
  }

  lemma AddWorkerKeeps(p: Pool, limits: Limits)
    requires Inv(p, limits) && !p.manager.Blocked?
    ensures Inv(AddWorker(p, limits.maxThreads), limits)
  {
    TallySame(p, AddWorker(p, limits.maxThreads));
    hide Tallied, Outstanding, Distinct;
  }

  lemma TryPushKeeps(p: Pool, limits: Limits)
    requires Inv(p, limits) && p.manager.InPut?
    ensures p.manager.id in p.messages && Inv(TryPush(p, p.manager.id), limits)
  {
    var id := p.manager.id;
    assert Puts(p.manager, id) && At(p, id, Putting);
    var q := TryPush(p, id);
    if |p.input| >= p.noThreads * QUEUE_SIZE_PER_THREAD {
      BlockedPlaced(p, q);
      TallySame(p, q);
      hide Tallied, Outstanding, Placed;
    } else {
      TallyOne(p, q, id, p.messages[id].(place := Queued));
      assert id !in p.input;
      PushPlaced(p, q, id);
      hide Tallied, Outstanding, Placed;
    }
  }

  lemma BlockedPlaced(p: Pool, q: Pool)
    requires Placed(p) && p.manager.InPut? && q == p.(manager := Blocked(p.manager.id))
    ensures Placed(q)
  {
    hide Distinct;
    forall id: nat ensures Puts(q.manager, id) <==> At(q, id, Putting) { assert Puts(p.manager, id) <==> At(p, id, Putting); }
  }

  lemma PushPlaced(p: Pool, q: Pool, id: nat)
    requires Placed(p) && p.manager == InPut(id) && id in p.messages && id !in p.input
    requires q.input == p.input + [id] && q.manager == Idle && q.output == p.output && q.inHand == p.inHand && q.next == p.next
    requires q.messages == p.messages[id := p.messages[id].(place := Queued)]
    ensures Placed(q)
  {
    assert Puts(p.manager, id) && At(p, id, Putting);
    assert forall k :: k in q.input <==> k in p.input || k == id;
    forall k: nat ensures Puts(q.manager, k) <==> At(q, k, Putting) {
      assert Puts(p.manager, k) <==> At(p, k, Putting);
    }
  }

  lemma PutKeeps(p: Pool, limits: Limits)
    requires Inv(p, limits) && p.manager.InPut?
    ensures p.manager.id in p.messages && Inv(Put(p, p.manager.id, limits.maxThreads), limits)
  {
    AddWorkerKeeps(p, limits);
    TryPushKeeps(AddWorker(p, limits.maxThreads), limits);
  }

  // ---------- cleanup ----------

  lemma {:induction false} KeptMember(messages: map<nat, Message>, input: seq<nat>, c: nat, id: nat)
    ensures id in Kept(messages, input, c) <==> id in input && !OwnedBy(messages, id, c)
  {
    hide OwnedBy;
    if input != [] {
      assert id in input <==> id == input[0] || id in input[1..];
      KeptMember(messages, input[1..], c, id);
    }
  }

  lemma {:induction false} KeptDistinct(messages: map<nat, Message>, input: seq<nat>, c: nat)
    requires Distinct(input)
    ensures Distinct(Kept(messages, input, c))
  {
    hide OwnedBy;
    if input != [] {
      RestDistinct(input);
      KeptDistinct(messages, input[1..], c);
      KeptMember(messages, input[1..], c, input[0]);
      FirstDistinct(input[0], Kept(messages, input[1..], c));
    }
  }

  lemma FirstDistinct(x: nat, s: seq<nat>)
    requires Distinct(s) && x !in s
    ensures Distinct([x] + s)
  {
  }

  lemma {:induction false} KeptCount(messages: map<nat, Message>, input: seq<nat>, c: nat)
    requires Distinct(input)
    ensures |input| - |Kept(messages, input, c)| == |Owned(messages, input, c)|
  {
    hide OwnedBy;
    if input == [] {
      assert Owned(messages, input, c) == {};
    } else {
      RestDistinct(input);
      hide Distinct;
      KeptCount(messages, input[1..], c);
      OwnedFirst(messages, input, c);
      assert input[0] !in Owned(messages, input[1..], c);
    }
  }

  lemma OwnedFirst(messages: map<nat, Message>, input: seq<nat>, c: nat)
    requires input != []
    ensures Owned(messages, input, c)
         == if OwnedBy(messages, input[0], c) then Owned(messages, input[1..], c) + {input[0]} else Owned(messages, input[1..], c)
  {
    assert forall id :: id in input <==> id == input[0] || id in input[1..];
  }

  function Owned(messages: map<nat, Message>, input: seq<nat>, c: nat): set<nat> {
    set id | id in input && OwnedBy(messages, id, c)
  }

  lemma CleanedMember(p: Pool, c: nat, k: nat, id: nat)
    requires Placed(p)
    ensures id in Outstanding(CleanedMessages(p.messages, p.input, c), k)
       <==> id in Outstanding(p.messages, k) && !(k == c && id in Owned(p.messages, p.input, c))
    ensures id in Owned(p.messages, p.input, c) ==> id in Outstanding(p.messages, c)
  {
    hide Distinct;
    assert id in p.input <==> At(p, id, Queued);
  }

  lemma CleanedOutstanding(p: Pool, c: nat, k: nat)
    requires Placed(p)
    ensures |Outstanding(CleanedMessages(p.messages, p.input, c), k)|
         == |Outstanding(p.messages, k)| - if k == c then |Owned(p.messages, p.input, c)| else 0
  {
    hide Placed, Outstanding, Owned, CleanedMessages;
    var (x, y, z) := (Outstanding(p.messages, k), Outstanding(CleanedMessages(p.messages, p.input, c), k), Owned(p.messages, p.input, c));
    forall id: nat ensures id in y <==> id in x && !(k == c && id in z) { CleanedMember(p, c, k, id); }
    forall id | id in z && k == c ensures id in x { CleanedMember(p, c, k, id); }
    if k == c {
      assert y == x - z && z <= x;
    } else {
      assert y == x;
    }
  }

  lemma CleanupTallied(p: Pool, c: nat)
    requires Placed(p) && Tallied(p) && c in p.conns
    ensures Tallied(Cleanup(p, c)) && |Cleanup(p, c).input| <= |p.input|
  {
    var q := Cleanup(p, c);
    KeptCount(p.messages, p.input, c);
    forall k | k in q.conns ensures q.conns[k].noRequests == |Outstanding(q.messages, k)| {
      CleanedOutstanding(p, c, k);
    }
  }

  lemma CleanupPlaced(p: Pool, c: nat)
    requires Placed(p) && c in p.conns
    ensures Placed(Cleanup(p, c))
  {
    hide Distinct, Kept, OwnedBy;
    var q := Cleanup(p, c);
    KeptDistinct(p.messages, p.input, c);
    forall id ensures id in q.input <==> At(q, id, Queued) {
      KeptMember(p.messages, p.input, c, id);
      assert OwnedBy(p.messages, id, c) <==> id in p.messages && p.messages[id].conn == c by { OwnedByIs(p.messages, id, c); }
    }
    forall id, place: Place | place == InOutput || place == InHand || place == Putting ensures At(q, id, place) <==> At(p, id, place) {
      assert id in p.input <==> At(p, id, Queued);
    }
    forall id: nat ensures Puts(q.manager, id) <==> At(q, id, Putting) { assert Puts(p.manager, id) <==> At(p, id, Putting); }
  }

  lemma OwnedByIs(messages: map<nat, Message>, id: nat, c: nat)
    ensures OwnedBy(messages, id, c) <==> id in messages && messages[id].conn == c
  {
  }

  lemma CleanupKeeps(p: Pool, c: nat, limits: Limits)
    requires Inv(p, limits) && c in p.conns && !p.manager.Blocked?
    ensures Inv(Cleanup(p, c), limits)
  {
    hide Tallied, Placed, Kept, CleanedMessages;
    CleanupTallied(p, c);
    CleanupPlaced(p, c);
  }

  // ---------- workers ----------

  lemma TakePlaced(p: Pool)
    requires Placed(p) && p.input != []
    ensures At(p, p.input[0], Queued) && p.input[0] !in p.inHand && Placed(TakeInput(p))
  {
    var (id, rest) := (p.input[0], p.input[1..]);
    assert At(p, id, Queued);
    var q := TakeInput(p);
    RestDistinct(p.input);
    assert forall k :: k in p.input <==> k == id || k in rest;
    forall k: nat ensures Puts(q.manager, k) <==> At(q, k, Putting) { assert Puts(p.manager, k) <==> At(p, k, Putting); }
  }

  lemma RestDistinct(s: seq<nat>)
    requires Distinct(s) && s != []
    ensures Distinct(s[1..]) && s[0] !in s[1..]
  {
    var rest := s[1..];
    forall i, j | 0 <= i < j < |rest| ensures rest[i] != rest[j] { assert s[i + 1] != s[j + 1]; }
    forall i | 0 <= i < |rest| ensures rest[i] != s[0] { assert s[i + 1] != s[0]; }
  }

  lemma TakeTallied(p: Pool)
    requires Placed(p) && Tallied(p) && p.input != []
    ensures p.input[0] in p.messages && Tallied(TakeInput(p))
  {
    var id := p.input[0];
    assert At(p, id, Queued);
    TallyOne(p, TakeInput(p), id, p.messages[id].(place := InHand));
  }

  lemma LoopKeeps(p: Pool, limits: Limits)
    requires Inv(p, limits) && p.top > 0 && Enabled(p, Loop)
    ensures Inv(Apply(p, Loop, limits), limits)
  {
    if p.input != [] {
      TakePlaced(p);
      TakeTallied(p);
      var q := Apply(p, Loop, limits);
      hide Tallied, Outstanding, Placed;
      SamePlaces(TakeInput(p), q);
    } else {
      SamePlaces(p, Apply(p, Loop, limits));
      hide Tallied, Outstanding, Placed;
    }
  }

  /** Only the counts of threads and the pipe differ. */
  lemma SamePlaces(p: Pool, q: Pool)
    requires Placed(p) && Tallied(p)
    requires q == p.(top := q.top, asleep := q.asleep, woken := q.woken, noThreads := q.noThreads, pipe := q.pipe)
    ensures Placed(q) && Tallied(q)
  {
  }

  lemma WakeKeeps(p: Pool, limits: Limits)
    requires Inv(p, limits) && Enabled(p, Wake)
    ensures Inv(Apply(p, Wake, limits), limits)
  {
    if p.input != [] {
      TakePlaced(p);
      TakeTallied(p);
      var q := Apply(p, Wake, limits);
      hide Tallied, Outstanding, Placed;
      SamePlaces(TakeInput(p), q);
    } else {
      SamePlaces(p, Apply(p, Wake, limits));
      hide Tallied, Outstanding, Placed;
    }
  }

  lemma OutputPlaced(p: Pool, id: nat)
    requires Placed(p) && id in p.inHand && id in p.messages
    ensures id !in p.output && Placed(PutOutput(p, id))
  {
    assert At(p, id, InHand);
    var q := PutOutput(p, id);
    assert forall k :: k in q.output <==> k in p.output || k == id;
    AppendDistinct(p.output, id);
    hide Distinct;
  }

  lemma AppendDistinct(s: seq<nat>, x: nat)
    requires Distinct(s) && x !in s
    ensures Distinct(s + [x])
  {
  }

  lemma OutputKeeps(p: Pool, id: nat, limits: Limits)
    requires Inv(p, limits) && id in p.inHand && id in p.messages
    ensures Inv(PutOutput(p, id), limits)
  {
    assert At(p, id, InHand);
    OutputPlaced(p, id);
    hide Placed;
    TallyOne(p, PutOutput(p, id), id, p.messages[id].(place := InOutput));
    Minus(p.inHand, id);
    hide Tallied, Outstanding;
  }

  lemma DeliverPlaced(p: Pool)
    requires Placed(p) && p.output != [] && p.output[0] in p.messages && p.messages[p.output[0]].conn in p.conns
    ensures At(p, p.output[0], InOutput) && Placed(DeliverOutput(p))
  {
    assert At(p, p.output[0], InOutput);
    RestDistinct(p.output);
    hide Distinct;
    assert forall k :: k in p.output <==> k == p.output[0] || k in p.output[1..];
  }

  lemma DeliverKeeps(p: Pool, limits: Limits)
    requires Inv(p, limits) && p.output != [] && p.manager.Draining?
    ensures p.output[0] in p.messages && p.messages[p.output[0]].conn in p.conns && Inv(DeliverOutput(p), limits)
  {
    var id := p.output[0];
    assert At(p, id, InOutput);
    DeliverPlaced(p);
    hide Placed;
    TallyOne(p, DeliverOutput(p), id, p.messages[id].(place := Delivered));
    hide Tallied, Outstanding;
  }

  // ---------- connections ----------

  lemma AcceptKeeps(p: Pool, c: nat, limits: Limits)
    requires Inv(p, limits) && c !in p.conns
    ensures Inv(p.(conns := p.conns[c := Connection(0, false)]), limits)
  {
    assert Outstanding(p.messages, c) == {};
    hide Outstanding, Distinct;
  }

  lemma DeleteKeeps(p: Pool, c: nat, limits: Limits)
    requires Inv(p, limits) && c in p.conns && p.conns[c].noRequests == 0
    ensures Inv(p.(conns := WithoutConn(p.conns, c)), limits)
  {
    assert Outstanding(p.messages, c) == {};
    forall id | id in p.messages && Pending(p.messages[id]) ensures p.messages[id].conn != c {
      assert id !in Outstanding(p.messages, c);
    }
    hide Outstanding, Distinct;
  }

  lemma FailKeeps(p: Pool, c: nat, limits: Limits)
    requires Inv(p, limits) && Enabled(p, Fail(c))
    ensures Inv(Apply(p, Fail(c), limits), limits)
  {
    if p.conns[c].closed {
      if p.conns[c].noRequests == 0 { DeleteKeeps(p, c, limits); }
    } else {
      CreatedKeeps(p, c, limits);
      var q := Created(p, c);
      var q' := q.(conns := q.conns[c := q.conns[c].(closed := true)]);
      assert Inv(q', limits) by { ClosedKeeps(q, c, limits); }
      CleanupKeeps(q', c, limits);
      hide Inv;
      PutKeeps(Cleanup(q', c), limits);
    }
  }

  lemma ClosedKeeps(p: Pool, c: nat, limits: Limits)
    requires Inv(p, limits) && c in p.conns
    ensures Inv(p.(conns := p.conns[c := p.conns[c].(closed := true)]), limits)
  {
    hide Outstanding, Distinct;
  }

  // ---------- every step, every run ----------

  lemma StepKeeps(p: Pool, step: Step, limits: Limits)
    requires Inv(p, limits) && Enabled(p, step)
    ensures Inv(Apply(p, step, limits), limits)
  {
    match step
    case Accept(c) => AcceptKeeps(p, c, limits);
    case Receive(c) => CreatedKeeps(p, c, limits); PutKeeps(Created(p, c), limits);
    case Fail(c) => FailKeeps(p, c, limits);
    case Push => TryPushKeeps(p, limits);
    case Notify => NotifyKeeps(p, limits);
    case Deliver => DeliverKeeps(p, limits);
    case EndDrain => NotifyKeeps(p, limits);
    case Loop => LoopKeeps(p, limits);
    case Wake => WakeKeeps(p, limits);
    case Output(id) => OutputKeeps(p, id, limits);
  }

  lemma NotifyKeeps(p: Pool, limits: Limits)
    requires Inv(p, limits)
    ensures p.manager.Idle? && p.pipe > 0 ==> Inv(p.(pipe := p.pipe - 1, manager := Draining), limits)
    ensures p.manager.Draining? && p.output == [] ==> Inv(p.(manager := Idle), limits)
  {
    hide Outstanding, Distinct;
    if p.manager.Idle? && p.pipe > 0 { NobodyPuts(p, p.(pipe := p.pipe - 1, manager := Draining)); }
    if p.manager.Draining? { NobodyPuts(p, p.(manager := Idle)); }
    hide Placed;
  }

  lemma NobodyPuts(p: Pool, q: Pool)
    requires Placed(p) && (p.manager.Idle? || p.manager.Draining?) && (q.manager.Idle? || q.manager.Draining?)
    requires q == p.(pipe := q.pipe, manager := q.manager)
    ensures Placed(q)
  {
    hide Distinct;
    forall id: nat ensures Puts(q.manager, id) <==> At(q, id, Putting) { assert Puts(p.manager, id) <==> At(p, id, Putting); }
  }

  lemma StepManned(p: Pool, step: Step, limits: Limits)
    requires Inv(p, limits) && Manned(p, limits) && Enabled(p, step)
    ensures Manned(Apply(p, step, limits), limits)
  {
    hide Placed, Tallied, Signalled, Kept, CleanedMessages;
  }

  /** states is a run of a pool with these limits. */
  ghost predicate Run(states: seq<Pool>, steps: seq<Step>, limits: Limits) {
    && |states| == |steps| + 1
    && Initial(states[0], limits)
    && forall i :: 0 <= i < |steps| ==> Enabled(states[i], steps[i]) && states[i + 1] == Apply(states[i], steps[i], limits)
  }

  lemma {:induction false} RunKeeps(states: seq<Pool>, steps: seq<Step>, limits: Limits, i: nat)
    requires Run(states, steps, limits) && i < |states|
    ensures Inv(states[i], limits) && Manned(states[i], limits)
    decreases i
  {
    hide Inv, Manned, Enabled, Apply, Initial;
    if i == 0 {
      InitialHolds(states[0], limits);
    } else {
      RunKeeps(states, steps, limits, i - 1);
      assert Enabled(states[i - 1], steps[i - 1]) && states[i - 1 + 1] == Apply(states[i - 1], steps[i - 1], limits);
      StepKeeps(states[i - 1], steps[i - 1], limits);
      StepManned(states[i - 1], steps[i - 1], limits);
    }
  }

  lemma InitialHolds(p: Pool, limits: Limits)
    requires Initial(p, limits)
    ensures Inv(p, limits) && Manned(p, limits)
  {
    assert Placed(p);
    assert Tallied(p);
    assert Staffed(p, limits);
    assert Signalled(p);
  }

  // ---------- what it is for ----------

  /** How often a message is found in the places the pool has for messages. */
  ghost function Copies(p: Pool, id: nat): int {
    multiset(p.input)[id] + multiset(p.output)[id] + B(id in p.inHand) + B(Puts(p.manager, id))
    + B(At(p, id, Delivered)) + B(At(p, id, CleanedUp))
  }

  lemma {:induction false} OnceIn(s: seq<nat>, x: nat)
    requires Distinct(s)
    ensures multiset(s)[x] == B(x in s)
  {
    if s != [] {
      RestDistinct(s);
      OnceIn(s[1..], x);
      assert s == [s[0]] + s[1..];
    }
  }

  /** Every message that was made, and no other, is in exactly one place: being put, queued, in a
      worker's hand, in the output queue, delivered, or cleaned up. */
  lemma Conservation(states: seq<Pool>, steps: seq<Step>, limits: Limits, i: nat, id: nat)
    requires Run(states, steps, limits) && i < |states|
    ensures Copies(states[i], id) == B(id < states[i].next)
  {
    RunKeeps(states, steps, limits, i);
    var p := states[i];
    OnceIn(p.input, id);
    OnceIn(p.output, id);
    hide Distinct, Tallied, Staffed, Signalled, Run, Manned;
    assert id in p.input <==> At(p, id, Queued);
    assert id in p.output <==> At(p, id, InOutput);
    assert id in p.inHand <==> At(p, id, InHand);
    assert Puts(p.manager, id) <==> At(p, id, Putting);
  }

  /** A record never goes back: what is delivered or cleaned up stays so. */
  lemma DoneIsDone(p: Pool, step: Step, limits: Limits, id: nat)
    requires Inv(p, limits) && Enabled(p, step) && id in p.messages && !Pending(p.messages[id])
    ensures Apply(p, step, limits).messages[id] == p.messages[id]
  {
    hide Tallied, Staffed, Signalled, Distinct, Kept;
    assert !At(p, id, Queued) && !At(p, id, InHand) && !At(p, id, InOutput) && !At(p, id, Putting);
    assert id !in p.input && id !in p.inHand && id !in p.output && !Puts(p.manager, id);
    assert id < p.next;
  }

  /** x stands before y. */
  ghost predicate Before(s: seq<nat>, x: nat, y: nat) {
    exists i, j :: 0 <= i < j < |s| && s[i] == x && s[j] == y
  }

  /** What was in the queue keeps its order, and nothing new gets in front of it. */
  ghost predicate InTurn(s: seq<nat>, s': seq<nat>) {
    forall x, y :: y in s && Before(s', x, y) ==> Before(s, x, y)
  }

  lemma DropInTurn(s: seq<nat>)
    requires s != []
    ensures InTurn(s, s[1..])
  {
    forall x, y | Before(s[1..], x, y) ensures Before(s, x, y) {
      var i, j :| 0 <= i < j < |s[1..]| && s[1..][i] == x && s[1..][j] == y;
      assert s[i + 1] == x && s[j + 1] == y;
    }
  }

  lemma {:induction false} KeptInTurn(messages: map<nat, Message>, input: seq<nat>, c: nat)
    ensures InTurn(input, Kept(messages, input, c))
  {
    hide OwnedBy;
    if input != [] {
      var (rest, kept) := (input[1..], Kept(messages, input[1..], c));
      KeptInTurn(messages, rest, c);
      forall x, y | Before(Kept(messages, input, c), x, y) ensures Before(input, x, y) {
        var r := Kept(messages, input, c);
        var i, j :| 0 <= i < j < |r| && r[i] == x && r[j] == y;
        if OwnedBy(messages, input[0], c) {
          KeptMember(messages, rest, c, y);
          assert Before(rest, x, y);
          BeforeRest(input, x, y);
        } else if i > 0 {
          assert kept[i - 1] == x && kept[j - 1] == y;
          KeptMember(messages, rest, c, y);
          assert Before(rest, x, y);
          BeforeRest(input, x, y);
        } else {
          assert kept[j - 1] == y;
          KeptMember(messages, rest, c, y);
          var k :| 0 <= k < |rest| && rest[k] == y;
          assert input[0] == x && input[k + 1] == y;
        }
      }
    }
  }

  lemma BeforeRest(s: seq<nat>, x: nat, y: nat)
    requires s != [] && Before(s[1..], x, y)
    ensures Before(s, x, y)
  {
    var i, j :| 0 <= i < j < |s[1..]| && s[1..][i] == x && s[1..][j] == y;
    assert s[i + 1] == x && s[j + 1] == y;
  }

  lemma SameInTurn(s: seq<nat>)
    ensures InTurn(s, s)
  {
  }

  lemma InTurnSteps(a: seq<nat>, b: seq<nat>, x: nat)
    requires InTurn(a, b) && x !in a
    ensures InTurn(a, b + [x])
  {
    forall u, y | y in a && Before(b + [x], u, y) ensures Before(a, u, y) {
      var i, j :| 0 <= i < j < |b + [x]| && (b + [x])[i] == u && (b + [x])[j] == y;
      assert j < |b|;
      assert Before(b, u, y);
    }
  }

  lemma PutPlaces(p: Pool, id: nat, maxThreads: nat, k: nat, place: Place)
    requires id in p.messages && place != Queued
    ensures At(Put(p, id, maxThreads), k, place) ==> At(p, k, place)
  {
  }

  lemma CleanupPlaces(p: Pool, c: nat, k: nat, place: Place)
    requires c in p.conns && place != CleanedUp
    ensures At(Cleanup(p, c), k, place) ==> At(p, k, place)
  {
    hide Kept;
  }

  lemma CreatedPlaces(p: Pool, c: nat, k: nat, place: Place)
    requires c in p.conns && place != Putting
    ensures At(Created(p, c), k, place) ==> At(p, k, place)
    ensures p.next in Created(p, c).messages
  {
  }

  lemma FailPlaces(p: Pool, c: nat, limits: Limits, k: nat, place: Place)
    requires Enabled(p, Fail(c)) && (place == InHand || place == Delivered)
    ensures At(Apply(p, Fail(c), limits), k, place) ==> At(p, k, place)
  {
    hide Put, Cleanup, Created, At;
    if p.conns[c].closed {
      SamePlace(p, p.(conns := WithoutConn(p.conns, c)), k, place);
    } else {
      CreatedPlaces(p, c, k, place);
      var q := Created(p, c);
      assert c in q.conns by { CreatedConns(p, c); }
      var q' := q.(conns := q.conns[c := q.conns[c].(closed := true)]);
      SamePlace(q, q', k, place);
      CleanupPlaces(q', c, k, place);
      CleanupMessages(q', c, p.next);
      PutPlaces(Cleanup(q', c), p.next, limits.maxThreads, k, place);
    }
  }

  lemma CreatedConns(p: Pool, c: nat)
    requires c in p.conns
    ensures c in Created(p, c).conns
  {
  }

  lemma CleanupMessages(p: Pool, c: nat, id: nat)
    requires c in p.conns && id in p.messages
    ensures id in Cleanup(p, c).messages
  {
  }

  lemma SamePlace(p: Pool, q: Pool, k: nat, place: Place)
    requires q.messages == p.messages
    ensures At(q, k, place) <==> At(p, k, place)
  {
  }

  /** Messages enter a worker's hand, and are delivered, from the front of their queue. */
  lemma FrontLeaves(p: Pool, step: Step, limits: Limits, id: nat)
    requires Inv(p, limits) && Enabled(p, step)
    ensures id in p.input && At(Apply(p, step, limits), id, InHand) ==> p.input[0] == id
    ensures id in p.output && At(Apply(p, step, limits), id, Delivered) ==> p.output[0] == id
  {
    assert id in p.input ==> At(p, id, Queued);
    assert id in p.output ==> At(p, id, InOutput);
    hide Tallied, Staffed, Signalled, Kept, Distinct, Placed, WithoutConn, Put, Cleanup, Created;
    match step
    case Receive(c) =>
      CreatedPlaces(p, c, id, InHand);
      CreatedPlaces(p, c, id, Delivered);
      PutPlaces(Created(p, c), p.next, limits.maxThreads, id, InHand);
      PutPlaces(Created(p, c), p.next, limits.maxThreads, id, Delivered);
    case Fail(c) =>
      hide Apply;
      FailPlaces(p, c, limits, id, InHand);
      FailPlaces(p, c, limits, id, Delivered);
    case _ =>
  }

  /** Both queues are served in order: a message leaves the input queue for a worker, and the output
      queue for its connection, only from the front, and none overtakes another on the way. */
  lemma FirstInFirstOut(p: Pool, step: Step, limits: Limits)
    requires Inv(p, limits) && Enabled(p, step)
    ensures var q := Apply(p, step, limits);
            && InTurn(p.input, q.input) && InTurn(p.output, q.output)
            && (forall id :: id in p.input && At(q, id, InHand) ==> p.input[0] == id)
            && (forall id :: id in p.output && At(q, id, Delivered) ==> p.output[0] == id)
  {
    QueuesInTurn(p, step, limits);
    hide InTurn, Inv, Enabled, Apply, At;
    forall id | id in p.input && At(Apply(p, step, limits), id, InHand) ensures p.input[0] == id {
      FrontLeaves(p, step, limits, id);
    }
    forall id | id in p.output && At(Apply(p, step, limits), id, Delivered) ensures p.output[0] == id {
      FrontLeaves(p, step, limits, id);
    }
  }

  lemma QueuesInTurn(p: Pool, step: Step, limits: Limits)
    requires Inv(p, limits) && Enabled(p, step)
    ensures InTurn(p.input, Apply(p, step, limits).input) && InTurn(p.output, Apply(p, step, limits).output)
  {
    SameInTurn(p.input);
    SameInTurn(p.output);
    assert p.next !in p.messages;
    assert !At(p, p.next, Queued) && p.next !in p.input;
    assert forall id: nat :: id in p.inHand ==> At(p, id, InHand) && !At(p, id, InOutput);
    assert p.manager.InPut? ==> Puts(p.manager, p.manager.id) && At(p, p.manager.id, Putting) && !At(p, p.manager.id, Queued);
    hide InTurn, Tallied, Staffed, Signalled, Distinct, Kept;
    match step
    case Receive(c) => InTurnSteps(p.input, p.input, p.next);
    case Fail(c) =>
      if !p.conns[c].closed {
        var q := Created(p, c);
        var q' := q.(conns := q.conns[c := q.conns[c].(closed := true)]);
        KeptInTurn(q'.messages, p.input, c);
        InTurnSteps(p.input, Kept(q'.messages, p.input, c), p.next);
      }
    case Push => InTurnSteps(p.input, p.input, p.manager.id);
    case Deliver => DropInTurn(p.output);
    case Loop => if p.input != [] { DropInTurn(p.input); }
    case Wake => if p.input != [] { DropInTurn(p.input); }
    case Output(id) => InTurnSteps(p.output, p.output, id);
    case _ =>
  }

  /** The input queue never exceeds its size per thread. */
  lemma InputBounded(states: seq<Pool>, steps: seq<Step>, limits: Limits, i: nat)
    requires Run(states, steps, limits) && i < |states|
    ensures |states[i].input| <= states[i].noThreads * QUEUE_SIZE_PER_THREAD
    ensures states[i].noThreads <= if limits.minThreads > limits.maxThreads then limits.minThreads else limits.maxThreads
  {
    RunKeeps(states, steps, limits, i);
  }

  /** Outside a drain a message in the output queue has left a byte to wake the manager. */
  lemma OutputSignalled(states: seq<Pool>, steps: seq<Step>, limits: Limits, i: nat)
    requires Run(states, steps, limits) && i < |states| && states[i].output != [] && !states[i].manager.Draining?
    ensures states[i].pipe > 0
  {
    RunKeeps(states, steps, limits, i);
  }

  /** m_no_requests is the number of the connection's undelivered messages; so a connection that is
      deleted has none, and every undelivered message still has its connection. */
  lemma RequestsCounted(states: seq<Pool>, steps: seq<Step>, limits: Limits, i: nat)
    requires Run(states, steps, limits) && i < |states|
    ensures var p := states[i];
            && (forall c :: c in p.conns ==> p.conns[c].noRequests == |Outstanding(p.messages, c)|)
            && (forall id :: id in p.messages && Pending(p.messages[id]) ==> p.messages[id].conn in p.conns)
  {
    RunKeeps(states, steps, limits, i);
    hide Outstanding;
  }

  /** The steps the pool takes by itself. */
  predicate Internal(step: Step) { !step.Accept? && !step.Receive? && !step.Fail? }

  /** A step that is not a worker going back to sleep, nor put. */
  ghost predicate Advances(p: Pool, step: Step) {
    && Internal(step) && Enabled(p, step)
    && (step.Loop? || step.Wake? ==> p.input != [])
    && (step.Push? ==> |p.input| < p.noThreads * QUEUE_SIZE_PER_THREAD)
  }

  /** With a worker thread at all, a queued message finds one that can take it or that will be free. */
  lemma WorkerAdvances(p: Pool, limits: Limits) returns (step: Step)
    requires Inv(p, limits) && p.noThreads > 0 && p.input != []
    ensures Advances(p, step)
  {
    assert At(p, p.input[0], Queued);
    if p.top > 0 {
      step := Loop;
    } else if p.woken > 0 {
      step := Wake;
    } else {
      assert |p.inHand| > 0;
      var id :| id in p.inHand;
      assert At(p, id, InHand);
      step := Output(id);
    }
  }

  /** While a message is on its way the pool can advance: no message is forgotten, and put does not
      block for ever. */
  lemma NeverStuck(states: seq<Pool>, steps: seq<Step>, limits: Limits, i: nat, id: nat) returns (step: Step)
    requires Run(states, steps, limits) && i < |states| && limits.maxThreads > 0
    requires id in states[i].messages && Pending(states[i].messages[id])
    ensures Advances(states[i], step)
  {
    RunKeeps(states, steps, limits, i);
    var p := states[i];
    hide Run;
    assert id < p.next && p.noThreads > 0;
    if p.input != [] {
      step := WorkerAdvances(p, limits);
    } else if p.inHand != {} {
      var k :| k in p.inHand;
      assert At(p, k, InHand);
      step := Output(k);
    } else if p.manager.InPut? {
      assert Puts(p.manager, p.manager.id) && At(p, p.manager.id, Putting);
      step := Push;
    } else {
      assert !p.manager.Blocked?;
      assert At(p, id, InOutput) by {
        assert !Puts(p.manager, id);
        assert !At(p, id, Queued) && !At(p, id, InHand) && !At(p, id, Putting);
      }
      assert p.output != [];
      if p.manager.Draining? {
        assert At(p, p.output[0], InOutput);
        assert Pending(p.messages[p.output[0]]);
        step := Deliver;
      } else {
        step := Notify;
      }
    }
  }

  // ---------- it comes to rest ----------

  /** What is still to be done: each message has further to go the earlier its place is, and threads that
      are awake may have to look for input once more. */
  function Work(p: Pool): nat {
    (if p.manager.InPut? then 8 else if p.manager.Blocked? then 7 else if p.manager.Draining? then 1 else 0)
    + 6 * |p.input| + 5 * |p.inHand| + |p.output| + 2 * p.pipe + p.top + p.woken
  }

  /** Every step the pool takes by itself leaves less to do. */
  lemma WorkFalls(p: Pool, step: Step, limits: Limits)
    requires Inv(p, limits) && Internal(step) && Enabled(p, step)
    ensures Work(Apply(p, step, limits)) < Work(p)
  {
    hide Tallied, Staffed, Signalled, Distinct, Placed;
    match step
    case Loop => if p.input != [] { TakenInHand(p, limits); }
    case Wake => if p.input != [] { TakenInHand(p, limits); }
    case Output(id) => Minus(p.inHand, id);
    case _ =>
  }

  lemma TakenInHand(p: Pool, limits: Limits)
    requires Inv(p, limits) && p.input != []
    ensures p.input[0] in p.messages && |TakeInput(p).inHand| == |p.inHand| + 1
  {
    TakePlaced(p);
  }

  /** From state i on the pool is left to itself for n steps. */
  ghost predicate LeftAlone(steps: seq<Step>, i: nat, n: nat) {
    i + n <= |steps| && forall k :: i <= k < i + n ==> Internal(steps[k])
  }

  lemma {:induction false} StepsAtMostWork(states: seq<Pool>, steps: seq<Step>, limits: Limits, i: nat, n: nat)
    requires Run(states, steps, limits) && LeftAlone(steps, i, n)
    ensures Work(states[i + n]) + n <= Work(states[i])
  {
    hide Work, Enabled, Apply, Inv, Initial, Internal;
    if n > 0 {
      StepsAtMostWork(states, steps, limits, i, n - 1);
      var k := i + n - 1;
      RunKeeps(states, steps, limits, k);
      assert Internal(steps[k]) && Enabled(states[k], steps[k]) && states[k + 1] == Apply(states[k], steps[k], limits);
      WorkFalls(states[k], steps[k], limits);
    }
  }

  ghost predicate AtRest(p: Pool) {
    forall step :: Internal(step) ==> !Enabled(p, step)
  }

  /** When nothing more arrives, the pool takes at most Work steps; and when it then can take no more,
      every message there has been is delivered or cleaned up, and no request is outstanding. */
  lemma ComesToRest(states: seq<Pool>, steps: seq<Step>, limits: Limits, i: nat, n: nat)
    requires Run(states, steps, limits) && LeftAlone(steps, i, n) && limits.maxThreads > 0
    ensures i + n < |states| && n <= Work(states[i])
    ensures AtRest(states[i + n]) ==>
            var p := states[i + n];
            && (forall id :: id in p.messages ==> !Pending(p.messages[id]))
            && (forall c :: c in p.conns ==> p.conns[c].noRequests == 0)
  {
    hide Work, Enabled, Pending, Outstanding, Apply, Initial;
    StepsAtMostWork(states, steps, limits, i, n);
    var p := states[i + n];
    if AtRest(p) {
      forall id | id in p.messages ensures !Pending(p.messages[id]) {
        if Pending(p.messages[id]) {
          var step := NeverStuck(states, steps, limits, i + n, id);
          assert false;
        }
      }
      RequestsCounted(states, steps, limits, i + n);
      forall c | c in p.conns ensures p.conns[c].noRequests == 0 { NoneOutstanding(p.messages, c); }
    }
  }

  lemma NoneOutstanding(messages: map<nat, Message>, c: nat)
    requires forall id :: id in messages ==> !Pending(messages[id])
    ensures Outstanding(messages, c) == {}
  {
  }

  // ---------- a connection fails ----------

  /** The message is queued for this connection. */
  predicate QueuedFor(p: Pool, id: nat, c: nat) {
    id in p.input && OwnedBy(p.messages, id, c)
  }

  /** A connection that fails for the first time is closed, its queued messages are cleaned up, the
      others stay in their order, and one more message of its own is put behind them. */
  lemma FailDrops(p: Pool, c: nat, limits: Limits)
    requires Inv(p, limits) && Enabled(p, Fail(c)) && !p.conns[c].closed
    ensures var q := Apply(p, Fail(c), limits);
            && c in q.conns && q.conns[c].closed && q.next == p.next + 1
            && (forall id: nat :: id in q.messages <==> id in p.messages || id == p.next)
            && (forall id :: id in p.messages ==> q.messages[id] == if QueuedFor(p, id, c) then Message(c, CleanedUp) else p.messages[id])
            && q.messages[p.next] == Message(c, if q.manager.Idle? then Queued else Putting)
            && (forall id :: id in q.input <==> (id in p.input && !QueuedFor(p, id, c)) || (id == p.next && q.manager.Idle?))
            && InTurn(p.input, q.input)
  {
    QueuesInTurn(p, Fail(c), limits);
    assert !At(p, p.next, Queued) && p.next !in p.input;
    var q := Created(p, c);
    var q' := q.(conns := q.conns[c := q.conns[c].(closed := true)]);
    CleanedRecords(q', c);
    forall id ensures id in Kept(q'.messages, p.input, c) <==> id in p.input && !QueuedFor(p, id, c) {
      KeptMember(q'.messages, p.input, c, id);
    }
    hide Inv, InTurn, Cleanup, QueuedFor, Kept;
    PutAdds(Cleanup(q', c), p.next, limits.maxThreads);
  }

  lemma PutAdds(p: Pool, id: nat, maxThreads: nat)
    requires p.manager == InPut(id) && id in p.messages && p.messages[id].place == Putting
    ensures var q := Put(p, id, maxThreads);
            && q.conns == p.conns && q.next == p.next
            && (q.manager.Idle? || q.manager.Blocked?)
            && q.messages == p.messages[id := p.messages[id].(place := if q.manager.Idle? then Queued else Putting)]
            && q.input == if q.manager.Idle? then p.input + [id] else p.input
  {
  }

  lemma CleanedRecords(p: Pool, c: nat)
    requires c in p.conns
    ensures var q := Cleanup(p, c);
            && q.messages.Keys == p.messages.Keys && c in q.conns && q.conns[c].closed == p.conns[c].closed
            && (forall id :: id in p.messages ==> q.messages[id] == if QueuedFor(p, id, c) then Message(c, CleanedUp) else p.messages[id])
  {
    hide Kept;
  }

  /** One that fails again is deleted if it has no message on its way, and left alone otherwise. */
  lemma FailAgain(p: Pool, c: nat, limits: Limits)
    requires Inv(p, limits) && Enabled(p, Fail(c)) && p.conns[c].closed
    ensures var q := Apply(p, Fail(c), limits);
            if Outstanding(p.messages, c) == {} then q == p.(conns := q.conns) && q.conns.Keys == p.conns.Keys - {c} else q == p
  {
    hide Outstanding, Distinct, Placed;
    EmptyMeansNone(Outstanding(p.messages, c));
  }

  lemma EmptyMeansNone(x: set<nat>)
    ensures |x| == 0 <==> x == {}
  {
  }

  // ---------- a request arrives ----------

  /** A request becomes one more message of its connection. A thread is started for it exactly when none
      is waiting for input and their number is below the maximum. It joins the queue, and wakes a sleeping
      thread, if there is room for it with the threads there are then; otherwise put goes to sleep. */
  lemma ReceivePuts(p: Pool, c: nat, limits: Limits)
    requires Inv(p, limits) && Enabled(p, Receive(c))
    ensures var q := Apply(p, Receive(c), limits);
            var started := p.asleep + p.woken == 0 && p.noThreads < limits.maxThreads;
            var room := |p.input| < 64 * (p.noThreads + B(started));
            && q.noThreads == p.noThreads + B(started) && q.top == p.top + B(started)
            && p.next !in p.messages && q.next == p.next + 1
            && q.messages == p.messages[p.next := Message(c, if room then Queued else Putting)]
            && q.conns == p.conns[c := p.conns[c].(noRequests := p.conns[c].noRequests + 1)]
            && q.input == (if room then p.input + [p.next] else p.input) && q.manager == (if room then Idle else Blocked(p.next))
            && q.asleep == p.asleep - B(room && p.asleep > 0) && q.woken == p.woken + B(room && p.asleep > 0)
            && q.output == p.output && q.inHand == p.inHand && q.pipe == p.pipe
  {
    hide Tallied, Staffed, Signalled, Distinct;
  }
}
