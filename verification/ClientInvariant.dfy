/** The connection pool keeps its invariant over every run, and what follows from it. */
module ClientInvariant {
  import opened ClientPool
  import opened ClientProtocol
  import opened Options

  // ---------- one region each ----------

  /** Connections whose host stays leave the counts of connections per host alone. */
  lemma SameHosts(a: Clients, b: Clients)
    requires a.Keys == b.Keys && forall s :: s in a ==> b[s].host == a[s].host
    ensures forall host :: OfHost(b, host) == OfHost(a, host)
  {
    forall host ensures OfHost(b, host) == OfHost(a, host) {
      forall s ensures s in OfHost(b, host) <==> s in OfHost(a, host) {
        assert s in a <==> s in a.Keys;
        assert s in b <==> s in b.Keys;
      }
    }
  }

  /** Nothing but one thread changes, and it neither enters nor leaves a queue. */
  lemma MoveKeeps(p: Pool, t: nat, thread: Thread, max: nat)
    requires Inv(p, max) && t in p.threads
    requires forall s :: Uses(thread, s) == Uses(p.threads[t], s) && Holds(thread, s) == Holds(p.threads[t], s)
    requires thread.Waiting? && thread.session in p.clients ==> p.clients[thread.session].inUse
    requires thread.AtLimit? ==> max > 0 && |OfHost(p.clients, thread.host)| >= max && MayWait(p, t, thread.session)
    ensures Inv(Moved(p, p.clients, t, thread), max)
  {
    hide OfHost, Users, Holders;
    var q := Moved(p, p.clients, t, thread);
    assert Follows(p, q, t);
    KeepCounted(p, q, t);
    assert thread.Waiting? || thread.Holding? ==> Uses(thread, thread.session);
    KeepPresent(p, q, t);
    KeepApart(p, q, t);
    KeepLimited(p, q, max);
    KeepAlert(p, q, t, max);
  }

  /** No other thread waits for room for this session, which has no connection. */
  ghost predicate MayWait(p: Pool, t: nat, s: nat) {
    s !in p.clients && forall u :: u in p.threads && u != t && p.threads[u].AtLimit? ==> p.threads[u].session != s
  }

  /** The state in which a thread takes the connection, or waits for it; joins says whether it enters
      the queue just now. */
  function Taken(p: Pool, t: nat, s: nat, closed: bool, joins: bool): Pool
    requires s in p.clients
  {
    TryTake(p, if joins then Join(p.clients, s) else p.clients, t, s, closed)
  }

  lemma TakenCounts(p: Pool, t: nat, s: nat, closed: bool, joins: bool)
    requires t in p.threads && s in p.clients
    requires if joins then p.threads[t] == Free else p.threads[t] == Waiting(s, closed)
    ensures var q := Taken(p, t, s, closed, joins);
            Follows(p, q, t) && forall k :: k in q.clients ==> CountsFollow(p, q, t, k)
  {
  }

  lemma TakenClients(p: Pool, t: nat, s: nat, closed: bool, joins: bool)
    requires t in p.threads && s in p.clients
    ensures var q := Taken(p, t, s, closed, joins);
            && q.clients.Keys == p.clients.Keys && q.notified == p.notified - {t}
            && (forall k :: k in p.clients ==> q.clients[k].host == p.clients[k].host)
            && (forall k :: k in p.clients && p.clients[k].inUse ==> q.clients[k].inUse)
            && q.clients[s].inUse && t in q.threads && (q.threads[t].Waiting? || q.threads[t].Holding?) && q.threads[t].session == s
  {
  }

  lemma TakeKeeps(p: Pool, t: nat, s: nat, closed: bool, joins: bool, max: nat)
    requires Inv(p, max) && t in p.threads && s in p.clients
    requires if joins then p.threads[t] == Free else p.threads[t] == Waiting(s, closed)
    ensures Inv(Taken(p, t, s, closed, joins), max)
  {
    hide OfHost, Users, Holders, Taken, Counted, CountsFollow, Limited;
    var q := Taken(p, t, s, closed, joins);
    TakenCounts(p, t, s, closed, joins);
    TakenClients(p, t, s, closed, joins);
    assert forall k :: k in q.clients <==> k in q.clients.Keys;
    assert forall k :: k in p.clients <==> k in p.clients.Keys;
    KeepCounted(p, q, t);
    KeepPresent(p, q, t);
    KeepApart(p, q, t);
    SameHosts(p.clients, q.clients);
    LimitedSame(p, q, max);
    KeepAlert(p, q, t, max);
  }

  lemma LimitedSame(p: Pool, q: Pool, max: nat)
    requires Limited(p, max) && forall host :: OfHost(q.clients, host) == OfHost(p.clients, host)
    ensures Limited(q, max)
  {
    hide OfHost;
  }

  /** A new connection, behind the test for room. */
  lemma CreateKeeps(p: Pool, t: nat, s: nat, closed: bool, host: string, max: nat)
    requires Inv(p, max) && t in p.threads && MayWait(p, t, s)
    requires p.threads[t] == Free || (p.threads[t].AtLimit? && p.threads[t].session == s)
    requires max == 0 || |OfHost(p.clients, host)| < max
    ensures Inv(Moved(p, Create(p.clients, s, host), t, Holding(s, closed, false)), max)
  {
    hide OfHost, Users, Holders;
    var q := Moved(p, Create(p.clients, s, host), t, Holding(s, closed, false));
    assert Follows(p, q, t);
    KeepCounted(p, q, t);
    KeepPresent(p, q, t);
    KeepApart(p, q, t);
    forall h ensures |OfHost(q.clients, h)| == |OfHost(p.clients, h)| + B(h == host) {
      HostsAfter(p.clients, s, Assoc(host, true, 1, false), h);
    }
    KeepLimited(p, q, max);
    KeepAlert(p, q, t, max);
  }

  lemma RoomKeeps(p: Pool, t: nat, s: nat, closed: bool, host: string, max: nat)
    requires Inv(p, max) && t in p.threads && MayWait(p, t, s)
    requires p.threads[t] == Free || (p.threads[t].AtLimit? && p.threads[t].session == s)
    ensures Inv(TryCreate(p, t, s, closed, host, max), max)
  {
    hide Inv, OfHost;
    match CheckLimit(p.clients, host, max)
    case Room => CreateKeeps(p, t, s, closed, host, max);
    case AllBusy => MoveKeeps(p, t, Free, max);
    case Reached => MoveKeeps(p, t, AtLimit(s, closed, host), max);
  }

  /** The holder leaves, and with a closed session takes an unused connection with it. */
  lemma FinishKeeps(p: Pool, t: nat, max: nat)
    requires Inv(p, max) && t in p.threads && p.threads[t].Holding?
    ensures Inv(Pool(Release(p.clients, p.threads[t].session, p.threads[t].closed), p.threads[t := Free], p.threads.Keys), max)
  {
    hide OfHost, Users, Holders;
    var (s, closed) := (p.threads[t].session, p.threads[t].closed);
    var q := Pool(Release(p.clients, s, closed), p.threads[t := Free], p.threads.Keys);
    HolderIs(p, t, s);
    assert Follows(p, q, t);
    KeepCounted(p, q, t);
    forall k | k in p.clients && k !in q.clients ensures Users(q.threads, k) == {} {
      assert k == s && p.clients[s].queueLen == 1;
      UsersAfter(p.threads, t, Free, s);
    }
    KeepPresent(p, q, t);
    KeepApart(p, q, t);
    forall h ensures |OfHost(q.clients, h)| <= |OfHost(p.clients, h)| {
      var a := p.clients[s].(inUse := false, queueLen := p.clients[s].queueLen - 1, destroyed := closed || p.clients[s].destroyed);
      HostsAfter(p.clients, s, a, h);
    }
    KeepLimited(p, q, max);
    assert q.notified == q.threads.Keys;
  }

  // ---------- every step, every run ----------

  lemma StepKeeps(p: Pool, step: Step, max: nat)
    requires Inv(p, max) && Enabled(p, step) && OneInit(p, step)
    ensures Inv(Apply(p, step, max), max)
  {
    var thread := p.threads[step.t];
    assert thread.AtLimit? ==> MayWait(p, step.t, thread.session);
    assert thread.Waiting? || thread.Holding? ==> thread.session in p.clients;
    hide Inv, OfHost, TryTake, TryCreate;
    match step
    case Enter(t, req) =>
      if req.session in p.clients {
        TakeKeeps(p, t, req.session, req.closed, true, max);
      } else if Creates(req, p.clients) {
        RoomKeeps(p, t, req.session, req.closed, req.kind.target.value, max);
      } else {
        MoveKeeps(p, t, Free, max);
      }
    case Wake(t) => TakeKeeps(p, t, thread.session, thread.closed, false, max);
    case Recheck(t, timedOut) =>
      if timedOut {
        MoveKeeps(p, t, Free, max);
      } else {
        RoomKeeps(p, t, thread.session, thread.closed, thread.host, max);
      }
    case Send(t, closes) =>
      MoveKeeps(p, t, Holding(thread.session, thread.closed || (closes && Relays(p, thread.session)), true), max);
    case Finish(t) => FinishKeeps(p, t, max);
  }

  predicate Goes(p: Pool, step: Step, q: Pool, max: nat) {
    Enabled(p, step) && q == Apply(p, step, max)
  }

  /** states is a run from an initial pool under a fixed limit, whatever the sessions send. */
  ghost predicate AnyRun(states: seq<Pool>, steps: seq<Step>, max: nat) {
    && |states| == |steps| + 1
    && Initial(states[0])
    && forall i :: 0 <= i < |steps| ==> Goes(states[i], steps[i], states[i + 1], max)
  }

  /** A run in which no session sends a second Init while its first waits for room. */
  ghost predicate Run(states: seq<Pool>, steps: seq<Step>, max: nat) {
    AnyRun(states, steps, max) && forall i :: 0 <= i < |steps| ==> OneInit(states[i], steps[i])
  }

  lemma {:induction false} RunKeeps(states: seq<Pool>, steps: seq<Step>, max: nat, i: nat)
    requires Run(states, steps, max) && i < |states|
    ensures Inv(states[i], max)
    decreases i
  {
    hide Inv, Enabled, Apply, Initial, OneInit;
    if i == 0 {
      InitialHolds(states[0], max);
    } else {
      RunKeeps(states, steps, max, i - 1);
      assert Goes(states[i - 1], steps[i - 1], states[i - 1 + 1], max) && OneInit(states[i - 1], steps[i - 1]);
      StepKeeps(states[i - 1], steps[i - 1], max);
    }
  }

  lemma InitialHolds(p: Pool, max: nat)
    requires Initial(p)
    ensures Inv(p, max)
  {
    forall host ensures OfHost(p.clients, host) == {} { }
  }

  // ---------- what it is for ----------

  /** Two threads never hold the same connection. */
  lemma OneHolder(states: seq<Pool>, steps: seq<Step>, max: nat, i: nat, t: nat, u: nat)
    requires Run(states, steps, max) && i < |states| && t in states[i].threads && u in states[i].threads
    requires states[i].threads[t].Holding? && states[i].threads[u].Holding?
    requires states[i].threads[t].session == states[i].threads[u].session
    ensures t == u
  {
    RunKeeps(states, steps, max, i);
    HolderIs(states[i], t, states[i].threads[t].session);
    HolderIs(states[i], u, states[i].threads[t].session);
    assert u in Holders(states[i].threads, states[i].threads[t].session);
  }

  /** A connection disappears only in the step in which its last user leaves with a closed session. */
  lemma DeletedWhenUnused(p: Pool, step: Step, max: nat, s: nat)
    requires Inv(p, max) && Enabled(p, step) && s in p.clients
    ensures var q := Apply(p, step, max);
            s !in q.clients <==> step.Finish? && p.threads[step.t].session == s && p.threads[step.t].closed && Users(p.threads, s) == {step.t}
  {
    hide OfHost, Holders;
    var thread := p.threads[step.t];
    if step.Finish? && thread.session == s {
      HolderIs(p, step.t, s);
      UsersAlone(p, step.t, s);
    }
  }

  lemma UsersAlone(p: Pool, t: nat, s: nat)
    requires t in p.threads && Uses(p.threads[t], s)
    ensures |Users(p.threads, s)| == 1 <==> Users(p.threads, s) == {t}
  {
    var x := Users(p.threads, s);
    assert t in x;
    Minus(x, t);
    if |x| == 1 { assert x == {t} + (x - {t}); }
  }

  /** No run gives a host more connections than the limit. */
  lemma LimitHolds(states: seq<Pool>, steps: seq<Step>, max: nat, i: nat, host: string)
    requires Run(states, steps, max) && i < |states| && max > 0
    ensures |OfHost(states[i].clients, host)| <= max
  {
    RunKeeps(states, steps, max, i);
    hide OfHost;
  }

  /** A connection some thread waits for is held by another, or the waiting thread has been woken and
      takes it with its next step. */
  lemma NoLostWakeup(states: seq<Pool>, steps: seq<Step>, max: nat, i: nat, t: nat)
    requires Run(states, steps, max) && i < |states| && t in states[i].threads && states[i].threads[t].Waiting?
    ensures var (p, thread) := (states[i], states[i].threads[t]);
            (exists u :: u in p.threads && Holds(p.threads[u], thread.session))
            || (t in p.notified && Apply(p, Wake(t), max).threads[t] == Holding(thread.session, thread.closed, false))
  {
    RunKeeps(states, steps, max, i);
    var (p, s) := (states[i], states[i].threads[t].session);
    assert s in p.clients;
    if p.clients[s].inUse {
      assert Holders(p.threads, s) != {};
      var u :| u in Holders(p.threads, s);
    }
  }

  // ---------- a second Init while the first waits for room ----------

  /** Such an Init keeps the invariant if and only if it is turned away. */
  lemma SecondInitKeeps(p: Pool, t: nat, req: Request, max: nat)
    requires Inv(p, max) && Enabled(p, Enter(t, req)) && Creates(req, p.clients)
    ensures Inv(Apply(p, Enter(t, req), max), max) <==>
            OneInit(p, Enter(t, req)) || CheckLimit(p.clients, req.kind.target.value, max) == AllBusy
  {
    hide OfHost, Users, Holders, CheckLimit, IdleOf;
    var (step, host) := (Enter(t, req), req.kind.target.value);
    var q := Apply(p, step, max);
    if OneInit(p, step) {
      StepKeeps(p, step, max);
    } else {
      var u :| u in p.threads && p.threads[u].AtLimit? && p.threads[u].session == req.session;
      match CheckLimit(p.clients, host, max)
      case Room =>
        assert q.threads[u].AtLimit? && q.threads[u].session in q.clients;
      case AllBusy => MoveKeeps(p, t, Free, max);
      case Reached =>
        assert SameWait(q.threads[t], q.threads[u]);
    }
  }

  /** Thread u waits for room for its session and t takes up another Init of the session, then u looks
      again: both hold the session's connection if and only if there is room for both in turn. The
      second connection has then taken the place of the first. */
  lemma BothHold(p: Pool, t: nat, u: nat, req: Request, max: nat)
    requires Inv(p, max) && Enabled(p, Enter(t, req)) && Creates(req, p.clients)
    requires u in p.threads && p.threads[u].AtLimit? && p.threads[u].session == req.session
    ensures var (s, g, h) := (req.session, req.kind.target.value, p.threads[u].host);
            var q := Apply(Apply(p, Enter(t, req), max), Recheck(u, false), max);
            && (Holds(q.threads[t], s) && Holds(q.threads[u], s) <==>
                CheckLimit(p.clients, g, max) == Room && CheckLimit(Create(p.clients, s, g), h, max) == Room)
            && (Holds(q.threads[t], s) && Holds(q.threads[u], s) ==> q.clients == Create(p.clients, s, h))
  {
    hide OfHost, IdleOf, CheckLimit, Inv;
    var (s, g, h) := (req.session, req.kind.target.value, p.threads[u].host);
    assert Create(Create(p.clients, s, g), s, h) == Create(p.clients, s, h);
  }

  /** The holder's request is relayed, and it leaves. */
  lemma Leaves(p: Pool, t: nat, closes: bool, max: nat) returns (states: seq<Pool>, steps: seq<Step>)
    requires t in p.threads && p.threads[t].Holding? && !p.threads[t].sent
    ensures steps == [Send(t, closes), Finish(t)] && |states| == 3 && states[0] == p
    ensures forall i :: 0 <= i < 2 ==> Goes(states[i], steps[i], states[i + 1], max)
    ensures states[2].threads == p.threads[t := Free]
    ensures var s := p.threads[t].session;
            states[2].clients == Release(p.clients, s, p.threads[t].closed || (closes && Relays(p, s)))
  {
    hide OfHost, IdleOf, CheckLimit, Release;
    var p1 := Apply(p, Send(t, closes), max);
    var p2 := Apply(p1, Finish(t), max);
    states, steps := [p, p1, p2], [Send(t, closes), Finish(t)];
    assert p2.threads == p.threads[t := Free];
  }

  /** Sessions 5 and 7 and a limit of one: 5 has the only connection to h when 7 asks for one, and gives
      it up. */
  lemma GivesUp() returns (states: seq<Pool>, steps: seq<Step>)
    ensures AnyRun(states, steps, 1) && |steps| == 7
    ensures forall i :: 0 <= i < 7 ==> OneInit(states[i], steps[i])
    ensures states[7].threads == map[0 := Free, 1 := AtLimit(7, false, "h"), 2 := Free] && states[7].clients == map[]
  {
    hide OfHost, IdleOf, Apply, OneInit, Goes, CheckLimit;
    var first, last, wait := Request(5, false, Init(Some("h"))), Request(5, true, Other), Request(7, false, Init(Some("h")));
    var p0 := Pool(map[], map[0 := Free, 1 := Free, 2 := Free], {});
    var p1 := EntersRoom(p0, 0, first, 1);
    var a, x := Leaves(p1, 0, false, 1);
    var p3 := a[2];
    assert p3.threads == p0.threads && p3.clients == map[5 := Assoc("h", false, 0, false)];
    var p4 := EntersWait(p3, 1, wait, 5);
    var p5 := TakesFree(p4, 0, last, 1);
    var b, y := Leaves(p5, 0, false, 1);
    states, steps := [p0] + a + [p4] + b, [Enter(0, first)] + x + [Enter(1, wait), Enter(0, last)] + y;
    Quiet(p0, 0, first); Quiet(p3, 1, wait); Quiet(p4, 0, last);
    forall i | 0 <= i < 7 ensures OneInit(states[i], steps[i]) { NotInit(states[i], steps[i]); }
  }

  /** Session 7 has meanwhile sent another Init, for g: both threads end up holding its connection. */
  lemma SecondInitBreaks() returns (states: seq<Pool>, steps: seq<Step>)
    ensures AnyRun(states, steps, 1) && |steps| == 9
    ensures forall i :: 0 <= i < 9 && i != 7 ==> OneInit(states[i], steps[i])
    ensures states[9].threads == map[0 := Free, 1 := Holding(7, false, false), 2 := Holding(7, false, false)]
    ensures states[9].clients == map[7 := Assoc("h", true, 1, false)]
  {
    hide OfHost, IdleOf, Apply, OneInit, Goes, CheckLimit;
    var second := Request(7, false, Init(Some("g")));
    states, steps := GivesUp();
    var p8 := EntersRoom(states[7], 2, second, 1);
    var p9 := LooksAgain(p8, 1, 7, "h");
    NotInit(p8, Recheck(1, false));
    states, steps := states + [p8, p9], steps + [Enter(2, second), Recheck(1, false)];
  }

  lemma Quiet(p: Pool, t: nat, req: Request)
    requires req.kind == Other || forall u :: u in p.threads ==> p.threads[u] == Free
    ensures OneInit(p, Enter(t, req))
  {
  }

  lemma NotInit(p: Pool, step: Step)
    ensures !step.Enter? ==> OneInit(p, step)
  {
  }

  lemma Lone(s: nat, a: Assoc, host: string)
    ensures |OfHost(map[s := a], host)| == B(a.host == host)
    ensures a.host == host && !a.inUse ==> IdleOf(map[s := a], host) == {s}
  {
    if a.host == host {
      assert OfHost(map[s := a], host) == {s};
    } else {
      assert OfHost(map[s := a], host) == {};
    }
  }

  /** A new connection where there is none yet. */
  lemma EntersRoom(p: Pool, t: nat, req: Request, max: nat) returns (q: Pool)
    requires p.clients == map[] && t in p.threads && p.threads[t] == Free && req.kind.Init? && req.kind.target.Some?
    ensures Goes(p, Enter(t, req), q, max)
    ensures q.clients == map[req.session := Assoc(req.kind.target.value, true, 1, false)]
    ensures q.threads == p.threads[t := Holding(req.session, req.closed, false)]
  {
    assert OfHost(p.clients, req.kind.target.value) == {};
    q := Apply(p, Enter(t, req), max);
  }

  lemma EntersWait(p: Pool, t: nat, req: Request, s: nat) returns (q: Pool)
    requires t in p.threads && p.threads[t] == Free && req.kind.Init? && req.kind.target.Some?
    requires s != req.session && p.clients == map[s := Assoc(req.kind.target.value, false, 0, false)]
    ensures Goes(p, Enter(t, req), q, 1)
    ensures q.clients == p.clients && q.threads == p.threads[t := AtLimit(req.session, req.closed, req.kind.target.value)]
  {
    hide OfHost, IdleOf;
    Lone(s, p.clients[s], req.kind.target.value);
    q := Apply(p, Enter(t, req), 1);
  }

  /** The session's connection is there: the request takes it, or waits for it. */
  lemma TakesFree(p: Pool, t: nat, req: Request, max: nat) returns (q: Pool)
    requires t in p.threads && p.threads[t] == Free && req.session in p.clients
    ensures Goes(p, Enter(t, req), q, max)
    ensures var a := p.clients[req.session];
            && q.clients == p.clients[req.session := a.(inUse := true, queueLen := a.queueLen + 1)]
            && q.threads == p.threads[t := if a.inUse then Waiting(req.session, req.closed) else Holding(req.session, req.closed, false)]
  {
    hide OfHost, IdleOf;
    q := Apply(p, Enter(t, req), max);
  }

  lemma LooksAgain(p: Pool, t: nat, s: nat, host: string) returns (q: Pool)
    requires t in p.threads && p.threads[t] == AtLimit(s, false, host)
    requires s in p.clients && p.clients == map[s := p.clients[s]] && p.clients[s].host != host
    ensures Goes(p, Recheck(t, false), q, 1)
    ensures q.clients == map[s := Assoc(host, true, 1, false)] && q.threads == p.threads[t := Holding(s, false, false)]
  {
    hide OfHost, IdleOf;
    Lone(s, p.clients[s], host);
    q := Apply(p, Recheck(t, false), 1);
  }

  // ---------- closed sessions ----------

  /** Leaving with a closed session removes the connection at once, or marks it while others are queued. */
  lemma ClosedLeaves(p: Pool, t: nat, max: nat)
    requires Inv(p, max) && Enabled(p, Finish(t)) && p.threads[t].closed
    ensures var (q, s) := (Apply(p, Finish(t), max), p.threads[t].session);
            if Users(p.threads, s) == {t} then s !in q.clients else s in q.clients && q.clients[s].destroyed
  {
    hide OfHost, Holders;
    HolderIs(p, t, p.threads[t].session);
    UsersAlone(p, t, p.threads[t].session);
  }

  /** A marked connection whose last user leaves with an open session stays in the pool, unused and
      relaying nothing: only a closed session takes it away. */
  lemma MarkedMayStay(p: Pool, t: nat, max: nat)
    requires Inv(p, max) && Enabled(p, Finish(t)) && !p.threads[t].closed
    ensures var (q, s) := (Apply(p, Finish(t), max), p.threads[t].session);
            s in q.clients && !q.clients[s].inUse && q.clients[s].destroyed == p.clients[s].destroyed
            && (Users(p.threads, s) == {t} ==> q.clients[s].queueLen == 0)
  {
    hide OfHost, Holders;
    HolderIs(p, t, p.threads[t].session);
    UsersAlone(p, t, p.threads[t].session);
  }

  /** A session closes while another request of its own is queued: the connection, marked and without
      users, is still in the pool when everybody has left. */
  lemma MarkedStaysBehind() returns (states: seq<Pool>, steps: seq<Step>)
    ensures Run(states, steps, 0) && |steps| == 7
    ensures states[7].threads == map[0 := Free, 1 := Free]
    ensures states[7].clients == map[7 := Assoc("h", false, 0, true)]
  {
    hide OfHost, IdleOf, Apply, OneInit, Goes, CheckLimit;
    var p0 := Pool(map[], map[0 := Free, 1 := Free], {});
    var open, other := Request(7, false, Init(Some("h"))), Request(7, false, Other);
    var p1 := EntersRoom(p0, 0, open, 0);
    var p2 := TakesFree(p1, 1, other, 0);
    var a, x := Leaves(p2, 0, true, 0);
    var p5 := WakesUp(a[2], 1, 7, 0);
    var b, y := Leaves(p5, 1, false, 0);
    states, steps := [p0, p1] + a + b, [Enter(0, open), Enter(1, other)] + x + [Wake(1)] + y;
    Quiet(p0, 0, open); Quiet(p1, 1, other);
    forall i | 0 <= i < 7 ensures OneInit(states[i], steps[i]) { NotInit(states[i], steps[i]); }
  }

  lemma WakesUp(p: Pool, t: nat, s: nat, max: nat) returns (q: Pool)
    requires t in p.threads && p.threads[t] == Waiting(s, false) && s in p.clients && !p.clients[s].inUse
    ensures Goes(p, Wake(t), q, max)
    ensures q.clients == p.clients[s := p.clients[s].(inUse := true)] && q.threads == p.threads[t := Holding(s, false, false)]
  {
    hide OfHost, IdleOf;
    q := Apply(p, Wake(t), max);
  }

  // ---------- what each region decides ----------

  /** The connections to a host. */
  ghost function ToHost(clients: Clients, host: string): set<nat> {
    set s | s in clients && clients[s].host == host
  }

  ghost predicate AnyIdle(clients: Clients, host: string) {
    exists s :: s in clients && clients[s].host == host && !clients[s].inUse
  }

  /** Looking for room: below the limit a connection is made; at the limit the request waits if some
      connection to the host is idle, and is turned away at once if all are busy. */
  ghost predicate RoomDecides(p: Pool, q: Pool, t: nat, s: nat, closed: bool, host: string, max: nat) {
    && q.notified == p.notified - {t}
    && if max == 0 || |ToHost(p.clients, host)| < max then
         q.clients == p.clients[s := Assoc(host, true, 1, false)] && q.threads == p.threads[t := Holding(s, closed, false)]
       else
         q.clients == p.clients && q.threads == p.threads[t := if AnyIdle(p.clients, host) then AtLimit(s, closed, host) else Free]
  }

  lemma CreateDecides(p: Pool, t: nat, s: nat, closed: bool, host: string, max: nat)
    ensures RoomDecides(p, TryCreate(p, t, s, closed, host, max), t, s, closed, host, max)
  {
    assert ToHost(p.clients, host) == OfHost(p.clients, host);
    hide OfHost;
    if k :| k in p.clients && p.clients[k].host == host && !p.clients[k].inUse {
      assert k in IdleOf(p.clients, host);
    } else {
      assert IdleOf(p.clients, host) == {};
    }
  }

  /** A request that enters: one of a session with a connection takes it or waits for it; an Init that
      names one target looks for room; any other is not served. */
  lemma EnterDecides(p: Pool, t: nat, req: Request, max: nat)
    requires Enabled(p, Enter(t, req))
    ensures var q := Apply(p, Enter(t, req), max);
            if req.session in p.clients then
              var a := p.clients[req.session];
              && q.clients == p.clients[req.session := a.(inUse := true, queueLen := a.queueLen + 1)]
              && q.threads == p.threads[t := if a.inUse then Waiting(req.session, req.closed) else Holding(req.session, req.closed, false)]
            else if req.kind.Init? && req.kind.target.Some? then
              RoomDecides(p, q, t, req.session, req.closed, req.kind.target.value, max)
            else q.clients == p.clients && q.threads == p.threads[t := Free]
  {
    hide RoomDecides, CheckLimit;
    if req.session !in p.clients && req.kind.Init? && req.kind.target.Some? {
      CreateDecides(p, t, req.session, req.closed, req.kind.target.value, max);
    }
  }

  /** A thread that waits for room looks again, unless its time is up. */
  lemma RecheckDecides(p: Pool, t: nat, timedOut: bool, max: nat)
    requires Enabled(p, Recheck(t, timedOut))
    ensures var (q, thread) := (Apply(p, Recheck(t, timedOut), max), p.threads[t]);
            if timedOut then q.clients == p.clients && q.threads == p.threads[t := Free]
            else RoomDecides(p, q, t, thread.session, thread.closed, thread.host, max)
  {
    hide RoomDecides, CheckLimit;
    if !timedOut { CreateDecides(p, t, p.threads[t].session, p.threads[t].closed, p.threads[t].host, max); }
  }

  /** The exchange with the target closes the session's own copy just when the target does, and a
      connection that is marked is not used for one. */
  lemma SendDecides(p: Pool, t: nat, closes: bool, max: nat)
    requires Inv(p, max) && Enabled(p, Send(t, closes))
    ensures var (q, thread) := (Apply(p, Send(t, closes), max), p.threads[t]);
            && q.clients == p.clients && thread.session in p.clients
            && q.threads == p.threads[t := Holding(thread.session, thread.closed || (closes && !p.clients[thread.session].destroyed), true)]
  {
    hide OfHost, Users, Holders;
    HolderIs(p, t, p.threads[t].session);
  }

  /** Leaving frees the connection, marks it if the session is closed, and wakes everybody. */
  lemma FinishDecides(p: Pool, t: nat, max: nat)
    requires Inv(p, max) && Enabled(p, Finish(t))
    ensures var (q, s, closed) := (Apply(p, Finish(t), max), p.threads[t].session, p.threads[t].closed);
            && s in p.clients && q.threads == p.threads[t := Free] && q.notified == p.threads.Keys
            && if closed && Users(p.threads, s) == {t} then q.clients.Keys == p.clients.Keys - {s} && forall k :: k in q.clients ==> q.clients[k] == p.clients[k]
               else q.clients == p.clients[s := Assoc(p.clients[s].host, false, p.clients[s].queueLen - 1, closed || p.clients[s].destroyed)]
  {
    hide OfHost, Holders;
    HolderIs(p, t, p.threads[t].session);
    UsersAlone(p, t, p.threads[t].session);
  }
}
