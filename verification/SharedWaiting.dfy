/** Requests that wait for a connection in use, src/filter_session_shared.cpp:305-335, 519-520 and 832-837:
    a release wakes them, a removal does not. */
module SharedWaiting {
  import opened Databases
  import opened Rpn
  import opened SharedPool
  import opened SharedProtocol
  import opened SharedInvariant
  import opened SharedTheorems
  import opened Options

  // ---------- what a step does to those who sleep ----------

  /** The set a request has found. */
  function SetFound(s: System, f: nat): BackendSet
    requires f in s.fronts && s.fronts[f].pc.Found? && s.fronts[f].pc.session in s.pool.backends
    requires HasSet(s.pool.backends[s.fronts[f].pc.session].sets, s.fronts[f].pc.id)
  {
    var sets := s.pool.backends[s.fronts[f].pc.session].sets;
    sets[IndexOfSet(sets, s.fronts[f].pc.id)]
  }

  /** The request answers from the cache, or is a search: the target is not asked. */
  predicate NoTarget(s: System, f: nat)
    requires Enabled(s, Finish(f, true, 0))
  {
    s.fronts[f].pc.call.SearchCall? || InCache(SetFound(s, f), s.fronts[f].pc.call)
  }

  /** The step gives a connection back, or fails to make one: everybody who sleeps is woken. */
  predicate Notifies(t: Target, s: System, step: Step)
    requires Enabled(s, step)
  {
    match step
    case InitReply(_, _, got, accepted, _) => !(got && accepted)
    case SearchReply(f, alive, _) =>
      var want := WantOf(s.fronts[f].pc.call);
      alive && t.search(Normal(want.databases), want.query, want.info).Fails?
    case Finish(f, alive, _) => alive || NoTarget(s, f)
    case ScanReply(_, alive) => alive
    case InitRelease(_) => true
    case _ => false
  }

  /** The step takes connection b, which its frontend holds, out of the pool because the target is gone. */
  predicate Drops(s: System, step: Step, b: Session)
    requires Enabled(s, step)
  {
    match step
    case SearchReply(f, alive, _) => !alive && s.fronts[f].pc.session == b
    case Finish(f, alive, _) => !alive && !NoTarget(s, f) && s.fronts[f].pc.session == b
    case ScanReply(f, alive) => !alive && s.fronts[f].pc.session == b
    case _ => false
  }

  /** Whose turn it is. */
  function Actor(step: Step): Option<nat> {
    match step
    case ExpireStep(_) => None
    case Wakeup(f) => None
    case _ => Some(step.f)
  }

  /** Who sleeps after a step: nobody if it notifies; otherwise one more, one less or the same. */
  ghost predicate AsleepFollows(t: Target, s: System, step: Step, s': System)
    requires Enabled(s, step)
  {
    if Notifies(t, s, step) then s'.asleep == map[]
    else if step.Wakeup? then s'.asleep == s.asleep - {step.f}
    else s'.asleep == s.asleep || (step.LookStep? && FallsAsleep(s, step.f, s'))
  }

  /** Frontend f has found what it wants at a connection in use. */
  ghost predicate FallsAsleep(s: System, f: nat, s': System) {
    && f in s'.asleep && s'.asleep == s.asleep[f := s'.asleep[f]]
    && f in s'.fronts && s'.fronts[f].pc.Looking? && s'.pool == s.pool && HeldAndUsed(s', s'.asleep[f])
  }

  /** A step of one frontend leaves the others where they stand. */
  ghost predicate OthersStay(s: System, step: Step, s': System) {
    forall g :: g in s.fronts && Actor(step) != Some(g) ==> g in s'.fronts && s'.fronts[g] == s.fronts[g]
  }

  lemma FinishStands(t: Target, cfg: Config, s: System, step: Step)
    requires step.Finish? && Enabled(s, step)
    ensures AsleepFollows(t, s, step, Apply(s, t, cfg, step)) && OthersStay(s, step, Apply(s, t, cfg, step))
  {
    hide Normal, IndexOfSet, HasSet, Cached, Added, FromCache, Proper, Remove, Presented;
  }

  lemma LookStands(t: Target, cfg: Config, s: System, step: Step)
    requires step.LookStep? && Enabled(s, step)
    ensures AsleepFollows(t, s, step, Apply(s, t, cfg, step)) && OthersStay(s, step, Apply(s, t, cfg, step))
  {
    hide Proper, Override, Fits;
  }

  lemma OtherStands(t: Target, cfg: Config, s: System, step: Step)
    requires !step.Finish? && !step.LookStep? && Enabled(s, step)
    ensures AsleepFollows(t, s, step, Apply(s, t, cfg, step)) && OthersStay(s, step, Apply(s, t, cfg, step))
  {
    hide Normal, HasSet, Proper, LeastRecent, Remove, Expire, SearchStarted, PresentStarted, Create;
  }

  lemma StepStands(t: Target, cfg: Config, s: System, step: Step)
    requires Enabled(s, step)
    ensures AsleepFollows(t, s, step, Apply(s, t, cfg, step)) && OthersStay(s, step, Apply(s, t, cfg, step))
  {
    hide Enabled, Apply, AsleepFollows, OthersStay;
    match step
    case Finish(_, _, _) => FinishStands(t, cfg, s, step);
    case LookStep(_, _) => LookStands(t, cfg, s, step);
    case _ => OtherStands(t, cfg, s, step);
  }

  lemma RemoveKeys(p: Pool, b: Session)
    requires Proper(p) && b in p.backends
    ensures Remove(p, b).backends.Keys == p.backends.Keys - {b}
    ensures forall x :: x in p.backends && x != b ==> Remove(p, x).backends.Keys == p.backends.Keys - {x} && Remove(p, b).backends[x] == p.backends[x]
  {
  }

  /** What a step does to the connections: one that has been known is not made again; one in use
      leaves the pool just when its holder finds the target gone, and becomes idle only with a
      notification. */
  ghost predicate Follows(t: Target, s: System, step: Step, s': System)
    requires Enabled(s, step)
  {
    && (forall b :: b in s.held ==> b in s'.held && (b in s'.pool.backends ==> b in s.pool.backends))
    && (forall b :: HeldAndUsed(s, b) ==> UseFollows(t, s, step, s', b))
  }

  ghost predicate UseFollows(t: Target, s: System, step: Step, s': System, b: Session)
    requires Enabled(s, step)
  {
    && (b !in s'.pool.backends <==> Drops(s, step, b))
    && (b in s'.pool.backends && !Notifies(t, s, step) ==> HeldAndUsed(s', b))
  }

  lemma LookFollows(t: Target, cfg: Config, s: System, step: Step)
    requires Inv(t, s) && step.LookStep? && Enabled(s, step)
    ensures Follows(t, s, step, Apply(s, t, cfg, step))
  {
    hide Inv, BackendOk, FreeId, Override, FirstMatch, Fits, Proper;
    PoolFacts(t, s);
    var pc := s.fronts[step.f].pc;
    var o := if pc.out.Some? then pc.out.value else |s.pool.order| >= cfg.sessionMax;
    OverrideOk(t, s.pool, cfg, WantOf(pc.call).databases, o, step.now, s.held);
  }

  lemma SearchReplyFollows(t: Target, cfg: Config, s: System, step: Step)
    requires Inv(t, s) && step.SearchReply? && Enabled(s, step)
    ensures Follows(t, s, step, Apply(s, t, cfg, step))
  {
    hide Inv, BackendOk, Proper, Remove, Normal;
    PoolFacts(t, s);
    RemoveKeys(s.pool, s.fronts[step.f].pc.session);
  }

  lemma FinishPool(t: Target, cfg: Config, s: System, step: Step)
    requires step.Finish? && Enabled(s, step)
    ensures var (s', b) := (Apply(s, t, cfg, step), s.fronts[step.f].pc.session);
            && s'.held == s.held
            && if !step.alive && !NoTarget(s, step.f) then s'.pool == Remove(s.pool, b)
               else s'.pool.backends.Keys == s.pool.backends.Keys && forall x :: x in s.pool.backends && x != b ==> s'.pool.backends[x] == s.pool.backends[x]
  {
    hide Proper, Remove, Normal, IndexOfSet, HasSet, Cached, Added, FromCache, Presented;
  }

  lemma FinishFollows(t: Target, cfg: Config, s: System, step: Step)
    requires Inv(t, s) && step.Finish? && Enabled(s, step)
    ensures Follows(t, s, step, Apply(s, t, cfg, step))
  {
    hide Inv, BackendOk, Proper, Remove, Apply, HasSet, NoTarget;
    PoolFacts(t, s);
    FinishPool(t, cfg, s, step);
    RemoveKeys(s.pool, s.fronts[step.f].pc.session);
  }

  lemma ExpireFollows(t: Target, cfg: Config, s: System, step: Step)
    requires Inv(t, s) && step.ExpireStep? && Enabled(s, step)
    ensures Follows(t, s, step, Apply(s, t, cfg, step))
  {
    hide Inv, BackendOk, Proper, ExpireFrom;
    PoolFacts(t, s);
    var s' := Apply(s, t, cfg, step);
    forall b: Session ensures b in s'.pool.backends <==> b in s.pool.backends && !Expired(s.pool.backends[b], cfg, step.now)
      ensures b in s'.pool.backends ==> s'.pool.backends[b] == s.pool.backends[b]
    {
      ExpireFacts(s.pool, cfg, step.now, 0, b);
    }
  }

  lemma ReleaseFollows(t: Target, cfg: Config, s: System, step: Step)
    requires Inv(t, s) && (step.ScanReply? || step.InitRelease?) && Enabled(s, step)
    ensures Follows(t, s, step, Apply(s, t, cfg, step))
  {
    hide Inv, BackendOk, Proper, Remove;
    PoolFacts(t, s);
    RemoveKeys(s.pool, s.fronts[step.f].pc.session);
  }

  lemma InitPool(t: Target, cfg: Config, s: System, step: Step)
    requires step.InitReply? && Enabled(s, step)
    ensures var s' := Apply(s, t, cfg, step);
            && (forall x :: x in s.held ==> x in s'.held)
            && s'.pool.backends == if step.got && step.accepted then s.pool.backends[step.session := Backend(true, [], 0, 0, step.now)] else s.pool.backends
  {
    hide Proper;
  }

  lemma InitFollows(t: Target, cfg: Config, s: System, step: Step)
    requires Inv(t, s) && step.InitReply? && Enabled(s, step)
    ensures Follows(t, s, step, Apply(s, t, cfg, step))
  {
    hide Inv, BackendOk, Proper, Apply;
    PoolFacts(t, s);
    InitPool(t, cfg, s, step);
  }

  lemma NameFollows(t: Target, cfg: Config, s: System, step: Step)
    requires Inv(t, s) && (step.NameStep? || step.StartScan?) && Enabled(s, step)
    ensures Follows(t, s, step, Apply(s, t, cfg, step))
  {
    hide Inv, BackendOk, Proper, LeastRecent;
    PoolFacts(t, s);
  }

  /** The other steps leave the pool alone. */
  lemma OtherFollows(t: Target, cfg: Config, s: System, step: Step)
    requires Inv(t, s) && Enabled(s, step)
    requires step.StartSearch? || step.StartPresent? || step.StartInit? || step.Wakeup?
    ensures Follows(t, s, step, Apply(s, t, cfg, step))
  {
    hide Inv, BackendOk, Proper, SearchStarted, PresentStarted;
    PoolFacts(t, s);
  }

  lemma StepFollows(t: Target, cfg: Config, s: System, step: Step)
    requires Inv(t, s) && Enabled(s, step)
    ensures Follows(t, s, step, Apply(s, t, cfg, step))
  {
    hide Inv, Enabled, Apply, Follows;
    match step
    case LookStep(_, _) => LookFollows(t, cfg, s, step);
    case SearchReply(_, _, _) => SearchReplyFollows(t, cfg, s, step);
    case Finish(_, _, _) => FinishFollows(t, cfg, s, step);
    case ExpireStep(_) => ExpireFollows(t, cfg, s, step);
    case ScanReply(_, _) => ReleaseFollows(t, cfg, s, step);
    case InitRelease(_) => ReleaseFollows(t, cfg, s, step);
    case InitReply(_, _, _, _, _) => InitFollows(t, cfg, s, step);
    case NameStep(_) => NameFollows(t, cfg, s, step);
    case StartScan(_) => NameFollows(t, cfg, s, step);
    case _ => OtherFollows(t, cfg, s, step);
  }

  // ---------- every run ----------

  /** A request that sleeps is in get_set; the connection it has seen in use is still in use, or gone. */
  ghost predicate AsleepOk(s: System) {
    forall f :: f in s.asleep ==> SleeperOk(s, f)
  }

  ghost predicate SleeperOk(s: System, f: nat)
    requires f in s.asleep
  {
    && f in s.fronts && s.fronts[f].pc.Looking?
    && s.asleep[f] in s.held
    && (s.asleep[f] in s.pool.backends ==> HeldAndUsed(s, s.asleep[f]))
  }

  /** A frontend that sleeps takes no step. */
  lemma SleeperRests(s: System, step: Step, f: nat)
    requires AsleepOk(s) && f in s.asleep && Enabled(s, step)
    ensures Actor(step) != Some(f)
  {
    hide Proper, HasSet;
    assert SleeperOk(s, f);
  }

  lemma StepAsleepOk(t: Target, cfg: Config, s: System, step: Step)
    requires Inv(t, s) && AsleepOk(s) && Enabled(s, step)
    ensures AsleepOk(Apply(s, t, cfg, step))
  {
    hide Inv, Apply, Enabled, Notifies, Drops, HeldAndUsed;
    var s' := Apply(s, t, cfg, step);
    StepStands(t, cfg, s, step);
    StepFollows(t, cfg, s, step);
    StepKeeps(t, cfg, s, step);
    forall f | f in s'.asleep ensures SleeperOk(s', f) {
      if f in s.asleep && s'.asleep[f] == s.asleep[f] {
        assert SleeperOk(s, f);
        SleeperRests(s, step, f);
      } else {
        UsedIsKnown(t, s', s'.asleep[f]);
      }
    }
  }

  lemma UsedIsKnown(t: Target, s: System, b: Session)
    requires Inv(t, s) && HeldAndUsed(s, b)
    ensures b in s.held
  {
    PoolFacts(t, s);
  }

  lemma {:induction false} RunAsleepOk(t: Target, cfg: Config, states: seq<System>, steps: seq<Step>, i: nat)
    requires Run(t, cfg, states, steps) && i < |states|
    ensures Inv(t, states[i]) && AsleepOk(states[i])
  {
    hide Inv, Apply, Enabled, SleeperOk;
    RunKeeps(t, cfg, states, steps, i);
    if i > 0 {
      RunAsleepOk(t, cfg, states, steps, i - 1);
      assert Goes(t, cfg, states[i - 1], steps[i - 1], states[i - 1 + 1]);
      StepAsleepOk(t, cfg, states[i - 1], steps[i - 1]);
    }
  }

  /** Connection b has been dropped by one of the first i steps. */
  ghost predicate Dropped(t: Target, cfg: Config, states: seq<System>, steps: seq<Step>, i: nat, b: Session)
    requires Run(t, cfg, states, steps) && i < |states|
  {
    exists j :: 0 <= j < i && DropsAt(t, cfg, states, steps, j, b)
  }

  ghost predicate DropsAt(t: Target, cfg: Config, states: seq<System>, steps: seq<Step>, j: nat, b: Session)
    requires Run(t, cfg, states, steps) && j < |steps|
  {
    assert Goes(t, cfg, states[j], steps[j], states[j + 1]);
    Drops(states[j], steps[j], b)
  }

  lemma DropTakes(t: Target, cfg: Config, states: seq<System>, steps: seq<Step>, j: nat, b: Session)
    requires Run(t, cfg, states, steps) && j < |steps| && DropsAt(t, cfg, states, steps, j, b)
    ensures b in states[j + 1].held && b !in states[j + 1].pool.backends
  {
    hide Inv, Apply, Proper, HasSet, NoTarget;
    RunKeeps(t, cfg, states, steps, j);
    assert Goes(t, cfg, states[j], steps[j], states[j + 1]);
    HolderIsAlone(t, states[j], steps[j].f, b);
    StepFollows(t, cfg, states[j], steps[j]);
    assert UseFollows(t, states[j], steps[j], states[j + 1], b);
  }

  lemma {:induction false} StaysOut(t: Target, cfg: Config, states: seq<System>, steps: seq<Step>, j: nat, i: nat, b: Session)
    requires Run(t, cfg, states, steps) && j <= i < |states| && b in states[j].held && b !in states[j].pool.backends
    ensures b in states[i].held && b !in states[i].pool.backends
  {
    hide Inv, Apply, Enabled, UseFollows;
    if j < i {
      StaysOut(t, cfg, states, steps, j, i - 1, b);
      RunKeeps(t, cfg, states, steps, i - 1);
      assert Goes(t, cfg, states[i - 1], steps[i - 1], states[i - 1 + 1]);
      StepFollows(t, cfg, states[i - 1], steps[i - 1]);
    }
  }

  lemma {:induction false} GoneWasDropped(t: Target, cfg: Config, states: seq<System>, steps: seq<Step>, i: nat, f: nat)
    requires Run(t, cfg, states, steps) && i < |states| && f in states[i].asleep
    requires states[i].asleep[f] !in states[i].pool.backends
    ensures Dropped(t, cfg, states, steps, i, states[i].asleep[f])
  {
    hide Inv, Apply, Enabled, Notifies, Drops, Proper;
    var b := states[i].asleep[f];
    assert i > 0;
    var (s, step) := (states[i - 1], steps[i - 1]);
    assert Goes(t, cfg, s, step, states[i - 1 + 1]);
    RunAsleepOk(t, cfg, states, steps, i - 1);
    StepStands(t, cfg, s, step);
    assert f in s.asleep && s.asleep[f] == b;
    if b in s.pool.backends {
      assert SleeperOk(s, f);
      StepFollows(t, cfg, s, step);
      assert UseFollows(t, s, step, states[i], b);
      assert DropsAt(t, cfg, states, steps, i - 1, b);
    } else {
      GoneWasDropped(t, cfg, states, steps, i - 1, f);
      var j :| 0 <= j < i - 1 && DropsAt(t, cfg, states, steps, j, b);
    }
  }

  /** Along a run, the connection a request sleeps for is in the pool exactly as long as it has not
      been dropped. */
  lemma SleepsUntilDropped(t: Target, cfg: Config, states: seq<System>, steps: seq<Step>, i: nat, f: nat)
    requires Run(t, cfg, states, steps) && i < |states| && f in states[i].asleep
    ensures states[i].asleep[f] in states[i].pool.backends <==> !Dropped(t, cfg, states, steps, i, states[i].asleep[f])
  {
    hide DropsAt, Goes, Initial;
    var b := states[i].asleep[f];
    if Dropped(t, cfg, states, steps, i, b) {
      var j :| 0 <= j < i && DropsAt(t, cfg, states, steps, j, b);
      DropTakes(t, cfg, states, steps, j, b);
      StaysOut(t, cfg, states, steps, j + 1, i, b);
    } else if b !in states[i].pool.backends {
      GoneWasDropped(t, cfg, states, steps, i, f);
    }
  }

  /** Frontend g holds connection b, and can go on whatever the target does. */
  ghost predicate CanReturn(s: System, g: nat, b: Session) {
    g in s.fronts && Holds(s.fronts[g].pc) == Some(b) && forall alive, now :: Enabled(s, NextOf(g, s.fronts[g].pc, alive, now))
  }

  /** A request that sleeps sleeps for a connection that another frontend holds and can give back, if
      and only if no step has dropped that connection. */
  lemma WaitingIsForAHolder(t: Target, cfg: Config, states: seq<System>, steps: seq<Step>, i: nat, f: nat)
    requires Run(t, cfg, states, steps) && i < |states| && f in states[i].asleep
    ensures (exists g :: g != f && CanReturn(states[i], g, states[i].asleep[f])) <==> !Dropped(t, cfg, states, steps, i, states[i].asleep[f])
  {
    hide Inv, Apply, Enabled, Proper, Dropped;
    var (s, b) := (states[i], states[i].asleep[f]);
    SleepsUntilDropped(t, cfg, states, steps, i, f);
    RunAsleepOk(t, cfg, states, steps, i);
    assert SleeperOk(s, f);
    if b in s.pool.backends {
      NoConnectionIsLost(t, cfg, states, steps, i, b);
      var g :| g in s.fronts && Holds(s.fronts[g].pc) == Some(b);
      forall alive, now ensures Enabled(s, NextOf(g, s.fronts[g].pc, alive, now)) {
        HolderAdvances(t, cfg, s, g, alive, now);
      }
      assert CanReturn(s, g, b);
    } else if g :| g != f && CanReturn(s, g, b) {
      HolderIsAlone(t, s, g, b);
    }
  }

  /** Whom a removal leaves behind stays asleep, for a connection that is gone, until some other
      connection is given back (or the wait ends by itself). */
  lemma StrandedStays(t: Target, cfg: Config, s: System, step: Step, f: nat)
    requires Inv(t, s) && AsleepOk(s) && Enabled(s, step) && f in s.asleep && s.asleep[f] !in s.pool.backends
    ensures var s' := Apply(s, t, cfg, step);
            && (f in s'.asleep <==> !Notifies(t, s, step) && step != Wakeup(f))
            && (f in s'.asleep ==> s'.asleep[f] == s.asleep[f] && s'.asleep[f] !in s'.pool.backends)
  {
    hide Inv, Apply, Enabled, Notifies, Drops;
    StepStands(t, cfg, s, step);
    StepFollows(t, cfg, s, step);
    SleeperRests(s, step, f);
    assert SleeperOk(s, f);
  }
}
