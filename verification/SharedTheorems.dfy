/** What holds in every state of every run of the shared session pool. */
module SharedTheorems {
  import opened Databases
  import opened Rpn
  import opened SharedPool
  import opened SharedProtocol
  import opened SharedInvariant
  import opened Options

  /** What a session of its own, with its own connection and its own result set, would be answered. */
  ghost predicate IsPrivate(t: Target, call: Call, reply: Reply) {
    var d := Normal(call.databases);
    match call
    case SearchCall(_, _, query, info) =>
      reply == (match t.search(d, query, info) case Hits(count, i) => SearchOk(count, i) case Fails(c) => Diagnostic(c))
    case PresentCall(_, query, _, start, number, format) =>
      match t.present(d, query, start, number, format)
      case Records(records) => reply.PresentOk? && reply.records == records
      case NoRecords(c) => reply == Diagnostic(c)
  }

  /** The target answers the whole range at once. */
  ghost predicate InFull(t: Target, call: Call)
    requires call.PresentCall?
  {
    var answer := t.present(Normal(call.databases), call.query, call.start, call.number, call.format);
    answer.Records? && |answer.records| == call.number
  }

  /** Sharing is invisible to a search, and to a Present answered by the target. One answered from the
      cache gets the records asked for, as a session of its own would just when the target answers such
      a range in full. One answered with a diagnostic gets the target's, unless the search that was
      repeated for it failed without the additional information it had succeeded with. */
  lemma SharedEqualsPrivate(t: Target, cfg: Config, states: seq<System>, steps: seq<Step>, i: nat, f: nat)
    requires Run(t, cfg, states, steps) && Coherent(t) && i < |states| && f in states[i].fronts
    requires states[i].fronts[f].pc.Done?
    ensures var (call, reply) := (states[i].fronts[f].pc.call, states[i].fronts[f].pc.reply);
            match reply
            case SearchOk(_, _) => IsPrivate(t, call, reply)
            case PresentOk(records, false) => IsPrivate(t, call, reply)
            case PresentOk(records, true) =>
              && call.PresentCall? && |records| == call.number
              && IsRecords(t, Normal(call.databases), call.query, call.start, call.format, records)
              && (IsPrivate(t, call, reply) <==> InFull(t, call))
            case Diagnostic(c) =>
              IsPrivate(t, call, reply) || (call.PresentCall? && Repeated(t, call, c))
            case Unavailable => true
  {
    hide Inv;
    RunKeeps(t, cfg, states, steps, i);
    FrontFacts(t, states[i], f);
    var (call, reply) := (states[i].fronts[f].pc.call, states[i].fronts[f].pc.reply);
    if reply.PresentOk? && reply.cached && InFull(t, call) {
      FullRecordsAgree(t, call, reply.records);
    }
  }

  /** The target finds hits with the additional information of the search, and fails without it. */
  ghost predicate Repeated(t: Target, call: Call, condition: int)
    requires call.PresentCall?
  {
    && t.search(Normal(call.databases), call.query, call.info).Hits?
    && t.search(Normal(call.databases), call.query, "") == Fails(condition)
  }

  lemma FullRecordsAgree(t: Target, call: Call, records: seq<Record>)
    requires Coherent(t) && call.PresentCall? && InFull(t, call) && |records| == call.number
    requires IsRecords(t, Normal(call.databases), call.query, call.start, call.format, records)
    ensures t.present(Normal(call.databases), call.query, call.start, call.number, call.format) == Records(records)
  {
    var answer := t.present(Normal(call.databases), call.query, call.start, call.number, call.format);
    assert IsRecords(t, Normal(call.databases), call.query, call.start, call.format, answer.records);
    assert answer.records == records;
  }

  /** Result set names at a connection are distinct, and the target holds under each name the result
      of the databases and query the pool has recorded for it, with the size recorded. */
  lemma TargetHoldsPool(t: Target, cfg: Config, states: seq<System>, steps: seq<Step>, i: nat, b: Session)
    requires Run(t, cfg, states, steps) && i < |states| && b in states[i].pool.backends
    ensures var sets := states[i].pool.backends[b].sets;
            && DistinctIds(sets) && b in states[i].held
            && forall k :: 0 <= k < |sets| ==>
                 && sets[k].id in states[i].held[b]
                 && states[i].held[b][sets[k].id] == Content(Normal(sets[k].databases), sets[k].query)
                 && t.search(Normal(sets[k].databases), sets[k].query, sets[k].infoRequest).Hits?
                 && t.search(Normal(sets[k].databases), sets[k].query, sets[k].infoRequest).count == sets[k].size
  {
    RunKeeps(t, cfg, states, steps, i);
    var s := states[i];
    assert BackendOk(t, s.pool.backends[b], s.held[b]);
    forall k | 0 <= k < |s.pool.backends[b].sets| ensures SetOk(t, s.pool.backends[b].sets[k], s.pool.backends[b].resultSetSequence, s.held[b]) {
    }
  }

  /** A connection is held by at most one request; it is marked as in use exactly while held (so the
      assertion in timestamp never fails); and expiry keeps it. */
  lemma OwnershipIsExclusive(t: Target, cfg: Config, states: seq<System>, steps: seq<Step>, i: nat, f: nat, b: Session, now: int)
    requires Run(t, cfg, states, steps) && i < |states| && f in states[i].fronts
    requires Holds(states[i].fronts[f].pc) == Some(b)
    ensures HeldAndUsed(states[i], b)
    ensures forall g :: g in states[i].fronts && g != f ==> Holds(states[i].fronts[g].pc) != Some(b)
    ensures Proper(states[i].pool) && b in Expire(states[i].pool, cfg, now).backends
  {
    RunKeeps(t, cfg, states, steps, i);
    HolderIsAlone(t, states[i], f, b);
    ExpireKeeps(t, cfg, states[i], now);
  }

  lemma NoConnectionIsLost(t: Target, cfg: Config, states: seq<System>, steps: seq<Step>, i: nat, b: Session)
    requires Run(t, cfg, states, steps) && i < |states|
    requires HeldAndUsed(states[i], b)
    ensures exists f :: f in states[i].fronts && Holds(states[i].fronts[f].pc) == Some(b)
  {
    RunKeeps(t, cfg, states, steps, i);
  }

  /** The step a frontend takes next when it holds a connection. */
  function NextOf(f: nat, pc: Pc, alive: bool, now: int): Step
    requires Holds(pc).Some?
  {
    match pc
    case Created(_, _) => NameStep(f)
    case Asking(_, _, _) => SearchReply(f, alive, now)
    case Found(_, _, _) => Finish(f, alive, now)
    case Scanning(_) => ScanReply(f, alive)
    case InitCreated(_) => InitRelease(f)
  }

  /** How many more steps a holder takes before it gives its connection back or drops it. */
  function StepsLeft(pc: Pc): nat {
    match pc
    case Created(_, _) => 3
    case Asking(_, _, _) => 2
    case Found(_, _, _) => 1
    case Scanning(_) => 1
    case InitCreated(_) => 1
    case _ => 0
  }

  /** From s to s', frontend f has come closer to giving connection b back, or has done so. */
  ghost predicate Advanced(s: System, s': System, f: nat, b: Session) {
    && f in s.fronts && f in s'.fronts
    && StepsLeft(s'.fronts[f].pc) < StepsLeft(s.fronts[f].pc)
    && (Holds(s'.fronts[f].pc) == Some(b) || (Holds(s'.fronts[f].pc) == None && !HeldAndUsed(s', b)))
  }

  lemma AskingAdvances(s: System, t: Target, cfg: Config, f: nat, alive: bool, now: int)
    requires f in s.fronts && s.fronts[f].pc.Asking? && Proper(s.pool)
    requires s.fronts[f].pc.session in s.pool.backends && s.fronts[f].pc.session in s.held
    ensures var step := NextOf(f, s.fronts[f].pc, alive, now);
            Enabled(s, step) && Advanced(s, Apply(s, t, cfg, step), f, s.fronts[f].pc.session)
  {
    hide Index, Normal;
    var pc := s.fronts[f].pc;
    var step := NextOf(f, pc, alive, now);
    assert Apply(s, t, cfg, step) == SearchReplied(s, t, f, pc.call, pc.session, pc.id, alive, now);
  }

  lemma PresentReturns(s: System, t: Target, f: nat, call: Call, b: Session, id: SetId, alive: bool, now: int)
    requires f in s.fronts && s.fronts[f].pc == Found(call, b, id) && call.PresentCall? && Proper(s.pool)
    requires b in s.pool.backends && b in s.held && HasSet(s.pool.backends[b].sets, id)
    ensures Advanced(s, PresentFinished(s, t, f, call, b, id, alive, now), f, b)
  {
    hide Index, Normal, IndexOfSet, HasSet, Cached, Added, FromCache, Presented, Proper, Without;
    InOrder(s.pool, b);
  }

  lemma FoundAdvances(s: System, t: Target, cfg: Config, f: nat, alive: bool, now: int)
    requires f in s.fronts && s.fronts[f].pc.Found? && Proper(s.pool)
    requires s.fronts[f].pc.session in s.pool.backends && s.fronts[f].pc.session in s.held
    requires HasSet(s.pool.backends[s.fronts[f].pc.session].sets, s.fronts[f].pc.id)
    ensures var step := NextOf(f, s.fronts[f].pc, alive, now);
            Enabled(s, step) && Advanced(s, Apply(s, t, cfg, step), f, s.fronts[f].pc.session)
  {
    hide Index, Normal, IndexOfSet, HasSet, PresentFinished, Proper;
    var pc := s.fronts[f].pc;
    if pc.call.PresentCall? { PresentReturns(s, t, f, pc.call, pc.session, pc.id, alive, now); }
  }

  lemma OthersAdvance(s: System, t: Target, cfg: Config, f: nat, alive: bool, now: int)
    requires f in s.fronts && Proper(s.pool)
    requires s.fronts[f].pc.Created? || s.fronts[f].pc.Scanning? || s.fronts[f].pc.InitCreated?
    requires s.fronts[f].pc.session in s.pool.backends
    ensures var step := NextOf(f, s.fronts[f].pc, alive, now);
            Enabled(s, step) && Advanced(s, Apply(s, t, cfg, step), f, s.fronts[f].pc.session)
  {
    hide Index, Name;
  }

  /** Whoever holds a connection can go on, whatever the target does, and gives it back or drops it
      after at most three steps. */
  lemma HolderAdvances(t: Target, cfg: Config, s: System, f: nat, alive: bool, now: int)
    requires Inv(t, s) && f in s.fronts && Holds(s.fronts[f].pc).Some?
    ensures var step := NextOf(f, s.fronts[f].pc, alive, now);
            Enabled(s, step) && Advanced(s, Apply(s, t, cfg, step), f, Holds(s.fronts[f].pc).value)
  {
    var pc := s.fronts[f].pc;
    var b := Holds(pc).value;
    assert FrontOk(t, s, s.fronts[f]);
    HolderIsAlone(t, s, f, b);
    assert pc.Found? ==> HasSet(s.pool.backends[b].sets, pc.id);
    assert Proper(s.pool);
    hide Inv, BackendOk, Apply, Enabled, NextOf, SetsRefFree, Searched, HasSet, Advanced, Proper, FrontOk;
    if pc.Asking? {
      AskingAdvances(s, t, cfg, f, alive, now);
    } else if pc.Found? {
      FoundAdvances(s, t, cfg, f, alive, now);
    } else {
      OthersAdvance(s, t, cfg, f, alive, now);
    }
  }

  // ---------- queries ----------

  /** In every state no stored query names a result set. */
  lemma StoredQueriesAreRefFree(t: Target, cfg: Config, states: seq<System>, steps: seq<Step>, i: nat, f: nat, name: string)
    requires Run(t, cfg, states, steps) && i < |states| && f in states[i].fronts && name in states[i].fronts[f].sets
    ensures QueryRefFree(states[i].fronts[f].sets[name].query)
  {
    RunKeeps(t, cfg, states, steps, i);
    assert FrontOk(t, states[i], states[i].fronts[f]);
  }

  /** The query a search goes on with means, for every target, what the request means with each name
      bound to the result stored for it, as long as the named sets share the request's attribute set. */
  lemma SearchMeansRequest<D>(a: Algebra<D>, front: Front, name: string, replace: bool, databases: seq<string>,
                              attributes: string, tree: Tree, info: Info, env: string -> D)
    requires SetsRefFree(front.sets)
    requires var pc := SearchStarted(front, name, replace, databases, Type1(attributes, tree), info).pc;
             pc.Looking? && pc != front.pc
    requires SameAttributes(front.sets - {name}, attributes, tree)
    ensures var call := SearchStarted(front, name, replace, databases, Type1(attributes, tree), info).pc.call;
            && call.SearchCall? && call.name == name && call.databases == databases
            && call.query.Type1? && call.query.attributeSet == attributes
            && Eval(a, attributes, call.query.tree, env) == Eval(a, attributes, tree, Stored(a, front.sets - {name}, env))
  {
    InlinePreservesMeaning(a, front.sets - {name}, databases, attributes, tree, "", env, env);
  }

  /** A search that replaces a result set cannot build on it: the set is dropped before the names in
      the query are looked up, and stays dropped. */
  lemma SelfReferenceIsRejected(front: Front, name: string, databases: seq<string>, attributes: string, tree: Tree, info: Info)
    requires name in Names(tree)
    ensures SearchStarted(front, name, true, databases, Type1(attributes, tree), info) == Front(front.sets - {name}, front.infos - {name}, Rejected)
  {
    InlineStatus(front.sets - {name}, databases, tree, "");
  }
}
