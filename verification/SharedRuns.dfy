/** Runs of the shared session pool, step by step: a request left asleep, and when the diagnostics that
    answer a Present are those a session of its own would get. src/filter_session_shared.cpp. */
module SharedRuns {
  import opened Databases
  import opened Rpn
  import opened SharedPool
  import opened SharedProtocol
  import opened SharedInvariant
  import opened SharedTheorems
  import opened SharedWaiting
  import opened Options

  // ---------- putting runs together ----------

  ghost predicate Path(t: Target, cfg: Config, states: seq<System>, steps: seq<Step>) {
    |states| == |steps| + 1 && forall i :: 0 <= i < |steps| ==> Goes(t, cfg, states[i], steps[i], states[i + 1])
  }

  lemma OneStep(t: Target, cfg: Config, s: System, step: Step) returns (s': System)
    requires Enabled(s, step)
    ensures s' == Apply(s, t, cfg, step) && Path(t, cfg, [s, s'], [step])
  {
    s' := Apply(s, t, cfg, step);
  }

  lemma Joined(t: Target, cfg: Config, a: seq<System>, x: seq<Step>, b: seq<System>, y: seq<Step>)
    requires Path(t, cfg, a, x) && Path(t, cfg, b, y) && a[|x|] == b[0]
    ensures Path(t, cfg, a + b[1..], x + y) && (a + b[1..])[0] == a[0] && (a + b[1..])[|x + y|] == b[|y|]
  {
    hide Goes;
    var states, steps := a + b[1..], x + y;
    forall i | 0 <= i < |steps| ensures Goes(t, cfg, states[i], steps[i], states[i + 1]) {
      if i >= |x| { assert Goes(t, cfg, b[i - |x|], y[i - |x|], b[i - |x| + 1]); }
    }
  }

  lemma Extended(t: Target, cfg: Config, a: seq<System>, x: seq<Step>, s: System, step: Step) returns (states: seq<System>, steps: seq<Step>)
    requires Path(t, cfg, a, x) && Path(t, cfg, [a[|x|], s], [step])
    ensures states == a + [s] && steps == x + [step]
    ensures Path(t, cfg, states, steps)
  {
    Joined(t, cfg, a, x, [a[|x|], s], [step]);
    states, steps := a + [s], x + [step];
    assert a + [a[|x|], s][1..] == states;
  }

  // ---------- a search on a connection of its own ----------

  function FirstName(t: Target): SetId { if t.named then Numbered(0) else DefaultId }

  /** No connection, and nobody waiting for one. */
  predicate Fresh(s: System, b: Session) {
    s.pool.order == [] && s.pool.backends == map[] && s.asleep == map[] && b !in s.held
  }

  /** A frontend that finds no connection makes one, and searches at it. */
  lemma Connects(t: Target, cfg: Config, s: System, f: nat, call: Call, b: Session) returns (states: seq<System>, steps: seq<Step>)
    requires f in s.fronts && s.fronts[f].pc == Looking(call, None) && Fresh(s, b) && cfg.sessionMax >= 1
    ensures Path(t, cfg, states, steps) && |steps| == 3 && |states| == 4 && states[0] == s
    ensures var q := states[3];
            && q.fronts == s.fronts[f := s.fronts[f].(pc := Asking(call, b, FirstName(t)))]
            && q.pool.order == [b] && q.pool.named == t.named && q.held == s.held[b := map[]] && q.asleep == map[]
            && q.pool.backends == map[b := Backend(true, [], 0, if t.named then 1 else 0, 0)]
  {
    hide Path, Enabled, Apply;
    var s1 := LooksInVain(t, cfg, s, f, call);
    var s2 := GetsConnection(t, cfg, s1, f, call, b);
    var s3 := NamesFirst(t, cfg, s2, f, call, b);
    states, steps := Extended(t, cfg, [s, s1], [LookStep(f, 0)], s2, InitReply(f, b, true, true, 0));
    states, steps := Extended(t, cfg, states, steps, s3, NameStep(f));
  }

  lemma LooksInVain(t: Target, cfg: Config, s: System, f: nat, call: Call) returns (s': System)
    requires f in s.fronts && s.fronts[f].pc == Looking(call, None) && s.pool.order == [] && s.pool.backends == map[]
    requires s.asleep == map[] && cfg.sessionMax >= 1
    ensures Path(t, cfg, [s, s'], [LookStep(f, 0)]) && s' == SetPc(s, f, Creating(call))
  {
    s' := OneStep(t, cfg, s, LookStep(f, 0));
  }

  lemma GetsConnection(t: Target, cfg: Config, s: System, f: nat, call: Call, b: Session) returns (s': System)
    requires f in s.fronts && s.fronts[f].pc == Creating(call) && Fresh(s, b)
    ensures Path(t, cfg, [s, s'], [InitReply(f, b, true, true, 0)])
    ensures s'.pool.order == [b] && s'.pool.backends == map[b := Backend(true, [], 0, 0, 0)] && s'.pool.named == t.named
    ensures s'.held == s.held[b := map[]] && s'.asleep == map[] && s'.fronts == s.fronts[f := s.fronts[f].(pc := Created(call, b))]
  {
    s' := OneStep(t, cfg, s, InitReply(f, b, true, true, 0));
  }

  lemma NamesFirst(t: Target, cfg: Config, s: System, f: nat, call: Call, b: Session) returns (s': System)
    requires f in s.fronts && s.fronts[f].pc == Created(call, b) && s.pool.named == t.named
    requires s.pool.backends == map[b := Backend(true, [], 0, 0, 0)]
    ensures Path(t, cfg, [s, s'], [NameStep(f)])
    ensures s'.pool.order == s.pool.order && s'.pool.named == t.named && s'.held == s.held && s'.asleep == s.asleep
    ensures s'.pool.backends == map[b := Backend(true, [], 0, if t.named then 1 else 0, 0)]
    ensures s'.fronts == s.fronts[f := s.fronts[f].(pc := Asking(call, b, FirstName(t)))]
  {
    s' := OneStep(t, cfg, s, NameStep(f));
  }

  /** What the pool records of a first search that finds hits. */
  function FirstSet(t: Target, call: Call, count: int, info: Info): BackendSet {
    BackendSet(FirstName(t), call.databases, call.query, count, WantOf(call).info, info, 0, map[])
  }

  function SearchOf(t: Target, call: Call): SearchAnswer {
    t.search(Normal(call.databases), call.query, WantOf(call).info)
  }

  lemma SearchFails(t: Target, cfg: Config, s: System, f: nat, call: Call, b: Session, n: nat) returns (s': System)
    requires f in s.fronts && s.fronts[f].pc == Asking(call, b, FirstName(t)) && b in s.held
    requires s.pool.backends == map[b := Backend(true, [], 0, n, 0)] && SearchOf(t, call).Fails?
    ensures Path(t, cfg, [s, s'], [SearchReply(f, true, 0)])
    ensures s'.fronts == s.fronts[f := s.fronts[f].(pc := Done(call, Diagnostic(SearchOf(t, call).condition)))]
  {
    hide Normal, Remove;
    s' := OneStep(t, cfg, s, SearchReply(f, true, 0));
  }

  lemma SearchHits(t: Target, cfg: Config, s: System, f: nat, call: Call, b: Session, n: nat) returns (s': System)
    requires f in s.fronts && s.fronts[f].pc == Asking(call, b, FirstName(t)) && b in s.held && s.held[b] == map[]
    requires s.pool.backends == map[b := Backend(true, [], 0, n, 0)] && SearchOf(t, call).Hits?
    ensures Path(t, cfg, [s, s'], [SearchReply(f, true, 0)])
    ensures s'.fronts == s.fronts[f := s.fronts[f].(pc := Found(call, b, FirstName(t)))]
    ensures s'.pool.order == s.pool.order && s'.pool.named == s.pool.named && s'.asleep == s.asleep
    ensures s'.pool.backends == map[b := Backend(true, [FirstSet(t, call, SearchOf(t, call).count, SearchOf(t, call).info)], 0, n, 0)]
    ensures s'.held == s.held[b := map[FirstName(t) := Content(Normal(call.databases), call.query)]]
  {
    hide Normal, Remove;
    var none: map<SetId, Content> := s.held[b] - {FirstName(t)};
    assert none == map[];
    assert none[FirstName(t) := Content(Normal(call.databases), call.query)] == map[FirstName(t) := Content(Normal(call.databases), call.query)];
    var set_ := FirstSet(t, call, SearchOf(t, call).count, SearchOf(t, call).info);
    assert [] + [set_] == [set_];
    s' := OneStep(t, cfg, s, SearchReply(f, true, 0));
  }

  lemma SearchEnds(t: Target, cfg: Config, s: System, f: nat, call: Call, b: Session, n: nat) returns (s': System)
    requires f in s.fronts && s.fronts[f].pc == Found(call, b, FirstName(t)) && call.SearchCall? && b in s.held
    requires SearchOf(t, call).Hits?
    requires s.pool.backends == map[b := Backend(true, [FirstSet(t, call, SearchOf(t, call).count, SearchOf(t, call).info)], 0, n, 0)]
    ensures Path(t, cfg, [s, s'], [Finish(f, true, 0)])
    ensures s'.fronts == s.fronts[f := Front(s.fronts[f].sets[call.name := FrontendSet(call.databases, call.query)],
                                             s.fronts[f].infos[call.name := call.info],
                                             Done(call, SearchOk(SearchOf(t, call).count, SearchOf(t, call).info)))]
    ensures s'.pool.order == s.pool.order && s'.pool.named == s.pool.named && s'.held == s.held && s'.asleep == map[]
    ensures s'.pool.backends == map[b := Backend(false, [FirstSet(t, call, SearchOf(t, call).count, SearchOf(t, call).info)], 0, n, 0)]
  {
    hide Normal;
    var set_ := FirstSet(t, call, SearchOf(t, call).count, SearchOf(t, call).info);
    assert s.pool.backends[b].sets[0].id == FirstName(t);
    assert HasSet(s.pool.backends[b].sets, FirstName(t)) && IndexOfSet([set_], FirstName(t)) == 0;
    s' := OneStep(t, cfg, s, Finish(f, true, 0));
  }

  lemma SearchStarts(t: Target, cfg: Config, s: System, f: nat, name: string, databases: seq<string>, query: Query, info: Info)
      returns (s': System)
    requires f in s.fronts && Idle(s.fronts[f].pc) && name !in s.fronts[f].sets && name !in s.fronts[f].infos && QueryRefFree(query)
    ensures Path(t, cfg, [s, s'], [StartSearch(f, name, true, databases, query, info)])
    ensures s' == SetPc(s, f, Looking(SearchCall(name, databases, query, info), None))
  {
    var front := s.fronts[f];
    assert front.sets - {name} == front.sets && front.infos - {name} == front.infos;
    if query.Type1? { InlineRefFree(front.sets - {name}, databases, query.tree, ""); }
    hide Inline;
    s' := OneStep(t, cfg, s, StartSearch(f, name, true, databases, query, info));
  }

  /** A first search, from its arrival to its answer. */
  lemma FirstSearch(t: Target, cfg: Config, s: System, f: nat, name: string, databases: seq<string>, query: Query, info: Info, b: Session)
      returns (states: seq<System>, steps: seq<Step>)
    requires f in s.fronts && s.fronts[f] == Front(map[], map[], Ready) && QueryRefFree(query) && Fresh(s, b) && cfg.sessionMax >= 1
    requires t.search(Normal(databases), query, info).Hits?
    ensures Path(t, cfg, states, steps) && |steps| == 6 && |states| == 7 && states[0] == s
    ensures var (q, call) := (states[6], SearchCall(name, databases, query, info));
            && q.fronts == s.fronts[f := Front(map[name := FrontendSet(databases, query)], map[name := info],
                                               Done(call, SearchOk(SearchOf(t, call).count, SearchOf(t, call).info)))]
            && q.pool.order == [b] && q.pool.named == t.named && q.asleep == map[]
            && q.pool.backends == map[b := Backend(false, [FirstSet(t, call, SearchOf(t, call).count, SearchOf(t, call).info)], 0, if t.named then 1 else 0, 0)]
            && q.held == s.held[b := map[FirstName(t) := Content(Normal(databases), query)]]
  {
    hide Path, Enabled, Apply, Normal;
    var call := SearchCall(name, databases, query, info);
    var n := if t.named then 1 else 0;
    var s1 := SearchStarts(t, cfg, s, f, name, databases, query, info);
    var a, x := Connects(t, cfg, s1, f, call, b);
    var s5 := SearchHits(t, cfg, a[3], f, call, b, n);
    var s6 := SearchEnds(t, cfg, s5, f, call, b, n);
    Joined(t, cfg, [s, s1], [StartSearch(f, name, true, databases, query, info)], a, x);
    states, steps := [s, s1] + a[1..], [StartSearch(f, name, true, databases, query, info)] + x;
    states, steps := Extended(t, cfg, states, steps, s5, SearchReply(f, true, 0));
    states, steps := Extended(t, cfg, states, steps, s6, Finish(f, true, 0));
  }

  // ---------- diagnostics in answer to a Present ----------

  /** The frontend's diagnostic in state i, if it is one that answers a Present, is the private one. */
  ghost predicate DiagnosticPrivate(t: Target, s: System, f: nat) {
    f in s.fronts && s.fronts[f].pc.Done? && s.fronts[f].pc.call.PresentCall? && s.fronts[f].pc.reply.Diagnostic? ==>
      IsPrivate(t, s.fronts[f].pc.call, s.fronts[f].pc.reply)
  }

  /** In every state of every run, a Present answered with a diagnostic has got the one a session of its
      own would have got. */
  ghost predicate DiagnosticsPrivate(t: Target, cfg: Config) {
    forall states, steps, i: nat, f: nat :: Run(t, cfg, states, steps) && i < |states| ==> DiagnosticPrivate(t, states[i], f)
  }

  /** When the target finds hits for a query with additional search information and fails it without,
      it refuses every Present of the result with the same diagnostic. */
  ghost predicate RefusesAlike(t: Target) {
    forall databases, query, info, start, number, format :: RefusesPresent(t, databases, query, info, start, number, format)
  }

  ghost predicate RefusesPresent(t: Target, databases: seq<string>, query: Query, info: Info, start: int, number: int, format: Format) {
    var d := Normal(databases);
    QueryRefFree(query) && t.search(d, query, info).Hits? && t.search(d, query, "").Fails? ==>
      t.present(d, query, start, number, format) == NoRecords(t.search(d, query, "").condition)
  }

  lemma ExpiresAll(t: Target, cfg: Config, s: System, b: Session) returns (s': System)
    requires s.pool.order == [b] && s.pool.backends.Keys == {b} && !s.pool.backends[b].inUse && s.pool.backends[b].lastUse == 0
    requires s.asleep == map[]
    ensures Path(t, cfg, [s, s'], [ExpireStep(-1)])
    ensures s'.pool.order == [] && s'.pool.backends == map[] && s'.held == s.held && s'.fronts == s.fronts && s'.asleep == map[]
  {
    assert Proper(s.pool);
    var p := Erased(s.pool, 0);
    assert p.order == [] && p.backends.Keys == {};
    assert p.backends == map[];
    WithoutDistinct(s.pool.order, 0);
    assert ExpireFrom(p, cfg, -1, 0) == p;
    s' := OneStep(t, cfg, s, ExpireStep(-1));
  }

  lemma PresentStarts(t: Target, cfg: Config, s: System, f: nat, name: string, start: int, number: int, format: Format) returns (s': System)
    requires f in s.fronts && Idle(s.fronts[f].pc) && name in s.fronts[f].sets && name in s.fronts[f].infos
    ensures Path(t, cfg, [s, s'], [StartPresent(f, name, start, number, format)])
    ensures var front := s.fronts[f];
            s' == SetPc(s, f, Looking(PresentCall(front.sets[name].databases, front.sets[name].query, front.infos[name], start, number, format), None))
  {
    s' := OneStep(t, cfg, s, StartPresent(f, name, start, number, format));
  }

  /** One frontend, and nothing yet. */
  function Alone(): System {
    System(Pool([], map[], false, 0), map[], map[0 := Front(map[], map[], Ready)], map[])
  }

  /** A search with hits, the expiry of its connection, and a Present of its result. */
  lemma ComesBack(t: Target, cfg: Config, databases: seq<string>, query: Query, info: Info, start: int, number: int, format: Format)
      returns (states: seq<System>, steps: seq<Step>)
    requires QueryRefFree(query) && cfg.sessionMax >= 1 && t.search(Normal(databases), query, info).Hits?
    ensures Path(t, cfg, states, steps) && |steps| == 8 && |states| == 9 && states[0] == Alone()
    ensures 0 in states[8].fronts && Fresh(states[8], 1)
    ensures states[8].fronts[0].pc == Looking(PresentCall(databases, query, info, start, number, format), None)
  {
    hide Path, Enabled, Apply, Normal;
    states, steps := FirstSearch(t, cfg, Alone(), 0, "a", databases, query, info, 0);
    var s7 := ExpiresAll(t, cfg, states[6], 0);
    var s8 := PresentStarts(t, cfg, s7, 0, "a", start, number, format);
    states, steps := Extended(t, cfg, states, steps, s7, ExpireStep(-1));
    states, steps := Extended(t, cfg, states, steps, s8, StartPresent(0, "a", start, number, format));
  }

  /** The search is repeated for the Present, in vain. */
  lemma RepeatedInVain(t: Target, cfg: Config, databases: seq<string>, query: Query, info: Info, start: int, number: int, format: Format)
      returns (states: seq<System>, steps: seq<Step>)
    requires QueryRefFree(query) && cfg.sessionMax >= 1
    requires t.search(Normal(databases), query, info).Hits? && t.search(Normal(databases), query, "").Fails?
    ensures Run(t, cfg, states, steps) && |steps| == 12 && |states| == 13
    ensures 0 in states[12].fronts && states[12].fronts[0].pc ==
              Done(PresentCall(databases, query, info, start, number, format), Diagnostic(t.search(Normal(databases), query, "").condition))
  {
    hide Path, Enabled, Apply, Normal, Run;
    var call := PresentCall(databases, query, info, start, number, format);
    var a, x := ComesBack(t, cfg, databases, query, info, start, number, format);
    var c, z := Connects(t, cfg, a[8], 0, call, 1);
    var s12 := SearchFails(t, cfg, c[3], 0, call, 1, if t.named then 1 else 0);
    Joined(t, cfg, a, x, c, z);
    states, steps := Extended(t, cfg, a + c[1..], x + z, s12, SearchReply(0, true, 0));
    PathIsRun(t, cfg, states, steps);
  }

  lemma PathIsRun(t: Target, cfg: Config, states: seq<System>, steps: seq<Step>)
    requires Path(t, cfg, states, steps) && Initial(states[0])
    ensures Run(t, cfg, states, steps)
  {
  }

  lemma RefusedIsPrivate(t: Target, s: System, f: nat)
    requires Inv(t, s) && RefusesAlike(t)
    ensures DiagnosticPrivate(t, s, f)
  {
    hide Inv, RefusesPresent;
    if f in s.fronts {
      FrontFacts(t, s, f);
      var pc := s.fronts[f].pc;
      if pc.Done? && pc.call.PresentCall? {
        assert RefusesPresent(t, pc.call.databases, pc.call.query, pc.call.info, pc.call.start, pc.call.number, pc.call.format);
        RefusedPresent(t, pc.call);
      }
    }
  }

  lemma RefusedPresent(t: Target, call: Call)
    requires call.PresentCall? && CallOk(t, call)
    requires RefusesPresent(t, call.databases, call.query, call.info, call.start, call.number, call.format)
    ensures t.search(Normal(call.databases), call.query, "").Fails? ==>
              t.present(Normal(call.databases), call.query, call.start, call.number, call.format)
                == NoRecords(t.search(Normal(call.databases), call.query, "").condition)
  {
  }

  /** The diagnostics that answer Presents are the private ones, in every run, if and only if the target
      refuses alike. */
  lemma DiagnosticsArePrivate(t: Target, cfg: Config)
    requires cfg.sessionMax >= 1
    ensures DiagnosticsPrivate(t, cfg) <==> RefusesAlike(t)
  {
    hide Run, Inv;
    if RefusesAlike(t) {
      forall states: seq<System>, steps: seq<Step>, i: nat, f: nat | Run(t, cfg, states, steps) && i < |states|
        ensures DiagnosticPrivate(t, states[i], f)
      {
        RunKeeps(t, cfg, states, steps, i);
        RefusedIsPrivate(t, states[i], f);
      }
    }
    if DiagnosticsPrivate(t, cfg) {
      forall databases, query, info, start, number, format ensures RefusesPresent(t, databases, query, info, start, number, format) {
        if QueryRefFree(query) && t.search(Normal(databases), query, info).Hits? && t.search(Normal(databases), query, "").Fails? {
          var states, steps := RepeatedInVain(t, cfg, databases, query, info, start, number, format);
          assert DiagnosticPrivate(t, states[12], 0);
        }
      }
    }
  }

  /** A target that wants some information with every search. */
  function Demanding(): Target {
    Target(true,
           (d: seq<string>, q: Query, info: Info) => if info == "" then Fails(1) else Hits(1, ""),
           (d: seq<string>, q: Query, start: int, number: int, format: Format) => Records(["record"]),
           (d: seq<string>, q: Query, position: int, format: Format) => "record")
  }

  /** It presents what it has found, but a shared session may be told that the search has failed. */
  lemma DemandingIsNotPrivate(cfg: Config)
    requires cfg.sessionMax >= 1
    ensures Coherent(Demanding()) && !DiagnosticsPrivate(Demanding(), cfg)
  {
    DiagnosticsArePrivate(Demanding(), cfg);
    assert !RefusesPresent(Demanding(), [], OtherType("water"), "x", 1, 1, "");
  }

  // ---------- a request left asleep ----------

  /** Two frontends, and nothing yet. */
  function Two(): System {
    System(Pool([], map[], false, 0), map[], map[0 := Front(map[], map[], Ready), 1 := Front(map[], map[], Ready)], map[])
  }

  /** The one connection, with the result of this search, in use or not. */
  predicate OneResult(t: Target, s: System, call: Call, inUse: bool)
    requires SearchOf(t, call).Hits?
  {
    && s.pool.order == [0] && s.pool.backends.Keys == {0} && 0 in s.held
    && s.pool.backends[0].inUse == inUse
    && s.pool.backends[0].sets == [FirstSet(t, call, SearchOf(t, call).count, SearchOf(t, call).info)]
  }

  lemma MatchesFirst(t: Target, s: System, call: Call, inUse: bool, want: Want)
    requires SearchOf(t, call).Hits? && OneResult(t, s, call, inUse)
    requires want.databases == call.databases && want.query == call.query && (want.isSearch ==> want.info == WantOf(call).info)
    ensures Proper(s.pool) && FirstMatch(s.pool, want, 0) == Some((0, 0))
  {
    hide Normal;
    assert Proper(s.pool);
    assert Fits(s.pool.backends[0].sets[0], want);
    assert FirstFit(s.pool.backends[0].sets, want, 0) == Some(0);
  }

  lemma TakesResult(t: Target, cfg: Config, s: System, call: Call, present: Call) returns (s': System)
    requires SearchOf(t, call).Hits? && OneResult(t, s, call, false) && cfg.optimize && s.asleep == map[]
    requires 0 in s.fronts && s.fronts[0].pc == Looking(present, None) && present.PresentCall?
    requires present.databases == call.databases && present.query == call.query
    ensures Path(t, cfg, [s, s'], [LookStep(0, 0)])
    ensures OneResult(t, s', call, true) && s'.asleep == map[] && s'.held == s.held
    ensures s'.fronts == s.fronts[0 := s.fronts[0].(pc := Found(present, 0, FirstName(t)))]
  {
    MatchesFirst(t, s, call, false, WantOf(present));
    hide Proper, FirstMatch, Override;
    s' := OneStep(t, cfg, s, LookStep(0, 0));
  }

  lemma WaitsForResult(t: Target, cfg: Config, s: System, call: Call) returns (s': System)
    requires SearchOf(t, call).Hits? && OneResult(t, s, call, true) && cfg.optimize && s.asleep == map[]
    requires 1 in s.fronts && s.fronts[1].pc == Looking(call, None)
    ensures Path(t, cfg, [s, s'], [LookStep(1, 0)])
    ensures s'.pool == s.pool && s'.held == s.held && s'.asleep == map[1 := 0]
    ensures 1 in s'.fronts && s'.fronts == s.fronts[1 := s'.fronts[1]] && s'.fronts[1].pc.Looking?
  {
    MatchesFirst(t, s, call, true, WantOf(call));
    hide Proper, FirstMatch, Override;
    s' := OneStep(t, cfg, s, LookStep(1, 0));
  }

  lemma LosesTarget(t: Target, cfg: Config, s: System, call: Call, present: Call) returns (s': System)
    requires SearchOf(t, call).Hits? && OneResult(t, s, call, true) && present.PresentCall?
    requires 0 in s.fronts && s.fronts[0].pc == Found(present, 0, FirstName(t))
    ensures Path(t, cfg, [s, s'], [Finish(0, false, 0)])
    ensures s'.pool.order == [] && s'.pool.backends == map[] && s'.asleep == s.asleep
    ensures s'.fronts == s.fronts[0 := s.fronts[0].(pc := Done(present, Unavailable))]
  {
    assert s.pool.backends[0].sets[0].id == FirstName(t);
    assert HasSet(s.pool.backends[0].sets, FirstName(t)) && IndexOfSet(s.pool.backends[0].sets, FirstName(t)) == 0;
    if 0 < present.number { assert CacheKey(present.start, present.format) !in s.pool.backends[0].sets[0].cache; }
    s' := OneStep(t, cfg, s, Finish(0, false, 0));
    assert Without(s.pool.order, 0) == [];
    assert s'.pool.backends.Keys == {};
  }

  /** Whatever the target, once it has found hits: a first frontend presents its result while a second
      waits for the connection with the same search, and the target is lost. The pool is empty, nobody
      holds or makes a connection, and the second frontend sleeps. */
  lemma LeftAsleep(t: Target, cfg: Config, databases: seq<string>, query: Query, info: Info, start: int, number: int, format: Format)
      returns (states: seq<System>, steps: seq<Step>)
    requires QueryRefFree(query) && cfg.sessionMax >= 1 && cfg.optimize && t.search(Normal(databases), query, info).Hits?
    ensures Run(t, cfg, states, steps) && |steps| == 11 && |states| == 12 && steps[10] == Finish(0, false, 0)
    ensures states[11].pool.backends == map[] && states[11].asleep == map[1 := 0]
    ensures states[11].fronts.Keys == {0, 1} && states[11].fronts[0].pc.Done? && states[11].fronts[1].pc.Looking?
  {
    hide Path, Enabled, Apply, Normal, Run, FirstSet, Initial;
    var call, present := SearchCall("a", databases, query, info), PresentCall(databases, query, info, start, number, format);
    states, steps := FirstSearch(t, cfg, Two(), 0, "a", databases, query, info, 0);
    var s7 := PresentStarts(t, cfg, states[6], 0, "a", start, number, format);
    var s8 := TakesResult(t, cfg, s7, call, present);
    var s9 := SearchStarts(t, cfg, s8, 1, "a", databases, query, info);
    var s10 := WaitsForResult(t, cfg, s9, call);
    var s11 := LosesTarget(t, cfg, s10, call, present);
    states, steps := Extended(t, cfg, states, steps, s7, StartPresent(0, "a", start, number, format));
    states, steps := Extended(t, cfg, states, steps, s8, LookStep(0, 0));
    states, steps := Extended(t, cfg, states, steps, s9, StartSearch(1, "a", true, databases, query, info));
    states, steps := Extended(t, cfg, states, steps, s10, LookStep(1, 0));
    states, steps := Extended(t, cfg, states, steps, s11, Finish(0, false, 0));
    TwoInitial();
    PathIsRun(t, cfg, states, steps);
  }

  /** There is then nobody to wake it: nothing can happen but a new request of the first frontend, the
      worker's expiry, or a wait that ends by itself. */
  lemma NobodyWakes(s: System, step: Step)
    requires s.asleep == map[1 := 0] && s.fronts.Keys == {0, 1} && s.fronts[0].pc.Done? && s.fronts[1].pc.Looking? && Enabled(s, step)
    ensures step.ExpireStep? || step == Wakeup(1) || (step.f == 0 && (step.StartSearch? || step.StartPresent? || step.StartScan? || step.StartInit?))
  {
    hide Proper, HasSet;
    assert forall f :: f in s.fronts <==> f in s.fronts.Keys;
  }

  lemma TwoInitial()
    ensures Initial(Two())
  {
  }
}
