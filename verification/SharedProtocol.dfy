/** Frontend sessions, targets and the expiry worker around one shared pool: every step one of them
    can take. Each region under the pool's mutex is one step; so is each exchange with a target, which
    runs without the mutex, on a connection its frontend has taken into use.
    src/filter_session_shared.cpp. */
module SharedProtocol {
  import opened Databases
  import opened Rpn
  import opened SharedPool
  import opened Options

  const INT_MAX := 2147483647

  // ---------- targets ----------

  datatype SearchAnswer = Hits(count: int, info: Info) | Fails(condition: int)
  datatype PresentAnswer = Records(records: seq<Record>) | NoRecords(condition: int)

  /** A deterministic target. Its answers depend on the normalized database names, the query and, for
      search only, the additional search information. named says whether it keeps several result sets. */
  datatype Target = Target(
    named: bool,
    search: (seq<string>, Query, Info) -> SearchAnswer,
    present: (seq<string>, Query, int, int, Format) -> PresentAnswer,
    record: (seq<string>, Query, int, Format) -> Record)

  /** The record at a position does not depend on the range it is asked for in. */
  ghost predicate Coherent(t: Target) {
    forall d, q, start, number, format ::
      t.present(d, q, start, number, format).Records? ==>
        IsRecords(t, d, q, start, format, t.present(d, q, start, number, format).records)
  }

  /** records are those at start, start + 1, .. of a result set. */
  ghost predicate IsRecords(t: Target, d: seq<string>, q: Query, start: int, format: Format, records: seq<Record>) {
    forall i :: 0 <= i < |records| ==> records[i] == t.record(d, q, start + i, format)
  }

  /** What a target holds under a result set name. */
  datatype Content = Content(databases: seq<string>, query: Query)

  // ---------- frontend sessions ----------

  /** A request with the databases and the query it stands for. The info of a Present is that of the
      search that made the frontend's set; it is kept here for the record only, the source forgets it. */
  datatype Call =
    | SearchCall(name: string, databases: seq<string>, query: Query, info: Info)
    | PresentCall(databases: seq<string>, query: Query, info: Info, start: int, number: int, format: Format)

  datatype Reply =
    | SearchOk(count: int, info: Info)
    | PresentOk(records: seq<Record>, cached: bool)
    | Diagnostic(condition: int)
    | Unavailable   // no connection, or it was lost

  /** Where a frontend's request stands. */
  datatype Pc =
    | Ready
    | Rejected                                  // answered without get_set: unknown set, set exists, bad reference
    | Looking(call: Call, out: Option<bool>)    // in get_set; out of sessions or not, once known
    | Creating(call: Call)
    | Created(call: Call, session: Session)
    | Asking(call: Call, session: Session, id: SetId)
    | Found(call: Call, session: Session, id: SetId)
    | Done(call: Call, reply: Reply)
    | ScanCreating
    | Scanning(session: Session)
    | InitCreating
    | InitCreated(session: Session)

  /** infos records what each set was searched with. */
  datatype Front = Front(sets: FrontendSets, infos: map<string, Info>, pc: Pc)

  /** held is what the target holds for each connection ever made; asleep are the frontends that sleep
      on m_cond_set_ready, with the connection each has seen in use. */
  datatype System = System(pool: Pool, held: map<Session, map<SetId, Content>>, fronts: map<nat, Front>, asleep: map<nat, Session>)

  /** The connection a frontend's request has taken into use. */
  function Holds(pc: Pc): Option<Session> {
    match pc
    case Created(_, s) => Some(s)
    case Asking(_, s, _) => Some(s)
    case Found(_, s, _) => Some(s)
    case Scanning(s) => Some(s)
    case InitCreated(s) => Some(s)
    case _ => None
  }

  function WantOf(call: Call): Want {
    match call
    case SearchCall(_, d, q, info) => Want(d, q, info, true)
    case PresentCall(d, q, _, _, _, _) => Want(d, q, "", false)
  }

  predicate Idle(pc: Pc) {
    pc.Ready? || pc.Rejected? || pc.Done?
  }

  // ---------- steps ----------

  datatype Step =
    | StartSearch(f: nat, name: string, replace: bool, databases: seq<string>, query: Query, info: Info)
    | StartPresent(f: nat, name: string, start: int, number: int, format: Format)
    | StartScan(f: nat)
    | StartInit(f: nat)
    | LookStep(f: nat, now: int)
    | Wakeup(f: nat)     // a wait that ends without a notification
    | InitReply(f: nat, session: Session, got: bool, accepted: bool, now: int)
    | NameStep(f: nat)
    | SearchReply(f: nat, alive: bool, now: int)
    | Finish(f: nat, alive: bool, now: int)
    | ScanReply(f: nat, alive: bool)
    | InitRelease(f: nat)
    | ExpireStep(now: int)

  function SetFront(s: System, f: nat, front: Front): System {
    s.(fronts := s.fronts[f := front])
  }

  function SetPc(s: System, f: nat, pc: Pc): System
    requires f in s.fronts
  {
    SetFront(s, f, s.fronts[f].(pc := pc))
  }

  /** release_backend: whoever waits is woken. */
  function GiveBack(s: System, p: Pool, b: Session): System
    requires b in p.backends
  {
    s.(pool := Release(p, b), asleep := map[])
  }

  /** Frontend::search up to the call of get_set, lines 1049-1102. */
  function SearchStarted(front: Front, name: string, replace: bool, databases: seq<string>, query: Query, info: Info): Front {
    if name in front.sets && !replace then front.(pc := Rejected)
    else
      var (sets, infos) := (front.sets - {name}, front.infos - {name});
      match query
      case OtherType(_) => Front(sets, infos, Looking(SearchCall(name, databases, query, info), None))
      case Type1(attributes, tree) =>
        var (status, tree', _) := Inline(sets, databases, tree, "");
        if status != Ok then Front(sets, infos, Rejected)
        else Front(sets, infos, Looking(SearchCall(name, databases, Type1(attributes, tree'), info), None))
  }

  /** Frontend::present up to the call of get_set, lines 1122-1150. */
  function PresentStarted(front: Front, name: string, start: int, number: int, format: Format): Front {
    if name !in front.sets then front.(pc := Rejected)
    else
      var info := if name in front.infos then front.infos[name] else "";
      front.(pc := Looking(PresentCall(front.sets[name].databases, front.sets[name].query, info, start, number, format), None))
  }

  function LookedUp(s: System, cfg: Config, f: nat, call: Call, out: Option<bool>, now: int): System
    requires f in s.fronts && Proper(s.pool)
  {
    var o := if out.Some? then out.value else |s.pool.order| >= cfg.sessionMax;
    var (r, p) := Look(s.pool, cfg, WantOf(call), o, now);
    match r
    case Wait(b) => SetPc(s.(asleep := s.asleep[f := b]), f, Looking(call, Some(o)))
    case Reuse(b, id) => SetPc(s.(pool := p), f, Found(call, b, id))
    case Search(b, id) => SetPc(s.(pool := p), f, Asking(call, b, id))
    case Nothing => SetPc(s, f, if o then Done(call, Unavailable) else Creating(call))
  }

  function ScanLooked(s: System, f: nat): System
    requires f in s.fronts && Proper(s.pool)
  {
    var b := LeastRecent(s.pool, |s.pool.order|);
    if b.Some? then SetPc(s.(pool := Use(s.pool, b.value)), f, Scanning(b.value)) else SetPc(s, f, ScanCreating)
  }

  function InitReplied(s: System, t: Target, f: nat, b: Session, got: bool, accepted: bool, now: int): System
    requires f in s.fronts && b !in s.pool.order
  {
    var s1 := s.(pool := Create(s.pool, b, got, t.named, accepted, now));
    var ok := got && accepted;
    var s2 := if ok then s1.(held := s1.held[b := map[]]) else s1.(asleep := map[]);
    match s.fronts[f].pc
    case Creating(call) => SetPc(s2, f, if ok then Created(call, b) else Done(call, Unavailable))
    case ScanCreating => SetPc(s2, f, if ok then Scanning(b) else Rejected)
    case _ => SetPc(s2, f, if ok then InitCreated(b) else Rejected)
  }

  /** Lines 908-998: the search at the target, and what becomes of the connection. */
  function SearchReplied(s: System, t: Target, f: nat, call: Call, b: Session, id: SetId, alive: bool, now: int): System
    requires f in s.fronts && b in s.pool.backends && b in s.held
  {
    if !alive then SetPc(s.(pool := Remove(s.pool, b)), f, Done(call, Unavailable))
    else
      var want := WantOf(call);
      var others := if t.named then s.held[b] - {id} else map[];
      match t.search(Normal(want.databases), want.query, want.info)
      case Fails(condition) =>
        SetPc(GiveBack(s.(held := s.held[b := others]), Touch(s.pool, b, now), b), f, Done(call, Diagnostic(condition)))
      case Hits(count, info) =>
        var set_ := BackendSet(id, want.databases, want.query, count, want.info, info, now, map[]);
        SetPc(s.(pool := Push(Touch(s.pool, b, now), b, set_),
                 held := s.held[b := others[id := Content(Normal(want.databases), want.query)]]), f, Found(call, b, id))
  }

  predicate HasSet(sets: seq<BackendSet>, id: SetId) {
    exists i :: 0 <= i < |sets| && sets[i].id == id
  }

  function SearchFinished(s: System, f: nat, call: Call, b: Session, id: SetId): System
    requires f in s.fronts && b in s.pool.backends && call.SearchCall?
    requires HasSet(s.pool.backends[b].sets, id)
  {
    var set_ := s.pool.backends[b].sets[IndexOfSet(s.pool.backends[b].sets, id)];
    SetFront(GiveBack(s, s.pool, b), f,
             Front(s.fronts[f].sets[call.name := FrontendSet(call.databases, call.query)], s.fronts[f].infos[call.name := call.info],
                   Done(call, SearchOk(set_.size, set_.infoResponse))))
  }

  /** The records a target returns for a result set it holds under id, or a diagnostic. */
  function Presented(t: Target, held: map<SetId, Content>, id: SetId, start: int, number: int, format: Format): PresentAnswer {
    if id in held then t.present(held[id].databases, held[id].query, start, number, format) else NoRecords(30)
  }

  /** The cache answers for whole ranges of positive numbers only. */
  predicate InCache(set_: BackendSet, call: Call)
    requires call.PresentCall?
  {
    0 < call.start < INT_MAX && 0 < call.number < INT_MAX && Cached(set_.cache, call.start, call.number, call.format)
  }

  /** Lines 1156-1243: records from the cache if they are all there, otherwise from the target. */
  function PresentFinished(s: System, t: Target, f: nat, call: Call, b: Session, id: SetId, alive: bool, now: int): System
    requires f in s.fronts && b in s.pool.backends && b in s.held && call.PresentCall?
    requires HasSet(s.pool.backends[b].sets, id)
  {
    var sets := s.pool.backends[b].sets;
    var i := IndexOfSet(sets, id);
    if InCache(sets[i], call) then
      SetPc(GiveBack(s, s.pool, b), f, Done(call, PresentOk(FromCache(sets[i].cache, call.start, call.number, call.format), true)))
    else if !alive then
      SetPc(s.(pool := Remove(s.pool, b)), f, Done(call, Unavailable))
    else
      Fetched(s, f, call, b, i, Presented(t, s.held[b], id, call.start, call.number, call.format), now)
  }

  /** The target's answer is passed on, and its records go into the cache of the i-th result set. */
  function Fetched(s: System, f: nat, call: Call, b: Session, i: nat, answer: PresentAnswer, now: int): System
    requires f in s.fronts && b in s.pool.backends && call.PresentCall? && i < |s.pool.backends[b].sets|
  {
    match answer
    case NoRecords(condition) =>
      SetPc(GiveBack(s, Touch(s.pool, b, now), b), f, Done(call, Diagnostic(condition)))
    case Records(records) =>
      var sets := s.pool.backends[b].sets;
      var sets' :=
        if call.start > 0 && |records| + call.start < INT_MAX
        then sets[i := sets[i].(cache := Added(sets[i].cache, call.start, call.format, records))] else sets;
      var b' := s.pool.backends[b].(sets := sets', lastUse := now);
      SetPc(GiveBack(s, s.pool.(backends := s.pool.backends[b := b']), b), f, Done(call, PresentOk(records, false)))
  }

  /** When a step can be taken. */
  ghost predicate Enabled(s: System, step: Step) {
    match step
    case StartSearch(f, _, _, _, _, _) => f in s.fronts && Idle(s.fronts[f].pc)
    case StartPresent(f, _, _, _, _) => f in s.fronts && Idle(s.fronts[f].pc)
    case StartScan(f) => f in s.fronts && Idle(s.fronts[f].pc) && Proper(s.pool)
    case StartInit(f) => f in s.fronts && Idle(s.fronts[f].pc)
    case LookStep(f, _) => f in s.fronts && s.fronts[f].pc.Looking? && f !in s.asleep && Proper(s.pool)
    case Wakeup(f) => f in s.asleep
    case InitReply(f, b, _, _, _) =>
      f in s.fronts && (s.fronts[f].pc.Creating? || s.fronts[f].pc.ScanCreating? || s.fronts[f].pc.InitCreating?)
      && b !in s.held && b !in s.pool.order
    case NameStep(f) => f in s.fronts && s.fronts[f].pc.Created? && s.fronts[f].pc.session in s.pool.backends
    case SearchReply(f, _, _) =>
      f in s.fronts && s.fronts[f].pc.Asking? && s.fronts[f].pc.session in s.pool.backends && s.fronts[f].pc.session in s.held
    case Finish(f, _, _) =>
      && f in s.fronts && s.fronts[f].pc.Found? && s.fronts[f].pc.session in s.pool.backends && s.fronts[f].pc.session in s.held
      && HasSet(s.pool.backends[s.fronts[f].pc.session].sets, s.fronts[f].pc.id)
    case ScanReply(f, _) => f in s.fronts && s.fronts[f].pc.Scanning? && s.fronts[f].pc.session in s.pool.backends
    case InitRelease(f) => f in s.fronts && s.fronts[f].pc.InitCreated? && s.fronts[f].pc.session in s.pool.backends
    case ExpireStep(_) => Proper(s.pool)
  }

  function Apply(s: System, t: Target, cfg: Config, step: Step): System
    requires Enabled(s, step)
  {
    match step
    case StartSearch(f, name, replace, databases, query, info) =>
      SetFront(s, f, SearchStarted(s.fronts[f], name, replace, databases, query, info))
    case StartPresent(f, name, start, number, format) =>
      SetFront(s, f, PresentStarted(s.fronts[f], name, start, number, format))
    case StartScan(f) => ScanLooked(s, f)
    case StartInit(f) => SetPc(s, f, InitCreating)
    case LookStep(f, now) => LookedUp(s, cfg, f, s.fronts[f].pc.call, s.fronts[f].pc.out, now)
    case Wakeup(f) => s.(asleep := s.asleep - {f})
    case InitReply(f, b, got, accepted, now) => InitReplied(s, t, f, b, got, accepted, now)
    case NameStep(f) =>
      var pc := s.fronts[f].pc;
      var (id, p) := NameNew(s.pool, pc.session);
      SetPc(s.(pool := p), f, Asking(pc.call, pc.session, id))
    case SearchReply(f, alive, now) =>
      var pc := s.fronts[f].pc;
      SearchReplied(s, t, f, pc.call, pc.session, pc.id, alive, now)
    case Finish(f, alive, now) =>
      var pc := s.fronts[f].pc;
      if pc.call.SearchCall? then SearchFinished(s, f, pc.call, pc.session, pc.id)
      else PresentFinished(s, t, f, pc.call, pc.session, pc.id, alive, now)
    case ScanReply(f, alive) =>
      var b := s.fronts[f].pc.session;
      SetPc(if alive then GiveBack(s, s.pool, b) else s.(pool := Remove(s.pool, b)), f, Ready)
    case InitRelease(f) => SetPc(GiveBack(s, s.pool, s.fronts[f].pc.session), f, Ready)
    case ExpireStep(now) => s.(pool := Expire(s.pool, cfg, now))
  }

  /** An empty pool and idle frontends without result sets. */
  ghost predicate Initial(s: System) {
    && s.pool.order == [] && s.pool.backends == map[] && !s.pool.named && s.held == map[] && s.asleep == map[]
    && forall f :: f in s.fronts ==> s.fronts[f] == Front(map[], map[], Ready)
  }

  ghost predicate Goes(t: Target, cfg: Config, s: System, step: Step, s': System) {
    Enabled(s, step) && s' == Apply(s, t, cfg, step)
  }

  /** A run: states, and the step that leads from each to the next. */
  ghost predicate Run(t: Target, cfg: Config, states: seq<System>, steps: seq<Step>) {
    && |states| == |steps| + 1 && Initial(states[0])
    && forall i :: 0 <= i < |steps| ==> Goes(t, cfg, states[i], steps[i], states[i + 1])
  }
}
