/** What every step keeps, and what follows over every run: connections have one holder, the target
    holds what the pool believes, and replies are what the target says. */
module SharedInvariant {
  import opened Databases
  import opened Rpn
  import opened SharedPool
  import opened SharedProtocol
  import opened Options

  // ---------- the invariant ----------

  /** The target holds, under the set's id, the result of the set's databases and query; its size and
      cached records are the target's. */
  ghost predicate SetOk(t: Target, set_: BackendSet, next: nat, held: map<SetId, Content>) {
    && set_.id in held && held[set_.id] == Content(Normal(set_.databases), set_.query)
    && (set_.id.Numbered? ==> set_.id.n < next)
    && t.search(Normal(set_.databases), set_.query, set_.infoRequest) == Hits(set_.size, set_.infoResponse)
    && (Coherent(t) ==> forall k :: k in set_.cache ==>
          set_.cache[k] == t.record(Normal(set_.databases), set_.query, k.position, k.format))
  }

  ghost predicate DistinctIds(sets: seq<BackendSet>) {
    forall i, j :: 0 <= i < j < |sets| ==> sets[i].id != sets[j].id
  }

  ghost predicate BackendOk(t: Target, b: Backend, held: map<SetId, Content>) {
    && DistinctIds(b.sets)
    && (forall i :: 0 <= i < |b.sets| ==> SetOk(t, b.sets[i], b.resultSetSequence, held))
    && (!t.named ==> |b.sets| <= 1)
  }

  ghost predicate HeldAndUsed(s: System, b: Session) {
    b in s.pool.backends && s.pool.backends[b].inUse
  }

  /** id is free at the connection; a target that keeps one result set has none the pool relies on. */
  ghost predicate FreeId(t: Target, b: Backend, id: SetId) {
    && !HasSet(b.sets, id)
    && (id.Numbered? ==> id.n < b.resultSetSequence)
    && (!t.named ==> b.sets == [])
  }

  /** The query names no result set; a Present is for a set the target has found hits for, when searched
      with the set's additional search information. */
  ghost predicate CallOk(t: Target, call: Call) {
    && QueryRefFree(call.query)
    && (call.PresentCall? ==> t.search(Normal(call.databases), call.query, call.info).Hits?)
  }

  /** What a reply says of the target. A diagnostic in answer to a Present may be that of a search that
      was made for it, without additional search information. */
  ghost predicate ReplyOk(t: Target, call: Call, reply: Reply) {
    match reply
    case SearchOk(count, info) =>
      call.SearchCall? && t.search(Normal(call.databases), call.query, call.info) == Hits(count, info)
    case PresentOk(records, cached) =>
      && call.PresentCall?
      && (Coherent(t) ==> IsRecords(t, Normal(call.databases), call.query, call.start, call.format, records))
      && if cached then |records| == call.number
         else t.present(Normal(call.databases), call.query, call.start, call.number, call.format) == Records(records)
    case Diagnostic(condition) =>
      || t.search(Normal(call.databases), call.query, WantOf(call).info) == Fails(condition)
      || (call.PresentCall? &&
            t.present(Normal(call.databases), call.query, call.start, call.number, call.format) == NoRecords(condition))
    case Unavailable => true
  }

  ghost predicate PcOk(t: Target, s: System, pc: Pc) {
    match pc
    case Looking(call, _) => CallOk(t, call)
    case Creating(call) => CallOk(t, call)
    case Created(call, b) => CallOk(t, call) && HeldAndUsed(s, b) && s.pool.backends[b].sets == []
    case Asking(call, b, id) => CallOk(t, call) && HeldAndUsed(s, b) && FreeId(t, s.pool.backends[b], id)
    case Found(call, b, id) =>
      CallOk(t, call) && HeldAndUsed(s, b) &&
      exists i :: 0 <= i < |s.pool.backends[b].sets| && s.pool.backends[b].sets[i].id == id
                  && Fits(s.pool.backends[b].sets[i], WantOf(call))
    case Done(call, reply) => CallOk(t, call) && ReplyOk(t, call, reply)
    case Scanning(b) => HeldAndUsed(s, b)
    case InitCreated(b) => HeldAndUsed(s, b)
    case _ => true
  }

  /** The target has found hits for each of the frontend's sets. */
  ghost predicate Searched(t: Target, sets: FrontendSets, infos: map<string, Info>) {
    forall n :: n in sets ==> n in infos && t.search(Normal(sets[n].databases), sets[n].query, infos[n]).Hits?
  }

  ghost predicate FrontOk(t: Target, s: System, front: Front) {
    SetsRefFree(front.sets) && Searched(t, front.sets, front.infos) && PcOk(t, s, front.pc)
  }

  ghost predicate OneHolder(s: System) {
    forall f, g :: f in s.fronts && g in s.fronts && f != g && Holds(s.fronts[f].pc).Some? ==>
      Holds(s.fronts[f].pc) != Holds(s.fronts[g].pc)
  }

  /** A connection marked as in use is held by some frontend's request. */
  ghost predicate NoneLost(s: System) {
    forall b :: b in s.pool.backends && s.pool.backends[b].inUse ==>
      exists f :: f in s.fronts && Holds(s.fronts[f].pc) == Some(b)
  }

  ghost predicate Inv(t: Target, s: System) {
    && Proper(s.pool) && (s.pool.named ==> t.named)
    && (forall b :: b in s.pool.backends ==> b in s.held && BackendOk(t, s.pool.backends[b], s.held[b]))
    && (forall f :: f in s.fronts ==> FrontOk(t, s, s.fronts[f]))
    && OneHolder(s) && NoneLost(s)
  }

  // ---------- the frame of a step ----------

  /** Connection b is the same in both states. */
  ghost predicate Unchanged(s: System, s': System, b: Session) {
    && (b in s'.pool.backends <==> b in s.pool.backends)
    && (b in s.pool.backends ==> b in s.held && b in s'.held && s'.held[b] == s.held[b] && s'.pool.backends[b] == s.pool.backends[b])
  }

  /** A step by frontend f that touches at most one connection, which no other frontend holds. */
  ghost predicate Touches(s: System, s': System, f: nat, front: Front, touched: Option<Session>) {
    && f in s.fronts && s'.fronts == s.fronts[f := front]
    && (forall b: Session :: Some(b) != touched ==> Unchanged(s, s', b))
    && (Holds(s.fronts[f].pc).Some? ==> Holds(s.fronts[f].pc) == touched)
    && (Holds(front.pc).Some? ==> Holds(front.pc) == touched)
    && (touched.Some? ==> forall g :: g in s.fronts && g != f ==> Holds(s.fronts[g].pc) != touched)
    && (touched.Some? && touched.value in s'.pool.backends ==>
          (s'.pool.backends[touched.value].inUse <==> Holds(front.pc) == touched))
  }

  lemma PcOkFrame(t: Target, s: System, s': System, pc: Pc)
    requires PcOk(t, s, pc)
    requires Holds(pc).Some? ==> Unchanged(s, s', Holds(pc).value)
    ensures PcOk(t, s', pc)
  {
  }

  lemma Preserve(t: Target, s: System, s': System, f: nat, front: Front, touched: Option<Session>)
    requires Inv(t, s) && Touches(s, s', f, front, touched)
    requires Proper(s'.pool) && (s'.pool.named ==> t.named)
    requires touched.Some? && touched.value in s'.pool.backends ==>
               touched.value in s'.held && BackendOk(t, s'.pool.backends[touched.value], s'.held[touched.value])
    requires FrontOk(t, s', front)
    ensures Inv(t, s')
  {
    hide Proper, BackendOk, PcOk, SetsRefFree, Searched;
    forall b | b in s'.pool.backends ensures b in s'.held && BackendOk(t, s'.pool.backends[b], s'.held[b]) {
      if Some(b) != touched { assert Unchanged(s, s', b); }
    }
    forall g | g in s'.fronts ensures FrontOk(t, s', s'.fronts[g]) {
      if g != f {
        assert FrontOk(t, s, s.fronts[g]);
        PcOkFrame(t, s, s', s.fronts[g].pc);
      }
    }
    forall b | b in s'.pool.backends && s'.pool.backends[b].inUse
      ensures exists g :: g in s'.fronts && Holds(s'.fronts[g].pc) == Some(b)
    {
      if Some(b) == touched {
        assert Holds(s'.fronts[f].pc) == Some(b);
      } else {
        assert Unchanged(s, s', b);
        var g :| g in s.fronts && Holds(s.fronts[g].pc) == Some(b);
        assert g != f;
        assert Holds(s'.fronts[g].pc) == Some(b);
      }
    }
  }

  /** An idle connection has no holder, so anyone may take it. */
  lemma IdleHasNoHolder(t: Target, s: System, b: Session)
    requires Inv(t, s) && b in s.pool.backends && !s.pool.backends[b].inUse
    ensures forall g :: g in s.fronts ==> Holds(s.fronts[g].pc) != Some(b)
  {
    forall g | g in s.fronts ensures Holds(s.fronts[g].pc) != Some(b) {
      assert FrontOk(t, s, s.fronts[g]);
    }
  }

  predicate Calls(pc: Pc) {
    pc.Looking? || pc.Creating? || pc.Created? || pc.Asking? || pc.Found? || pc.Done?
  }

  lemma FrontFacts(t: Target, s: System, f: nat)
    requires Inv(t, s) && f in s.fronts
    ensures var front := s.fronts[f];
            && SetsRefFree(front.sets) && Searched(t, front.sets, front.infos) && PcOk(t, s, front.pc)
            && (Calls(front.pc) ==> CallOk(t, front.pc.call))
  {
    hide Proper, BackendOk, SetsRefFree, Searched, CallOk, OneHolder, NoneLost;
    assert FrontOk(t, s, s.fronts[f]);
  }

  lemma HolderIsAlone(t: Target, s: System, f: nat, b: Session)
    requires Inv(t, s) && f in s.fronts && Holds(s.fronts[f].pc) == Some(b)
    ensures forall g :: g in s.fronts && g != f ==> Holds(s.fronts[g].pc) != Some(b)
    ensures HeldAndUsed(s, b) && b in s.held && BackendOk(t, s.pool.backends[b], s.held[b])
  {
    assert FrontOk(t, s, s.fronts[f]);
  }

  // ---------- choosing a place for a result set ----------

  lemma WithoutOk(t: Target, b: Backend, held: map<SetId, Content>, j: nat)
    requires BackendOk(t, b, held) && j < |b.sets|
    ensures BackendOk(t, b.(sets := Without(b.sets, j)), held) && FreeId(t, b.(sets := Without(b.sets, j)), b.sets[j].id)
  {
    hide SetOk;
    var rest := Without(b.sets, j);
    assert forall i :: 0 <= i < |rest| ==> rest[i] == b.sets[if i < j then i else i + 1];
    SetIdBound(t, b.sets[j], b.resultSetSequence, held);
  }

  lemma SetIdBound(t: Target, set_: BackendSet, next: nat, held: map<SetId, Content>)
    requires SetOk(t, set_, next, held)
    ensures set_.id.Numbered? ==> set_.id.n < next
    ensures forall n: nat :: next <= n ==> SetOk(t, set_, n, held)
  {
  }

  lemma NameOk(t: Target, named: bool, b: Backend, held: map<SetId, Content>)
    requires BackendOk(t, b, held) && (named ==> t.named) && (!named ==> b.sets == [])
    ensures BackendOk(t, Name(named, b).1, held) && FreeId(t, Name(named, b).1, Name(named, b).0)
  {
    hide SetOk;
    forall i | 0 <= i < |b.sets|
      ensures b.sets[i].id.Numbered? ==> b.sets[i].id.n < b.resultSetSequence
      ensures SetOk(t, b.sets[i], b.resultSetSequence + 1, held)
    {
      SetIdBound(t, b.sets[i], b.resultSetSequence, held);
    }
  }

  lemma SameSetsOk(t: Target, b: Backend, b': Backend, held: map<SetId, Content>)
    requires BackendOk(t, b, held) && b'.sets == b.sets && b'.resultSetSequence == b.resultSetSequence
    ensures BackendOk(t, b', held)
    ensures forall id :: FreeId(t, b, id) ==> FreeId(t, b', id)
  {
  }

  /** The pool's part of a Look that goes on to a search: an idle connection is now in use, with a free name. */
  lemma OverrideOk(t: Target, p: Pool, cfg: Config, databases: seq<string>, out: bool, now: int, held: map<Session, map<SetId, Content>>)
    requires Proper(p) && (p.named ==> t.named)
    requires forall b :: b in p.backends ==> b in held && BackendOk(t, p.backends[b], held[b])
    ensures var (place, p') := Override(p, cfg, databases, out, now);
            && (place.NoPlace? ==> p' == p)
            && (place.At? ==>
                  var b := place.session;
                  && b in p.backends && !p.backends[b].inUse
                  && p'.order == p.order && p'.named == p.named
                  && b in p'.backends && p'.backends == p.backends[b := p'.backends[b]] && p'.backends[b].inUse
                  && BackendOk(t, p'.backends[b], held[b]) && FreeId(t, p'.backends[b], place.id))
  {
    hide BackendOk, FreeId, Victim, Roomy;
    var v := Victim(p, cfg, databases, out, now, 0);
    if v.Some? {
      var (s, j) := v.value;
      WithoutOk(t, p.backends[s], held[s], j);
      var b := p.backends[s].(sets := Without(p.backends[s].sets, j));
      SameSetsOk(t, b, b.(inUse := true, sequenceThis := p.sequenceTop), held[s]);
    } else {
      var room := Roomy(p, cfg, 0);
      if room.Some? {
        NameOk(t, p.named, p.backends[room.value], held[room.value]);
        var (id, b) := Name(p.named, p.backends[room.value]);
        SameSetsOk(t, b, b.(inUse := true, sequenceThis := p.sequenceTop), held[room.value]);
      }
    }
  }

  // ---------- the steps ----------

  /** The pool's order and mode stay, and so do all connections but b. */
  ghost predicate OnlyAt(s: System, s': System, b: Session) {
    && b in s.pool.backends && b in s'.pool.backends
    && s'.pool.order == s.pool.order && s'.pool.named == s.pool.named
    && s'.pool.backends == s.pool.backends[b := s'.pool.backends[b]]
    && b in s'.held && b in s.held && s'.held == s.held[b := s'.held[b]]
  }

  /** Frontend f, holding nothing, takes the idle connection b. */
  lemma TakeKeeps(t: Target, s: System, s': System, f: nat, front: Front, b: Session)
    requires Inv(t, s) && f in s.fronts && Holds(s.fronts[f].pc) == None
    requires OnlyAt(s, s', b) && s'.fronts == s.fronts[f := front]
    requires !s.pool.backends[b].inUse && s'.pool.backends[b].inUse && Holds(front.pc) == Some(b)
    requires BackendOk(t, s'.pool.backends[b], s'.held[b]) && FrontOk(t, s', front)
    ensures Inv(t, s')
  {
    hide BackendOk, FrontOk;
    IdleHasNoHolder(t, s, b);
    Preserve(t, s, s', f, front, Some(b));
  }

  /** Frontend f changes the connection b it holds, and may give it back. */
  lemma HolderKeeps(t: Target, s: System, s': System, f: nat, front: Front, b: Session)
    requires Inv(t, s) && f in s.fronts && Holds(s.fronts[f].pc) == Some(b)
    requires OnlyAt(s, s', b) && s'.fronts == s.fronts[f := front]
    requires Holds(front.pc) == (if s'.pool.backends[b].inUse then Some(b) else None)
    requires BackendOk(t, s'.pool.backends[b], s'.held[b]) && FrontOk(t, s', front)
    ensures Inv(t, s')
  {
    hide BackendOk, FrontOk;
    HolderIsAlone(t, s, f, b);
    Preserve(t, s, s', f, front, Some(b));
  }

  /** Frontend f drops the connection b it holds. */
  lemma DropKeeps(t: Target, s: System, f: nat, b: Session, pc: Pc)
    requires Inv(t, s) && f in s.fronts && Holds(s.fronts[f].pc) == Some(b)
    requires Holds(pc) == None && forall s' :: PcOk(t, s', pc)
    ensures Inv(t, SetPc(s.(pool := Remove(s.pool, b)), f, pc))
  {
    hide BackendOk, PcOk, Index, SetsRefFree, Searched;
    var s' := SetPc(s.(pool := Remove(s.pool, b)), f, pc);
    assert FrontOk(t, s, s.fronts[f]);
    HolderIsAlone(t, s, f, b);
    WithoutDistinct(s.pool.order, Index(s.pool.order, b));
    Preserve(t, s, s', f, s'.fronts[f], Some(b));
  }

  /** A step that changes neither the pool's connections nor what f holds, which is nothing. */
  lemma LocalKeeps(t: Target, s: System, s': System, f: nat, front: Front)
    requires Inv(t, s) && f in s.fronts && Holds(s.fronts[f].pc) == None && Holds(front.pc) == None
    requires s'.fronts == s.fronts[f := front] && s'.held == s.held
    requires s'.pool.order == s.pool.order && s'.pool.backends == s.pool.backends && (s'.pool.named ==> t.named)
    requires FrontOk(t, s', front)
    ensures Inv(t, s')
  {
    hide BackendOk, FrontOk;
    Preserve(t, s, s', f, front, None);
  }

  lemma ReuseKeeps(t: Target, s: System, f: nat, call: Call, b: Session, j: nat)
    requires Inv(t, s) && f in s.fronts && s.fronts[f].pc.Looking? && s.fronts[f].pc.call == call
    requires b in s.pool.backends && !s.pool.backends[b].inUse && j < |s.pool.backends[b].sets|
    requires Fits(s.pool.backends[b].sets[j], WantOf(call))
    ensures Inv(t, SetPc(s.(pool := Use(s.pool, b)), f, Found(call, b, s.pool.backends[b].sets[j].id)))
  {
    var s' := SetPc(s.(pool := Use(s.pool, b)), f, Found(call, b, s.pool.backends[b].sets[j].id));
    assert FrontOk(t, s, s.fronts[f]);
    SameSetsOk(t, s.pool.backends[b], s'.pool.backends[b], s.held[b]);
    hide Inv, BackendOk, SetsRefFree, Searched, CallOk, Fits;
    TakeKeeps(t, s, s', f, s'.fronts[f], b);
  }

  lemma PlacedKeeps(t: Target, s: System, f: nat, call: Call, b: Session, id: SetId, p: Pool)
    requires Inv(t, s) && f in s.fronts && s.fronts[f].pc.Looking? && s.fronts[f].pc.call == call
    requires b in s.pool.backends && !s.pool.backends[b].inUse && b in s.held
    requires p.order == s.pool.order && p.named == s.pool.named
    requires b in p.backends && p.backends == s.pool.backends[b := p.backends[b]] && p.backends[b].inUse
    requires BackendOk(t, p.backends[b], s.held[b]) && FreeId(t, p.backends[b], id)
    ensures Inv(t, SetPc(s.(pool := p), f, Asking(call, b, id)))
  {
    assert FrontOk(t, s, s.fronts[f]);
    hide Inv, BackendOk, FreeId, SetsRefFree, Searched, CallOk;
    var s' := SetPc(s.(pool := p), f, Asking(call, b, id));
    TakeKeeps(t, s, s', f, s'.fronts[f], b);
  }

  lemma WaitKeeps(t: Target, s: System, f: nat, call: Call, pc: Pc, asleep: map<nat, Session>)
    requires Inv(t, s) && f in s.fronts && s.fronts[f].pc.Looking? && s.fronts[f].pc.call == call
    requires (pc.Looking? && pc.call == call) || pc == Creating(call) || pc == Done(call, Unavailable)
    ensures Inv(t, SetPc(s.(asleep := asleep), f, pc))
  {
    assert FrontOk(t, s, s.fronts[f]);
    assert s.pool.named ==> t.named;
    hide Inv, SetsRefFree, Searched, CallOk;
    LocalKeeps(t, s, SetPc(s.(asleep := asleep), f, pc), f, s.fronts[f].(pc := pc));
  }

  lemma PoolFacts(t: Target, s: System)
    requires Inv(t, s)
    ensures Proper(s.pool) && (s.pool.named ==> t.named)
    ensures forall b :: b in s.pool.backends ==> b in s.held && BackendOk(t, s.pool.backends[b], s.held[b])
  {
    hide BackendOk, FrontOk, Proper;
  }

  lemma LookKeeps(t: Target, cfg: Config, s: System, f: nat, call: Call, out: Option<bool>, now: int)
    requires Inv(t, s) && f in s.fronts && s.fronts[f].pc == Looking(call, out)
    ensures Inv(t, LookedUp(s, cfg, f, call, out, now))
  {
    hide Inv, BackendOk, FrontOk, FreeId, Override, FirstMatch, Fits, SetPc, Use, SetsRefFree, Searched, CallOk;
    FrontFacts(t, s, f);
    PoolFacts(t, s);
    var o := if out.Some? then out.value else |s.pool.order| >= cfg.sessionMax;
    OverrideOk(t, s.pool, cfg, WantOf(call).databases, o, now, s.held);
    var (r, p) := Look(s.pool, cfg, WantOf(call), o, now);
    match r {
      case Wait(b) => WaitKeeps(t, s, f, call, Looking(call, Some(o)), s.asleep[f := b]);
      case Nothing => WaitKeeps(t, s, f, call, if o then Done(call, Unavailable) else Creating(call), s.asleep);
      case Reuse(b, id) => ReuseKeeps(t, s, f, call, b, FirstMatch(s.pool, WantOf(call), 0).value.1);
      case Search(b, id) => PlacedKeeps(t, s, f, call, b, id, p);
    }
  }

  lemma ScanLookKeeps(t: Target, s: System, f: nat)
    requires Inv(t, s) && f in s.fronts && Idle(s.fronts[f].pc)
    ensures Inv(t, ScanLooked(s, f))
  {
    hide BackendOk, LeastRecent, SetsRefFree, Searched;
    var b := LeastRecent(s.pool, |s.pool.order|);
    var s' := ScanLooked(s, f);
    assert FrontOk(t, s, s.fronts[f]);
    if b.Some? {
      SameSetsOk(t, s.pool.backends[b.value], s'.pool.backends[b.value], s.held[b.value]);
      TakeKeeps(t, s, s', f, s'.fronts[f], b.value);
    } else {
      LocalKeeps(t, s, s', f, s'.fronts[f]);
    }
  }

  lemma NewBackendOk(t: Target, now: int)
    ensures BackendOk(t, Backend(true, [], 0, 0, now), map[])
  {
  }

  /** Frontend f, holding nothing, gets the new connection b. */
  lemma AddKeeps(t: Target, s: System, s': System, f: nat, front: Front, b: Session, now: int)
    requires Inv(t, s) && f in s.fronts && Holds(s.fronts[f].pc) == None && Holds(front.pc) == Some(b)
    requires b !in s.held && b !in s.pool.order
    requires s'.pool.order == s.pool.order + [b] && (s'.pool.named ==> t.named)
    requires s'.pool.backends == s.pool.backends[b := Backend(true, [], 0, 0, now)]
    requires s'.held == s.held[b := map[]] && s'.fronts == s.fronts[f := front]
    requires FrontOk(t, s', front)
    ensures Inv(t, s')
  {
    forall g | g in s.fronts ensures Holds(s.fronts[g].pc) != Some(b) {
      assert FrontOk(t, s, s.fronts[g]);
    }
    hide BackendOk, FrontOk;
    NewBackendOk(t, now);
    Preserve(t, s, s', f, front, Some(b));
  }

  lemma InitKeeps(t: Target, s: System, f: nat, b: Session, got: bool, accepted: bool, now: int)
    requires Inv(t, s) && f in s.fronts && b !in s.held && b !in s.pool.order
    requires s.fronts[f].pc.Creating? || s.fronts[f].pc.ScanCreating? || s.fronts[f].pc.InitCreating?
    ensures Inv(t, InitReplied(s, t, f, b, got, accepted, now))
  {
    hide Inv, FreeId, SetsRefFree, Searched, BackendOk, CallOk, Coherent;
    PoolFacts(t, s);
    FrontFacts(t, s, f);
    var s' := InitReplied(s, t, f, b, got, accepted, now);
    if got && accepted {
      AddKeeps(t, s, s', f, s'.fronts[f], b, now);
    } else {
      LocalKeeps(t, s, s', f, s'.fronts[f]);
    }
  }

  lemma NameKeeps(t: Target, s: System, f: nat, call: Call, b: Session)
    requires Inv(t, s) && f in s.fronts && s.fronts[f].pc == Created(call, b) && b in s.pool.backends
    ensures var (id, p) := NameNew(s.pool, b);
            Inv(t, SetPc(s.(pool := p), f, Asking(call, b, id)))
  {
    hide BackendOk, FreeId, SetsRefFree, Searched;
    var (id, p) := NameNew(s.pool, b);
    var s' := SetPc(s.(pool := p), f, Asking(call, b, id));
    assert FrontOk(t, s, s.fronts[f]);
    HolderIsAlone(t, s, f, b);
    NameOk(t, s.pool.named, s.pool.backends[b], s.held[b]);
    HolderKeeps(t, s, s', f, s'.fronts[f], b);
  }

  // ---------- the search at the target ----------

  /** Replacing what the target holds under id leaves the sets under other names as they are. */
  lemma OthersOk(t: Target, b: Backend, held: map<SetId, Content>, held': map<SetId, Content>, id: SetId)
    requires BackendOk(t, b, held) && FreeId(t, b, id)
    requires t.named ==> held' - {id} == held - {id}
    ensures BackendOk(t, b, held')
  {
    forall i | 0 <= i < |b.sets| ensures SetOk(t, b.sets[i], b.resultSetSequence, held') {
      var x := b.sets[i].id;
      assert SetOk(t, b.sets[i], b.resultSetSequence, held);
      assert x in held - {id} && x in held' - {id} && (held - {id})[x] == (held' - {id})[x];
    }
  }

  lemma PushOk(t: Target, b: Backend, held: map<SetId, Content>, set_: BackendSet)
    requires BackendOk(t, b, held) && FreeId(t, b, set_.id) && SetOk(t, set_, b.resultSetSequence, held)
    ensures BackendOk(t, b.(sets := b.sets + [set_]), held)
  {
    hide SetOk;
  }

  lemma SearchFailedKeeps(t: Target, s: System, f: nat, call: Call, b: Session, id: SetId, now: int)
    requires Inv(t, s) && f in s.fronts && s.fronts[f].pc == Asking(call, b, id)
    requires b in s.pool.backends && b in s.held
    requires t.search(Normal(call.databases), call.query, WantOf(call).info).Fails?
    ensures Inv(t, SearchReplied(s, t, f, call, b, id, true, now))
  {
    hide Inv, BackendOk, FreeId, SetsRefFree, Searched, CallOk, Coherent;
    FrontFacts(t, s, f);
    HolderIsAlone(t, s, f, b);
    var s' := SearchReplied(s, t, f, call, b, id, true, now);
    OthersOk(t, s.pool.backends[b], s.held[b], s'.held[b], id);
    SameSetsOk(t, s.pool.backends[b], s'.pool.backends[b], s'.held[b]);
    HolderKeeps(t, s, s', f, s'.fronts[f], b);
  }

  lemma FreeIsBelow(t: Target, b: Backend, id: SetId)
    requires FreeId(t, b, id)
    ensures id.Numbered? ==> id.n < b.resultSetSequence
  {
  }

  lemma SearchHitKeeps(t: Target, s: System, f: nat, call: Call, b: Session, id: SetId, now: int)
    requires Inv(t, s) && f in s.fronts && s.fronts[f].pc == Asking(call, b, id)
    requires b in s.pool.backends && b in s.held
    requires t.search(Normal(call.databases), call.query, WantOf(call).info).Hits?
    ensures Inv(t, SearchReplied(s, t, f, call, b, id, true, now))
  {
    hide Inv, BackendOk, FreeId, SetsRefFree, Searched, CallOk, Coherent;
    FrontFacts(t, s, f);
    HolderIsAlone(t, s, f, b);
    var s' := SearchReplied(s, t, f, call, b, id, true, now);
    var old_, new_ := s.pool.backends[b], s'.pool.backends[b];
    OthersOk(t, old_, s.held[b], s'.held[b], id);
    var touched := old_.(lastUse := now);
    SameSetsOk(t, old_, touched, s'.held[b]);
    FreeIsBelow(t, old_, id);
    PushOk(t, touched, s'.held[b], new_.sets[|old_.sets|]);
    assert new_ == touched.(sets := touched.sets + [new_.sets[|old_.sets|]]);
    assert Fits(new_.sets[|old_.sets|], WantOf(call));
    HolderKeeps(t, s, s', f, s'.fronts[f], b);
  }

  // ---------- the reply ----------

  lemma SearchFinishKeeps(t: Target, s: System, f: nat, call: Call, b: Session, id: SetId)
    requires Inv(t, s) && f in s.fronts && s.fronts[f].pc == Found(call, b, id) && call.SearchCall?
    requires b in s.pool.backends && HasSet(s.pool.backends[b].sets, id)
    ensures Inv(t, SearchFinished(s, f, call, b, id))
  {
    hide Inv, BackendOk, SetsRefFree, CallOk, Coherent, FreeId, IndexOfSet, SetOk;
    FrontFacts(t, s, f);
    HolderIsAlone(t, s, f, b);
    var s' := SearchFinished(s, f, call, b, id);
    var set_ := FoundSet(t, s, f, call, b, id);
    SetHits(t, set_, s.pool.backends[b].resultSetSequence, s.held[b], call);
    CallRefFree(t, call);
    SetStored(s.fronts[f].sets, call);
    SameSetsOk(t, s.pool.backends[b], s'.pool.backends[b], s.held[b]);
    HolderKeeps(t, s, s', f, s'.fronts[f], b);
  }

  lemma SetHits(t: Target, set_: BackendSet, next: nat, held: map<SetId, Content>, call: Call)
    requires call.SearchCall? && Fits(set_, WantOf(call)) && SetOk(t, set_, next, held)
    ensures t.search(Normal(call.databases), call.query, call.info) == Hits(set_.size, set_.infoResponse)
  {
  }

  lemma CallRefFree(t: Target, call: Call)
    requires CallOk(t, call)
    ensures QueryRefFree(call.query)
  {
  }

  lemma SetStored(sets: FrontendSets, call: Call)
    requires SetsRefFree(sets) && call.SearchCall? && QueryRefFree(call.query)
    ensures SetsRefFree(sets[call.name := FrontendSet(call.databases, call.query)])
  {
  }

  /** The set a frontend found is the one its request wants, and the target holds it. */
  lemma FoundSet(t: Target, s: System, f: nat, call: Call, b: Session, id: SetId) returns (set_: BackendSet)
    requires Inv(t, s) && f in s.fronts && s.fronts[f].pc == Found(call, b, id)
    requires b in s.pool.backends && b in s.held && HasSet(s.pool.backends[b].sets, id)
    ensures set_ == s.pool.backends[b].sets[IndexOfSet(s.pool.backends[b].sets, id)]
    ensures Fits(set_, WantOf(call)) && SetOk(t, set_, s.pool.backends[b].resultSetSequence, s.held[b])
    ensures s.held[b][id] == Content(Normal(call.databases), call.query)
  {
    assert FrontOk(t, s, s.fronts[f]);
    var sets := s.pool.backends[b].sets;
    var i :| 0 <= i < |sets| && sets[i].id == id && Fits(sets[i], WantOf(call));
    assert BackendOk(t, s.pool.backends[b], s.held[b]);
    assert i == IndexOfSet(sets, id);
    set_ := sets[i];
  }

  /** Records added to the cache are the target's for that result set. */
  lemma CacheOk(t: Target, set_: BackendSet, next: nat, held: map<SetId, Content>, start: int, format: Format, records: seq<Record>)
    requires SetOk(t, set_, next, held) && (Coherent(t) ==> IsRecords(t, Normal(set_.databases), set_.query, start, format, records))
    ensures SetOk(t, set_.(cache := Added(set_.cache, start, format, records)), next, held)
  {
    var c := Added(set_.cache, start, format, records);
    forall k | k in c && Coherent(t) ensures c[k] == t.record(Normal(set_.databases), set_.query, k.position, k.format) {
      AddedFacts(set_.cache, start, format, records, k);
      if k.format == format && start <= k.position < start + |records| {
        assert records[k.position - start] == t.record(Normal(set_.databases), set_.query, start + (k.position - start), format);
      }
    }
  }

  lemma CachedReplyOk(t: Target, set_: BackendSet, next: nat, held: map<SetId, Content>, call: Call)
    requires call.PresentCall? && call.number >= 0 && Cached(set_.cache, call.start, call.number, call.format)
    requires SetOk(t, set_, next, held) && Fits(set_, WantOf(call))
    ensures ReplyOk(t, call, PresentOk(FromCache(set_.cache, call.start, call.number, call.format), true))
  {
    var records := FromCache(set_.cache, call.start, call.number, call.format);
    forall i | 0 <= i < |records| && Coherent(t) ensures records[i] == t.record(Normal(call.databases), call.query, call.start + i, call.format) {
      assert CacheKey(call.start + i, call.format) in set_.cache;
    }
  }

  lemma UpdateSetOk(t: Target, b: Backend, held: map<SetId, Content>, i: nat, set_: BackendSet)
    requires BackendOk(t, b, held) && i < |b.sets| && set_.id == b.sets[i].id
    requires SetOk(t, set_, b.resultSetSequence, held)
    ensures BackendOk(t, b.(sets := b.sets[i := set_]), held)
  {
    hide SetOk;
  }

  /** The connection after records came from the target. */
  lemma FetchedOk(t: Target, b: Backend, held: map<SetId, Content>, i: nat, start: int, format: Format, records: seq<Record>, b': Backend)
    requires BackendOk(t, b, held) && i < |b.sets| && SetOk(t, b.sets[i], b.resultSetSequence, held)
    requires Coherent(t) ==> IsRecords(t, Normal(b.sets[i].databases), b.sets[i].query, start, format, records)
    requires b'.resultSetSequence == b.resultSetSequence
    requires b'.sets == b.sets || b'.sets == b.sets[i := b.sets[i].(cache := Added(b.sets[i].cache, start, format, records))]
    ensures BackendOk(t, b', held)
  {
    hide BackendOk, SetOk, IsRecords, Added;
    CacheOk(t, b.sets[i], b.resultSetSequence, held, start, format, records);
    var set_ := b.sets[i].(cache := Added(b.sets[i].cache, start, format, records));
    UpdateSetOk(t, b, held, i, set_);
    if b'.sets == b.sets { SameSetsOk(t, b, b', held); } else { SameSetsOk(t, b.(sets := b.sets[i := set_]), b', held); }
  }

  lemma PresentFinishKeeps(t: Target, s: System, f: nat, call: Call, b: Session, id: SetId, alive: bool, now: int)
    requires Inv(t, s) && f in s.fronts && s.fronts[f].pc == Found(call, b, id) && call.PresentCall?
    requires b in s.pool.backends && b in s.held && HasSet(s.pool.backends[b].sets, id)
    ensures Inv(t, PresentFinished(s, t, f, call, b, id, alive, now))
  {
    hide Inv, BackendOk, FrontOk, IndexOfSet, SetsRefFree, Searched, HasSet, Cached, FromCache, CallOk, Coherent, Fetched, SetOk, Fits, SetPc, Remove;
    FrontFacts(t, s, f);
    HolderIsAlone(t, s, f, b);
    var set_ := FoundSet(t, s, f, call, b, id);
    var i := IndexOfSet(s.pool.backends[b].sets, id);
    if InCache(set_, call) {
      CachedKeeps(t, s, f, call, b, i);
    } else if !alive {
      DropKeeps(t, s, f, b, Done(call, Unavailable));
    } else {
      PresentedIs(t, s, f, call, b, id);
      match t.present(Normal(call.databases), call.query, call.start, call.number, call.format) {
        case NoRecords(condition) => RefusedKeeps(t, s, f, call, b, i, condition, now);
        case Records(records) => FetchKeeps(t, s, f, call, b, i, records, now);
      }
    }
  }

  lemma FitsNormal(set_: BackendSet, call: Call)
    requires Fits(set_, WantOf(call))
    ensures Normal(set_.databases) == Normal(call.databases) && set_.query == call.query
  {
  }

  lemma InOrder(p: Pool, b: Session)
    requires Proper(p) && b in p.backends
    ensures b in p.order
  {
  }

  /** The records come from the cache of the i-th set. */
  lemma CachedKeeps(t: Target, s: System, f: nat, call: Call, b: Session, i: nat)
    requires Inv(t, s) && f in s.fronts && call.PresentCall? && call.number >= 0
    requires s.fronts[f].pc.Found? && s.fronts[f].pc.call == call && s.fronts[f].pc.session == b
    requires b in s.pool.backends && b in s.held && i < |s.pool.backends[b].sets|
    requires SetOk(t, s.pool.backends[b].sets[i], s.pool.backends[b].resultSetSequence, s.held[b])
    requires Fits(s.pool.backends[b].sets[i], WantOf(call))
    requires Cached(s.pool.backends[b].sets[i].cache, call.start, call.number, call.format)
    ensures Inv(t, SetPc(GiveBack(s, s.pool, b), f,
              Done(call, PresentOk(FromCache(s.pool.backends[b].sets[i].cache, call.start, call.number, call.format), true))))
  {
    hide Inv, BackendOk, SetsRefFree, Searched, CallOk, SetOk, Coherent, FreeId, Fits, Cached, FromCache, ReplyOk;
    FrontFacts(t, s, f);
    HolderIsAlone(t, s, f, b);
    var set_ := s.pool.backends[b].sets[i];
    CachedReplyOk(t, set_, s.pool.backends[b].resultSetSequence, s.held[b], call);
    var s' := SetPc(GiveBack(s, s.pool, b), f, Done(call, PresentOk(FromCache(set_.cache, call.start, call.number, call.format), true)));
    SameSetsOk(t, s.pool.backends[b], s'.pool.backends[b], s.held[b]);
    HolderKeeps(t, s, s', f, s'.fronts[f], b);
  }

  /** What the target answers is what it would answer for the frontend's databases and query. */
  lemma PresentedIs(t: Target, s: System, f: nat, call: Call, b: Session, id: SetId)
    requires Inv(t, s) && f in s.fronts && s.fronts[f].pc == Found(call, b, id) && call.PresentCall?
    requires b in s.pool.backends && b in s.held && HasSet(s.pool.backends[b].sets, id)
    ensures var answer := t.present(Normal(call.databases), call.query, call.start, call.number, call.format);
            && Presented(t, s.held[b], id, call.start, call.number, call.format) == answer
            && (answer.Records? && Coherent(t) ==> IsRecords(t, Normal(call.databases), call.query, call.start, call.format, answer.records))
  {
    hide IsRecords, Inv, IndexOfSet, SetOk;
    var set_ := FoundSet(t, s, f, call, b, id);
    SetIdHeld(t, set_, s.pool.backends[b].resultSetSequence, s.held[b]);
    IndexIsId(s.pool.backends[b].sets, id);
  }

  lemma SetIdHeld(t: Target, set_: BackendSet, next: nat, held: map<SetId, Content>)
    requires SetOk(t, set_, next, held)
    ensures set_.id in held
  {
  }

  lemma IndexIsId(sets: seq<BackendSet>, id: SetId)
    requires HasSet(sets, id)
    ensures sets[IndexOfSet(sets, id)].id == id
  {
  }

  lemma RefusedKeeps(t: Target, s: System, f: nat, call: Call, b: Session, i: nat, condition: int, now: int)
    requires Inv(t, s) && f in s.fronts && call.PresentCall?
    requires s.fronts[f].pc.Found? && s.fronts[f].pc.call == call && s.fronts[f].pc.session == b
    requires b in s.pool.backends && i < |s.pool.backends[b].sets|
    requires t.present(Normal(call.databases), call.query, call.start, call.number, call.format) == NoRecords(condition)
    ensures Inv(t, Fetched(s, f, call, b, i, NoRecords(condition), now))
  {
    hide Inv, BackendOk, SetsRefFree, Searched, CallOk, SetOk, Coherent, FreeId, Fits;
    FrontFacts(t, s, f);
    HolderIsAlone(t, s, f, b);
    var s' := Fetched(s, f, call, b, i, NoRecords(condition), now);
    SameSetsOk(t, s.pool.backends[b], s'.pool.backends[b], s.held[b]);
    HolderKeeps(t, s, s', f, s'.fronts[f], b);
  }

  lemma FetchKeeps(t: Target, s: System, f: nat, call: Call, b: Session, i: nat, records: seq<Record>, now: int)
    requires Inv(t, s) && f in s.fronts && call.PresentCall?
    requires s.fronts[f].pc.Found? && s.fronts[f].pc.call == call && s.fronts[f].pc.session == b
    requires b in s.pool.backends && b in s.held && i < |s.pool.backends[b].sets|
    requires SetOk(t, s.pool.backends[b].sets[i], s.pool.backends[b].resultSetSequence, s.held[b])
    requires Fits(s.pool.backends[b].sets[i], WantOf(call))
    requires t.present(Normal(call.databases), call.query, call.start, call.number, call.format) == Records(records)
    requires Coherent(t) ==> IsRecords(t, Normal(call.databases), call.query, call.start, call.format, records)
    ensures Inv(t, Fetched(s, f, call, b, i, Records(records), now))
  {
    hide Inv, BackendOk, SetsRefFree, Searched, CallOk, Added, SetOk, IsRecords, Coherent, FreeId, Fits;
    FrontFacts(t, s, f);
    HolderIsAlone(t, s, f, b);
    FitsNormal(s.pool.backends[b].sets[i], call);
    var s' := Fetched(s, f, call, b, i, Records(records), now);
    FetchedOk(t, s.pool.backends[b], s.held[b], i, call.start, call.format, records, s'.pool.backends[b]);
    HolderKeeps(t, s, s', f, s'.fronts[f], b);
  }

  // ---------- starting, releasing, expiring ----------

  lemma StartSearchKeeps(t: Target, s: System, f: nat, name: string, replace: bool, databases: seq<string>, query: Query, info: Info)
    requires Inv(t, s) && f in s.fronts && Idle(s.fronts[f].pc)
    ensures Inv(t, SetFront(s, f, SearchStarted(s.fronts[f], name, replace, databases, query, info)))
  {
    hide BackendOk, Inline;
    var front := SearchStarted(s.fronts[f], name, replace, databases, query, info);
    assert FrontOk(t, s, s.fronts[f]);
    var sets := s.fronts[f].sets - {name};
    if query.Type1? { InlineStatus(sets, databases, query.tree, ""); }
    LocalKeeps(t, s, SetFront(s, f, front), f, front);
  }

  lemma StartPresentKeeps(t: Target, s: System, f: nat, name: string, start: int, number: int, format: Format)
    requires Inv(t, s) && f in s.fronts && Idle(s.fronts[f].pc)
    ensures Inv(t, SetFront(s, f, PresentStarted(s.fronts[f], name, start, number, format)))
  {
    hide BackendOk;
    var front := PresentStarted(s.fronts[f], name, start, number, format);
    assert FrontOk(t, s, s.fronts[f]);
    LocalKeeps(t, s, SetFront(s, f, front), f, front);
  }

  lemma ReleaseKeeps(t: Target, s: System, f: nat, b: Session)
    requires Inv(t, s) && f in s.fronts && Holds(s.fronts[f].pc) == Some(b) && b in s.pool.backends
    ensures Inv(t, SetPc(GiveBack(s, s.pool, b), f, Ready))
  {
    hide BackendOk;
    var s' := SetPc(GiveBack(s, s.pool, b), f, Ready);
    assert FrontOk(t, s, s.fronts[f]);
    HolderIsAlone(t, s, f, b);
    SameSetsOk(t, s.pool.backends[b], s'.pool.backends[b], s.held[b]);
    HolderKeeps(t, s, s', f, s'.fronts[f], b);
  }

  lemma ExpireKeeps(t: Target, cfg: Config, s: System, now: int)
    requires Inv(t, s)
    ensures Inv(t, s.(pool := Expire(s.pool, cfg, now)))
    ensures forall b :: HeldAndUsed(s, b) ==> b in Expire(s.pool, cfg, now).backends
  {
    hide BackendOk, PcOk, SetsRefFree, Searched, ExpireFrom;
    var s' := s.(pool := Expire(s.pool, cfg, now));
    ExpireFacts(s.pool, cfg, now, 0, 0);
    forall b: Session
      ensures b in s'.pool.backends <==> b in s.pool.backends && !Expired(s.pool.backends[b], cfg, now)
      ensures b in s'.pool.backends ==> s'.pool.backends[b] == s.pool.backends[b]
    {
      ExpireFacts(s.pool, cfg, now, 0, b);
    }
    forall f | f in s'.fronts ensures FrontOk(t, s', s'.fronts[f]) {
      assert FrontOk(t, s, s.fronts[f]);
      if Holds(s.fronts[f].pc).Some? { HolderIsAlone(t, s, f, Holds(s.fronts[f].pc).value); }
      PcOkFrame(t, s, s', s.fronts[f].pc);
    }
  }

  // ---------- every step, every run ----------

  lemma StepKeeps(t: Target, cfg: Config, s: System, step: Step)
    requires Inv(t, s) && Enabled(s, step)
    ensures Inv(t, Apply(s, t, cfg, step))
  {
    hide Inv, LookedUp, ScanLooked, InitReplied, NameNew, SearchReplied, SearchFinished, PresentFinished,
         Expire, Release, Remove, SearchStarted, PresentStarted, HasSet;
    match step {
      case StartSearch(f, name, replace, databases, query, info) => StartSearchKeeps(t, s, f, name, replace, databases, query, info);
      case StartPresent(f, name, start, number, format) => StartPresentKeeps(t, s, f, name, start, number, format);
      case StartScan(f) => ScanLookKeeps(t, s, f);
      case StartInit(f) => StartInitKeeps(t, s, f);
      case LookStep(f, now) => LookKeeps(t, cfg, s, f, s.fronts[f].pc.call, s.fronts[f].pc.out, now);
      case Wakeup(f) => WakeupKeeps(t, s, f);
      case InitReply(f, b, got, accepted, now) => InitKeeps(t, s, f, b, got, accepted, now);
      case NameStep(f) => NameKeeps(t, s, f, s.fronts[f].pc.call, s.fronts[f].pc.session);
      case SearchReply(f, alive, now) =>
        var pc := s.fronts[f].pc;
        SearchReplyKeeps(t, s, f, pc.call, pc.session, pc.id, alive, now);
      case Finish(f, alive, now) =>
        var pc := s.fronts[f].pc;
        if pc.call.SearchCall? {
          SearchFinishKeeps(t, s, f, pc.call, pc.session, pc.id);
        } else {
          PresentFinishKeeps(t, s, f, pc.call, pc.session, pc.id, alive, now);
        }
      case ScanReply(f, alive) =>
        if alive { ReleaseKeeps(t, s, f, s.fronts[f].pc.session); } else { DropKeeps(t, s, f, s.fronts[f].pc.session, Ready); }
      case InitRelease(f) => ReleaseKeeps(t, s, f, s.fronts[f].pc.session);
      case ExpireStep(now) => ExpireKeeps(t, cfg, s, now);
    }
  }

  /** Who sleeps plays no part in the invariant. */
  lemma WakeupKeeps(t: Target, s: System, f: nat)
    requires Inv(t, s)
    ensures Inv(t, s.(asleep := s.asleep - {f}))
  {
    hide BackendOk, SetsRefFree, Searched;
    var s' := s.(asleep := s.asleep - {f});
    forall g | g in s'.fronts ensures FrontOk(t, s', s'.fronts[g]) {
      assert FrontOk(t, s, s.fronts[g]);
      if Holds(s.fronts[g].pc).Some? { HolderIsAlone(t, s, g, Holds(s.fronts[g].pc).value); }
      PcOkFrame(t, s, s', s.fronts[g].pc);
    }
  }

  lemma StartInitKeeps(t: Target, s: System, f: nat)
    requires Inv(t, s) && f in s.fronts && Idle(s.fronts[f].pc)
    ensures Inv(t, SetPc(s, f, InitCreating))
  {
    hide BackendOk;
    assert FrontOk(t, s, s.fronts[f]);
    LocalKeeps(t, s, SetPc(s, f, InitCreating), f, s.fronts[f].(pc := InitCreating));
  }

  lemma SearchReplyKeeps(t: Target, s: System, f: nat, call: Call, b: Session, id: SetId, alive: bool, now: int)
    requires Inv(t, s) && f in s.fronts && s.fronts[f].pc == Asking(call, b, id)
    requires b in s.pool.backends && b in s.held
    ensures Inv(t, SearchReplied(s, t, f, call, b, id, alive, now))
  {
    assert FrontOk(t, s, s.fronts[f]);
    hide Inv, Remove, CallOk, SetsRefFree, Searched;
    if !alive {
      DropKeeps(t, s, f, b, Done(call, Unavailable));
    } else if t.search(Normal(call.databases), call.query, WantOf(call).info).Fails? {
      SearchFailedKeeps(t, s, f, call, b, id, now);
    } else {
      SearchHitKeeps(t, s, f, call, b, id, now);
    }
  }

  lemma {:induction false} RunKeeps(t: Target, cfg: Config, states: seq<System>, steps: seq<Step>, i: nat)
    requires Run(t, cfg, states, steps) && i < |states|
    ensures Inv(t, states[i])
  {
    if i > 0 {
      RunKeeps(t, cfg, states, steps, i - 1);
      assert Goes(t, cfg, states[i - 1], steps[i - 1], states[i - 1 + 1]);
      hide Apply, Enabled, Inv;
      StepKeeps(t, cfg, states[i - 1], steps[i - 1]);
    }
  }
}
