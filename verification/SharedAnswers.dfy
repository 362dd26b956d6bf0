/** What get_set chooses and what each step answers, stated from the pool, the target and the request alone.
    src/filter_session_shared.cpp:736-998 and 1049-1253. */
module SharedAnswers {
  import opened Databases
  import opened Rpn
  import opened SharedPool
  import opened SharedProtocol
  import opened SharedInvariant
  import opened SharedTheorems
  import opened SharedWaiting
  import opened Options

  // ---------- get_set ----------

  /** The backend at place k of the list. */
  function BackendAt(p: Pool, k: nat): Backend
    requires Proper(p) && k < |p.order|
  {
    assert p.order[k] in p.order;
    p.backends[p.order[k]]
  }

  /** How many result sets a connection may hold. */
  function MostSets(p: Pool, cfg: Config): nat {
    if p.named then cfg.setMax else 1
  }

  /** The j-th set at place k is what is wanted; a Present does not look at the additional information. */
  ghost predicate FitAt(p: Pool, want: Want, k: nat, j: nat)
    requires Proper(p)
  {
    && k < |p.order| && j < |BackendAt(p, k).sets|
    && var set_ := BackendAt(p, k).sets[j];
       && Normal(set_.databases) == Normal(want.databases) && set_.query == want.query
       && (want.isSearch ==> set_.infoRequest == want.info)
  }

  /** The j-th set at place k may be replaced: its connection is idle; where a connection keeps one set
      it is of the same databases; and it is old, or no more connections may be made. */
  ghost predicate VictimAt(p: Pool, cfg: Config, databases: seq<string>, out: bool, now: int, k: nat, j: nat)
    requires Proper(p)
  {
    && k < |p.order| && j < |BackendAt(p, k).sets| && !BackendAt(p, k).inUse
    && var set_ := BackendAt(p, k).sets[j];
       && (MostSets(p, cfg) > 1 || Normal(set_.databases) == Normal(databases))
       && (out || now < set_.lastUse || now - set_.lastUse >= cfg.setTtl)
  }

  ghost predicate RoomAt(p: Pool, cfg: Config, k: nat)
    requires Proper(p)
  {
    k < |p.order| && !BackendAt(p, k).inUse && |BackendAt(p, k).sets| < MostSets(p, cfg)
  }

  /** (k', j') comes before (k, j). */
  predicate Earlier(k': nat, j': nat, k: nat, j: nat) {
    k' < k || (k' == k && j' < j)
  }

  /** Place k, from k0 on, and set j are the first that fit; or none does. */
  lemma {:induction false} FirstMatchIs(p: Pool, want: Want, k0: nat) returns (k: nat)
    requires Proper(p) && k0 <= |p.order|
    ensures match FirstMatch(p, want, k0)
            case Some((s, j)) =>
              && k0 <= k < |p.order| && p.order[k] == s && FitAt(p, want, k, j)
              && forall k': nat, j': nat :: k0 <= k' && Earlier(k', j', k, j) ==> !FitAt(p, want, k', j')
            case None => forall k': nat, j': nat :: k0 <= k' ==> !FitAt(p, want, k', j')
    decreases |p.order| - k0
  {
    hide Proper, Normal;
    k := k0;
    if k0 < |p.order| {
      AtOrder(p, k0);
      FitsIs(p, want, k0);
      var j := FirstFit(BackendAt(p, k0).sets, want, 0);
      if j.None? { k := FirstMatchIs(p, want, k0 + 1); }
    }
  }

  lemma AtOrder(p: Pool, k: nat)
    requires Proper(p) && k < |p.order|
    ensures p.order[k] in p.backends && p.backends[p.order[k]] == BackendAt(p, k)
  {
  }

  lemma FitsIs(p: Pool, want: Want, k: nat)
    requires Proper(p) && k < |p.order|
    ensures forall j: nat :: j < |BackendAt(p, k).sets| ==> (FitAt(p, want, k, j) <==> Fits(BackendAt(p, k).sets[j], want))
  {
    hide Normal;
  }

  lemma {:induction false} FirstEvictableIs(p: Pool, cfg: Config, databases: seq<string>, out: bool, now: int, k: nat, j0: nat)
    requires Proper(p) && k < |p.order| && !BackendAt(p, k).inUse && j0 <= |BackendAt(p, k).sets|
    ensures match FirstEvictable(p, cfg, BackendAt(p, k).sets, databases, out, now, j0)
            case Some(j) =>
              VictimAt(p, cfg, databases, out, now, k, j)
              && forall j': nat :: j0 <= j' < j ==> !VictimAt(p, cfg, databases, out, now, k, j')
            case None => forall j': nat :: j0 <= j' ==> !VictimAt(p, cfg, databases, out, now, k, j')
    decreases |BackendAt(p, k).sets| - j0
  {
    hide Proper, Normal;
    if j0 < |BackendAt(p, k).sets| && !VictimAt(p, cfg, databases, out, now, k, j0) {
      FirstEvictableIs(p, cfg, databases, out, now, k, j0 + 1);
    }
  }

  lemma {:induction false} VictimIs(p: Pool, cfg: Config, databases: seq<string>, out: bool, now: int, k0: nat) returns (k: nat)
    requires Proper(p) && k0 <= |p.order|
    ensures match Victim(p, cfg, databases, out, now, k0)
            case Some((s, j)) =>
              && k0 <= k < |p.order| && p.order[k] == s && VictimAt(p, cfg, databases, out, now, k, j)
              && forall k': nat, j': nat :: k0 <= k' && Earlier(k', j', k, j) ==> !VictimAt(p, cfg, databases, out, now, k', j')
            case None => forall k': nat, j': nat :: k0 <= k' ==> !VictimAt(p, cfg, databases, out, now, k', j')
    decreases |p.order| - k0
  {
    hide Proper, Normal, FirstEvictable;
    k := k0;
    if k0 < |p.order| {
      AtOrder(p, k0);
      var b := BackendAt(p, k0);
      if !b.inUse { FirstEvictableIs(p, cfg, databases, out, now, k0, 0); }
      if b.inUse || FirstEvictable(p, cfg, b.sets, databases, out, now, 0).None? {
        k := VictimIs(p, cfg, databases, out, now, k0 + 1);
      }
    }
  }

  lemma {:induction false} RoomyIs(p: Pool, cfg: Config, k0: nat) returns (k: nat)
    requires Proper(p) && k0 <= |p.order|
    ensures match Roomy(p, cfg, k0)
            case Some(s) =>
              && k0 <= k < |p.order| && p.order[k] == s && RoomAt(p, cfg, k)
              && forall k': nat :: k0 <= k' < k ==> !RoomAt(p, cfg, k')
            case None => forall k': nat :: k0 <= k' ==> !RoomAt(p, cfg, k')
    decreases |p.order| - k0
  {
    hide Proper;
    k := k0;
    if k0 < |p.order| {
      AtOrder(p, k0);
      if !RoomAt(p, cfg, k0) { k := RoomyIs(p, cfg, k0 + 1); }
    }
  }

  /** Connection s with this state, taken into use, and nothing else changed. */
  ghost predicate TakenAs(p: Pool, p': Pool, s: Session, b: Backend) {
    p' == p.(backends := p.backends[s := b.(inUse := true, sequenceThis := p.sequenceTop)], sequenceTop := p.sequenceTop + 1)
  }

  /** A wanted set is there. */
  ghost predicate Matched(p: Pool, cfg: Config, want: Want, k: nat, j: nat)
    requires Proper(p)
  {
    cfg.optimize && FitAt(p, want, k, j) && forall k': nat, j': nat :: Earlier(k', j', k, j) ==> !FitAt(p, want, k', j')
  }

  ghost predicate Unmatched(p: Pool, cfg: Config, want: Want)
    requires Proper(p)
  {
    cfg.optimize ==> forall k: nat, j: nat :: !FitAt(p, want, k, j)
  }

  ghost predicate FirstVictim(p: Pool, cfg: Config, databases: seq<string>, out: bool, now: int, k: nat, j: nat)
    requires Proper(p)
  {
    && VictimAt(p, cfg, databases, out, now, k, j)
    && forall k': nat, j': nat :: Earlier(k', j', k, j) ==> !VictimAt(p, cfg, databases, out, now, k', j')
  }

  ghost predicate NoVictim(p: Pool, cfg: Config, databases: seq<string>, out: bool, now: int)
    requires Proper(p)
  {
    forall k: nat, j: nat :: !VictimAt(p, cfg, databases, out, now, k, j)
  }

  ghost predicate FirstRoom(p: Pool, cfg: Config, k: nat)
    requires Proper(p)
  {
    RoomAt(p, cfg, k) && forall k': nat :: k' < k ==> !RoomAt(p, cfg, k')
  }

  ghost predicate NoRoom(p: Pool, cfg: Config)
    requires Proper(p)
  {
    forall k: nat :: !RoomAt(p, cfg, k)
  }

  /** override_set and use_backend: the first set that may be replaced gives up its name and goes; or the
      first idle connection with room gets the next name; or there is no place. */
  ghost predicate Overridden(p: Pool, cfg: Config, databases: seq<string>, out: bool, now: int, place: Place, p': Pool)
    requires Proper(p)
  {
    || (exists k: nat, j: nat :: FirstVictim(p, cfg, databases, out, now, k, j) && ReplacesAt(p, k, j, place, p'))
    || (NoVictim(p, cfg, databases, out, now) && exists k: nat :: FirstRoom(p, cfg, k) && AddsAt(p, k, place, p'))
    || (NoVictim(p, cfg, databases, out, now) && NoRoom(p, cfg) && place == NoPlace && p' == p)
  }

  ghost predicate ReplacesAt(p: Pool, k: nat, j: nat, place: Place, p': Pool)
    requires Proper(p) && k < |p.order| && j < |BackendAt(p, k).sets|
  {
    var b := BackendAt(p, k);
    place == At(p.order[k], b.sets[j].id) && TakenAs(p, p', p.order[k], b.(sets := b.sets[..j] + b.sets[j + 1..]))
  }

  ghost predicate AddsAt(p: Pool, k: nat, place: Place, p': Pool)
    requires Proper(p) && k < |p.order|
  {
    var b := BackendAt(p, k);
    if p.named then
      place == At(p.order[k], Numbered(b.resultSetSequence)) && TakenAs(p, p', p.order[k], b.(resultSetSequence := b.resultSetSequence + 1))
    else
      place == At(p.order[k], DefaultId) && TakenAs(p, p', p.order[k], b)
  }

  lemma OverrideIs(p: Pool, cfg: Config, databases: seq<string>, out: bool, now: int)
    requires Proper(p)
    ensures var (place, p') := Override(p, cfg, databases, out, now); Overridden(p, cfg, databases, out, now, place, p')
  {
    hide Proper, VictimAt, RoomAt, Victim, Roomy;
    var (place, p') := Override(p, cfg, databases, out, now);
    var k := VictimIs(p, cfg, databases, out, now, 0);
    var v := Victim(p, cfg, databases, out, now, 0);
    if v.Some? {
      AtOrder(p, k);
      assert FirstVictim(p, cfg, databases, out, now, k, v.value.1);
      assert ReplacesAt(p, k, v.value.1, place, p');
    } else {
      assert NoVictim(p, cfg, databases, out, now);
      k := RoomyIs(p, cfg, 0);
      if Roomy(p, cfg, 0).Some? {
        AtOrder(p, k);
        assert FirstRoom(p, cfg, k) && AddsAt(p, k, place, p');
      } else {
        assert NoRoom(p, cfg);
      }
    }
  }

  /** One pass of get_set under the mutex: the first wanted set is waited for or taken; without one, a
      place for a new set is made, or there is none. */
  ghost predicate Chosen(p: Pool, cfg: Config, want: Want, out: bool, now: int, r: Looked, p': Pool)
    requires Proper(p)
  {
    || (exists k: nat, j: nat :: Matched(p, cfg, want, k, j) && MatchGives(p, k, j, r, p'))
    || (Unmatched(p, cfg, want) && exists place :: PlaceGives(p, cfg, want, out, now, place, r, p'))
  }

  ghost predicate PlaceGives(p: Pool, cfg: Config, want: Want, out: bool, now: int, place: Place, r: Looked, p': Pool)
    requires Proper(p)
  {
    Overridden(p, cfg, want.databases, out, now, place, p') && r == if place.At? then Search(place.session, place.id) else Nothing
  }

  ghost predicate MatchGives(p: Pool, k: nat, j: nat, r: Looked, p': Pool)
    requires Proper(p) && k < |p.order| && j < |BackendAt(p, k).sets|
  {
    var b := BackendAt(p, k);
    if b.inUse then r == Wait(p.order[k]) && p' == p
    else r == Reuse(p.order[k], b.sets[j].id) && TakenAs(p, p', p.order[k], b)
  }

  lemma LookIs(p: Pool, cfg: Config, want: Want, out: bool, now: int)
    requires Proper(p)
    ensures Chosen(p, cfg, want, out, now, Look(p, cfg, want, out, now).0, Look(p, cfg, want, out, now).1)
  {
    hide Proper, FitAt, Overridden, FirstMatch, Override;
    var (r, p') := Look(p, cfg, want, out, now);
    var k := FirstMatchIs(p, want, 0);
    var m := FirstMatch(p, want, 0);
    OverrideIs(p, cfg, want.databases, out, now);
    if cfg.optimize && m.Some? {
      AtOrder(p, k);
      assert Matched(p, cfg, want, k, m.value.1) && MatchGives(p, k, m.value.1, r, p');
    } else {
      assert Unmatched(p, cfg, want);
      assert PlaceGives(p, cfg, want, out, now, Override(p, cfg, want.databases, out, now).0, r, p');
    }
  }

  // ---------- what a request is answered ----------

  /** Whether the request has found the list of connections full: it is asked once, when get_set begins. */
  function Full(cfg: Config, s: System, f: nat): bool
    requires f in s.fronts && s.fronts[f].pc.Looking?
  {
    if s.fronts[f].pc.out.Some? then s.fronts[f].pc.out.value else |s.pool.order| >= cfg.sessionMax
  }

  /** Every record of the range is in the cache of the set. */
  predicate InCacheWhole(set_: BackendSet, call: Call)
    requires call.PresentCall?
  {
    && 0 < call.start < INT_MAX && 0 < call.number < INT_MAX
    && forall i :: call.start <= i < call.start + call.number ==> CacheKey(i, call.format) in set_.cache
  }

  /** The target is lost, or gives no new connection; or no more connections may be made, and there is
      neither a set to wait for or use, nor one to replace, nor room for one. */
  ghost predicate NotServed(cfg: Config, s: System, step: Step)
    requires Enabled(s, step)
  {
    match step
    case SearchReply(_, alive, _) => !alive
    case Finish(f, alive, _) => !alive && s.fronts[f].pc.call.PresentCall? && !InCacheWhole(SetFound(s, f), s.fronts[f].pc.call)
    case InitReply(f, _, got, accepted, _) => s.fronts[f].pc.Creating? && !(got && accepted)
    case LookStep(f, now) =>
      var want := WantOf(s.fronts[f].pc.call);
      && Full(cfg, s, f) && Unmatched(s.pool, cfg, want)
      && NoVictim(s.pool, cfg, want.databases, true, now) && NoRoom(s.pool, cfg)
    case _ => false
  }

  predicate ToldUnavailable(pc: Pc) {
    pc.Done? && pc.reply == Unavailable
  }

  /** What a pass of get_set means for the request. */
  ghost predicate LeadsTo(s: System, f: nat, full: bool, r: Looked, p': Pool, s': System)
    requires f in s.fronts && s.fronts[f].pc.Looking?
  {
    var call := s.fronts[f].pc.call;
    match r
    case Wait(b) => s' == SetPc(s, f, Looking(call, Some(full))).(asleep := s.asleep[f := b])
    case Reuse(b, id) => s' == SetPc(s, f, Found(call, b, id)).(pool := p')
    case Search(b, id) => s' == SetPc(s, f, Asking(call, b, id)).(pool := p')
    case Nothing => s' == SetPc(s, f, if full then Done(call, Unavailable) else Creating(call))
  }

  ghost predicate Passes(cfg: Config, s: System, f: nat, now: int, r: Looked, p': Pool, s': System)
    requires f in s.fronts && s.fronts[f].pc.Looking? && Proper(s.pool)
  {
    Chosen(s.pool, cfg, WantOf(s.fronts[f].pc.call), Full(cfg, s, f), now, r, p') && LeadsTo(s, f, Full(cfg, s, f), r, p', s')
  }

  /** A pass of get_set does what the choice says. */
  lemma LookAnswers(t: Target, cfg: Config, s: System, f: nat, now: int)
    requires Enabled(s, LookStep(f, now))
    ensures exists r, p' :: Passes(cfg, s, f, now, r, p', Apply(s, t, cfg, LookStep(f, now)))
  {
    hide Proper, Chosen, Look;
    var want := WantOf(s.fronts[f].pc.call);
    LookIs(s.pool, cfg, want, Full(cfg, s, f), now);
    var (r, p') := Look(s.pool, cfg, want, Full(cfg, s, f), now);
    assert Passes(cfg, s, f, now, r, p', Apply(s, t, cfg, LookStep(f, now)));
  }

  lemma LookUnavailable(t: Target, cfg: Config, s: System, f: nat, now: int)
    requires Enabled(s, LookStep(f, now))
    ensures ToldUnavailable(Apply(s, t, cfg, LookStep(f, now)).fronts[f].pc) <==> NotServed(cfg, s, LookStep(f, now))
  {
    hide Proper, VictimAt, RoomAt, FitAt;
    LookAnswers(t, cfg, s, f, now);
    var r, p' :| Passes(cfg, s, f, now, r, p', Apply(s, t, cfg, LookStep(f, now)));
    hide Apply;
    var want := WantOf(s.fronts[f].pc.call);
    if NotServed(cfg, s, LookStep(f, now)) {
      assert r == Nothing;
    }
  }

  lemma FinishUnavailable(t: Target, cfg: Config, s: System, f: nat, alive: bool, now: int)
    requires Enabled(s, Finish(f, alive, now))
    ensures ToldUnavailable(Apply(s, t, cfg, Finish(f, alive, now)).fronts[f].pc) <==> NotServed(cfg, s, Finish(f, alive, now))
  {
    hide Proper, Remove, Normal, IndexOfSet, HasSet, Added, FromCache, Presented;
  }

  lemma OtherUnavailable(t: Target, cfg: Config, s: System, step: Step, f: nat)
    requires Enabled(s, step) && Actor(step) == Some(f) && !step.LookStep? && !step.Finish?
    ensures var s' := Apply(s, t, cfg, step); f in s'.fronts && (ToldUnavailable(s'.fronts[f].pc) <==> NotServed(cfg, s, step))
  {
    hide Proper, Remove, Normal, HasSet, LeastRecent, Inline, Create;
  }

  /** A request is told that there is no connection, or that it was lost, exactly when that is so. */
  lemma UnavailableExactly(t: Target, cfg: Config, s: System, step: Step, f: nat)
    requires Enabled(s, step) && Actor(step) == Some(f)
    ensures var s' := Apply(s, t, cfg, step); f in s'.fronts && (ToldUnavailable(s'.fronts[f].pc) <==> NotServed(cfg, s, step))
  {
    hide Enabled, Apply, NotServed;
    StandsAfter(t, cfg, s, step, f);
    match step
    case LookStep(_, now) => LookUnavailable(t, cfg, s, f, now);
    case Finish(_, alive, now) => FinishUnavailable(t, cfg, s, f, alive, now);
    case _ => OtherUnavailable(t, cfg, s, step, f);
  }

  lemma StandsAfter(t: Target, cfg: Config, s: System, step: Step, f: nat)
    requires Enabled(s, step) && Actor(step) == Some(f)
    ensures f in s.fronts && (step.LookStep? || step.Finish? ==> f in Apply(s, t, cfg, step).fronts)
  {
    hide Proper, Remove, Normal, HasSet, LeastRecent, Inline, Create, Look, IndexOfSet, Cached, Added, FromCache, Presented;
  }

  /** What a request is answered, and what becomes of the connection it holds. */
  ghost predicate AnsweredWith(s: System, s': System, f: nat, reply: Reply, b: Session, backend: Backend)
    requires f in s.fronts && Calls(s.fronts[f].pc)
  {
    && s'.fronts == s.fronts[f := s.fronts[f].(pc := Done(s.fronts[f].pc.call, reply))]
    && s'.pool == s.pool.(backends := s.pool.backends[b := backend.(inUse := false)]) && s'.asleep == map[]
  }

  /** The records of the range, from the cache of a set. */
  ghost predicate FromSet(set_: BackendSet, call: Call, records: seq<Record>)
    requires call.PresentCall? && InCacheWhole(set_, call)
  {
    |records| == call.number && forall i :: 0 <= i < call.number ==> records[i] == set_.cache[CacheKey(call.start + i, call.format)]
  }

  /** The cache of a set with the records of a range added, each at its position. */
  ghost predicate Extended(cache: map<CacheKey, Record>, cache': map<CacheKey, Record>, start: int, format: Format, records: seq<Record>) {
    && (forall k :: k in cache' <==> k in cache || (k.format == format && start <= k.position < start + |records|))
    && (forall k :: k in cache' ==> cache'[k] == if k.format == format && start <= k.position < start + |records|
                                                  then records[k.position - start] else cache[k])
  }

  /** The connection after records have come for its j-th set: they enter the set's cache if their
      positions fit an int. */
  ghost predicate RecordsKept(b: Backend, b': Backend, j: nat, call: Call, records: seq<Record>, now: int)
    requires call.PresentCall? && j < |b.sets|
  {
    && |b'.sets| == |b.sets| && b' == b.(lastUse := now, sets := b'.sets)
    && (forall i :: 0 <= i < |b.sets| && i != j ==> b'.sets[i] == b.sets[i])
    && b'.sets[j] == b.sets[j].(cache := b'.sets[j].cache)
    && if call.start > 0 && |records| + call.start < INT_MAX
       then Extended(b.sets[j].cache, b'.sets[j].cache, call.start, call.format, records)
       else b'.sets[j].cache == b.sets[j].cache
  }

  ghost predicate FoundAt(s: System, f: nat, call: Call, b: Session, id: SetId, j: nat) {
    && f in s.fronts && s.fronts[f].pc == Found(call, b, id)
    && b in s.pool.backends && b in s.held && j < |s.pool.backends[b].sets| && s.pool.backends[b].sets[j].id == id
  }

  /** A Present whose range is in the cache is answered from there, whether the target is alive or not. */
  lemma CacheAnswers(t: Target, cfg: Config, s: System, f: nat, call: Call, b: Session, id: SetId, j: nat, alive: bool, now: int)
    requires Inv(t, s) && FoundAt(s, f, call, b, id, j) && call.PresentCall? && InCacheWhole(s.pool.backends[b].sets[j], call)
    ensures Enabled(s, Finish(f, alive, now))
    ensures exists records :: FromSet(s.pool.backends[b].sets[j], call, records)
              && AnsweredWith(s, Apply(s, t, cfg, Finish(f, alive, now)), f, PresentOk(records, true), b, s.pool.backends[b])
  {
    hide Inv, FromCache;
    FoundIs(t, s, f, call, b, id, j);
    var set_ := s.pool.backends[b].sets[j];
    var records := FromCache(set_.cache, call.start, call.number, call.format);
    assert FromSet(set_, call, records);
    hide IndexOfSet, HasSet, Cached;
    assert AnsweredWith(s, Apply(s, t, cfg, Finish(f, alive, now)), f, PresentOk(records, true), b, s.pool.backends[b]);
  }

  lemma FoundIs(t: Target, s: System, f: nat, call: Call, b: Session, id: SetId, j: nat)
    requires Inv(t, s) && FoundAt(s, f, call, b, id, j)
    ensures HasSet(s.pool.backends[b].sets, id) && IndexOfSet(s.pool.backends[b].sets, id) == j
  {
    hide SetOk, FrontOk, Proper;
    assert BackendOk(t, s.pool.backends[b], s.held[b]);
  }

  /** Otherwise a live target is asked, and what it answers is passed on; records enter the cache. */
  lemma TargetAnswers(t: Target, cfg: Config, s: System, f: nat, call: Call, b: Session, id: SetId, j: nat, now: int)
    requires Inv(t, s) && FoundAt(s, f, call, b, id, j) && call.PresentCall? && !InCacheWhole(s.pool.backends[b].sets[j], call)
    ensures Enabled(s, Finish(f, true, now))
    ensures var s' := Apply(s, t, cfg, Finish(f, true, now));
            match t.present(Normal(call.databases), call.query, call.start, call.number, call.format)
            case NoRecords(c) => AnsweredWith(s, s', f, Diagnostic(c), b, s.pool.backends[b].(lastUse := now))
            case Records(records) =>
              exists b' :: RecordsKept(s.pool.backends[b], b', j, call, records, now) && AnsweredWith(s, s', f, PresentOk(records, false), b, b')
  {
    hide Inv, Normal, Fetched, AnsweredWith, RecordsKept, Apply;
    FinishFetches(t, cfg, s, f, call, b, id, j, now);
    var answer := t.present(Normal(call.databases), call.query, call.start, call.number, call.format);
    FetchedAnswers(s, f, call, b, j, answer, now);
  }

  lemma FinishFetches(t: Target, cfg: Config, s: System, f: nat, call: Call, b: Session, id: SetId, j: nat, now: int)
    requires Inv(t, s) && FoundAt(s, f, call, b, id, j) && call.PresentCall? && !InCacheWhole(s.pool.backends[b].sets[j], call)
    ensures Enabled(s, Finish(f, true, now))
    ensures Apply(s, t, cfg, Finish(f, true, now))
            == Fetched(s, f, call, b, j, t.present(Normal(call.databases), call.query, call.start, call.number, call.format), now)
  {
    hide Inv, Normal, Fetched;
    FoundIs(t, s, f, call, b, id, j);
    PresentedIs(t, s, f, call, b, id);
    hide IndexOfSet, HasSet, Presented;
  }

  lemma FetchedAnswers(s: System, f: nat, call: Call, b: Session, j: nat, answer: PresentAnswer, now: int)
    requires f in s.fronts && Calls(s.fronts[f].pc) && s.fronts[f].pc.call == call
    requires b in s.pool.backends && call.PresentCall? && j < |s.pool.backends[b].sets|
    ensures var s' := Fetched(s, f, call, b, j, answer, now);
            match answer
            case NoRecords(c) => AnsweredWith(s, s', f, Diagnostic(c), b, s.pool.backends[b].(lastUse := now))
            case Records(records) =>
              exists b' :: RecordsKept(s.pool.backends[b], b', j, call, records, now) && AnsweredWith(s, s', f, PresentOk(records, false), b, b')
  {
    hide Added;
    var old_ := s.pool.backends[b];
    if answer.Records? {
      var records := answer.records;
      var fits := call.start > 0 && |records| + call.start < INT_MAX;
      var cache := if fits then Added(old_.sets[j].cache, call.start, call.format, records) else old_.sets[j].cache;
      AddedExtends(old_.sets[j].cache, call.start, call.format, records);
      SetSame(old_.sets, j);
      hide Extended;
      var b' := old_.(lastUse := now, sets := old_.sets[j := old_.sets[j].(cache := cache)]);
      assert RecordsKept(old_, b', j, call, records, now);
      assert AnsweredWith(s, Fetched(s, f, call, b, j, answer, now), f, PresentOk(records, false), b, b');
    }
  }

  lemma SetSame(sets: seq<BackendSet>, j: nat)
    requires j < |sets|
    ensures sets[j := sets[j].(cache := sets[j].cache)] == sets
  {
  }

  lemma AddedExtends(cache: map<CacheKey, Record>, start: int, format: Format, records: seq<Record>)
    ensures Extended(cache, Added(cache, start, format, records), start, format, records)
  {
    hide Added;
    forall k: CacheKey ensures var fresh_ := k.format == format && start <= k.position < start + |records|;
                     var c := Added(cache, start, format, records);
                     (k in c <==> k in cache || fresh_) && (k in c ==> c[k] == if fresh_ then records[k.position - start] else cache[k])
    {
      AddedFacts(cache, start, format, records, k);
    }
  }

  /** A search at a live target: with hits the set joins the connection, and the request goes on with it;
      otherwise the target's diagnostic is passed on and the connection is free again. */
  lemma SearchAnswers(t: Target, cfg: Config, s: System, f: nat, call: Call, b: Session, id: SetId, now: int)
    requires f in s.fronts && s.fronts[f].pc == Asking(call, b, id) && b in s.pool.backends && b in s.held
    ensures Enabled(s, SearchReply(f, true, now))
    ensures var (s', old_, info) := (Apply(s, t, cfg, SearchReply(f, true, now)), s.pool.backends[b], if call.SearchCall? then call.info else "");
            match t.search(Normal(call.databases), call.query, info)
            case Fails(c) => AnsweredWith(s, s', f, Diagnostic(c), b, old_.(lastUse := now))
            case Hits(count, more) =>
              && s'.fronts == s.fronts[f := s.fronts[f].(pc := Found(call, b, id))] && s'.asleep == s.asleep
              && s'.pool == s.pool.(backends := s.pool.backends[b := old_.(lastUse := now, sets := old_.sets +
                   [BackendSet(id, call.databases, call.query, count, info, more, now, map[])])])
  {
    hide Normal, Remove;
  }

  /** A search that has its set is answered with the set's count and information, and the frontend
      remembers the set under its name. */
  lemma FoundSearchAnswers(t: Target, cfg: Config, s: System, f: nat, call: Call, b: Session, id: SetId, j: nat, alive: bool, now: int)
    requires Inv(t, s) && FoundAt(s, f, call, b, id, j) && call.SearchCall?
    ensures Enabled(s, Finish(f, alive, now))
    ensures var (s', set_) := (Apply(s, t, cfg, Finish(f, alive, now)), s.pool.backends[b].sets[j]);
            && s'.pool == s.pool.(backends := s.pool.backends[b := s.pool.backends[b].(inUse := false)]) && s'.asleep == map[]
            && s'.fronts == s.fronts[f := Front(s.fronts[f].sets[call.name := FrontendSet(call.databases, call.query)],
                                                s.fronts[f].infos[call.name := call.info], Done(call, SearchOk(set_.size, set_.infoResponse)))]
  {
    hide Inv;
    FoundIs(t, s, f, call, b, id, j);
    hide IndexOfSet, HasSet;
  }

  // ---------- the same, in every run ----------

  /** In every run a frontend's step leaves it with the answer that there is no connection exactly when
      it is not served. */
  lemma UnavailableInRuns(t: Target, cfg: Config, states: seq<System>, steps: seq<Step>, i: nat, f: nat)
    requires Run(t, cfg, states, steps) && i < |steps| && Actor(steps[i]) == Some(f)
    ensures Enabled(states[i], steps[i]) && f in states[i + 1].fronts
    ensures ToldUnavailable(states[i + 1].fronts[f].pc) <==> NotServed(cfg, states[i], steps[i])
  {
    hide Enabled, Apply, NotServed, Initial;
    assert Goes(t, cfg, states[i], steps[i], states[i + 1]);
    UnavailableExactly(t, cfg, states[i], steps[i], f);
  }

  /** In every run a Present that has its set, and is not answered from the cache by a live target, gets
      the records or the diagnostic that the target has for its own databases, query and range. */
  lemma PresentInRuns(t: Target, cfg: Config, states: seq<System>, steps: seq<Step>, i: nat, f: nat, j: nat, now: int)
    requires Run(t, cfg, states, steps) && i < |steps| && steps[i] == Finish(f, true, now)
    requires f in states[i].fronts && states[i].fronts[f].pc.Found? && states[i].fronts[f].pc.call.PresentCall?
    requires var pc := states[i].fronts[f].pc;
             FoundAt(states[i], f, pc.call, pc.session, pc.id, j) && !InCacheWhole(states[i].pool.backends[pc.session].sets[j], pc.call)
    ensures var call := states[i].fronts[f].pc.call;
            f in states[i + 1].fronts && states[i + 1].fronts[f].pc == Done(call,
              match t.present(Normal(call.databases), call.query, call.start, call.number, call.format)
              case Records(records) => PresentOk(records, false)
              case NoRecords(c) => Diagnostic(c))
  {
    hide Enabled, Apply, Initial, InCacheWhole, Inv, RecordsKept, Normal;
    assert Goes(t, cfg, states[i], steps[i], states[i + 1]);
    RunKeeps(t, cfg, states, steps, i);
    var pc := states[i].fronts[f].pc;
    TargetAnswers(t, cfg, states[i], f, pc.call, pc.session, pc.id, j, now);
  }

  // ---------- how a request begins ----------

  /** A search for a set that exists is refused without the replace indicator, and changes no set.
      Otherwise the old set is dropped; the search goes on unless its query names a set that cannot be used. */
  lemma SearchBegins(t: Target, cfg: Config, s: System, f: nat, name: string, replace: bool, databases: seq<string>, query: Query, info: Info)
    requires f in s.fronts && Idle(s.fronts[f].pc)
    ensures Enabled(s, StartSearch(f, name, replace, databases, query, info))
    ensures var (s', front) := (Apply(s, t, cfg, StartSearch(f, name, replace, databases, query, info)), s.fronts[f]);
            var sets := front.sets - {name};
            && s' == s.(fronts := s.fronts[f := s'.fronts[f]])
            && if name in front.sets && !replace then s'.fronts[f] == front.(pc := Rejected)
               else
                 && s'.fronts[f] == Front(sets, front.infos - {name}, s'.fronts[f].pc)
                 && (s'.fronts[f].pc == Rejected <==> query.Type1? && exists n :: n in Names(query.tree) && !Resolvable(sets, databases, n))
                 && (s'.fronts[f].pc != Rejected ==>
                       s'.fronts[f].pc.Looking? && s'.fronts[f].pc.out == None && s'.fronts[f].pc.call.SearchCall?
                       && var call := s'.fronts[f].pc.call;
                          call.name == name && call.databases == databases && call.info == info
                          && (query.OtherType? ==> call.query == query)
                          && (query.Type1? ==> call.query == Type1(query.attributeSet, Inline(sets, databases, query.tree, "").1)))
  {
    if query.Type1? { InlineStatus(s.fronts[f].sets - {name}, databases, query.tree, ""); }
    hide Inline, Resolvable, Names;
  }

  /** A Present of an unknown set is refused; one of a known set looks for its databases and query. */
  lemma PresentBegins(t: Target, cfg: Config, s: System, f: nat, name: string, start: int, number: int, format: Format)
    requires Inv(t, s) && f in s.fronts && Idle(s.fronts[f].pc)
    ensures Enabled(s, StartPresent(f, name, start, number, format))
    ensures var (s', front) := (Apply(s, t, cfg, StartPresent(f, name, start, number, format)), s.fronts[f]);
            s' == SetPc(s, f, if name !in front.sets then Rejected
                              else
                                assert FrontOk(t, s, front);
                                Looking(PresentCall(front.sets[name].databases, front.sets[name].query, front.infos[name], start, number, format), None))
  {
    FrontFacts(t, s, f);
  }

  // ---------- Scan and Init ----------

  /** Connection b is idle and was taken into use before every other idle one. */
  ghost predicate LeastRecentlyUsed(p: Pool, b: Session) {
    && b in p.backends && !p.backends[b].inUse
    && forall x :: x in p.backends && !p.backends[x].inUse ==> p.backends[b].sequenceThis <= p.backends[x].sequenceThis
  }

  /** A Scan takes the idle connection that was used least recently, or makes one if none is idle. */
  lemma ScanBegins(t: Target, cfg: Config, s: System, f: nat)
    requires Enabled(s, StartScan(f))
    ensures var s' := Apply(s, t, cfg, StartScan(f));
            if exists x :: x in s.pool.backends && !s.pool.backends[x].inUse then
              exists b :: LeastRecentlyUsed(s.pool, b) && s' == SetPc(s, f, Scanning(b)).(pool := s'.pool) && TakenAs(s.pool, s'.pool, b, s.pool.backends[b])
            else s' == SetPc(s, f, ScanCreating)
  {
    hide LeastRecent;
    var p := s.pool;
    var n := |p.order|;
    var r := LeastRecent(p, n);
    forall x | x in p.backends ensures exists i :: 0 <= i < n && p.order[i] == x { assert x in p.order; }
    if r.Some? {
      forall x | x in p.backends && !p.backends[x].inUse ensures p.backends[r.value].sequenceThis <= p.backends[x].sequenceThis {
        var i :| 0 <= i < n && p.order[i] == x;
      }
      assert LeastRecentlyUsed(p, r.value);
      assert TakenAs(p, Apply(s, t, cfg, StartScan(f)).pool, r.value, p.backends[r.value]);
    } else {
      forall x | x in p.backends ensures p.backends[x].inUse {
        var i :| 0 <= i < n && p.order[i] == x;
      }
    }
  }

  /** The target's answer to an Init. An accepted one gives a connection in use, at the end of the list,
      to whoever wants it; any other wakes those who wait. Either tells whether sets are named. */
  lemma InitAnswers(t: Target, cfg: Config, s: System, f: nat, b: Session, got: bool, accepted: bool, now: int)
    requires Enabled(s, InitReply(f, b, got, accepted, now))
    ensures var (s', pc) := (Apply(s, t, cfg, InitReply(f, b, got, accepted, now)), s.fronts[f].pc);
            && s'.pool.named == (got && t.named) && s'.pool.sequenceTop == s.pool.sequenceTop
            && (forall g :: g in s.fronts && g != f ==> g in s'.fronts && s'.fronts[g] == s.fronts[g])
            && f in s'.fronts && s'.fronts[f].sets == s.fronts[f].sets
            && if got && accepted then
                 && s'.pool.order == s.pool.order + [b] && s'.pool.backends == s.pool.backends[b := Backend(true, [], 0, 0, now)]
                 && s'.asleep == s.asleep && s'.held == s.held[b := map[]]
                 && s'.fronts[f].pc == (if pc.Creating? then Created(pc.call, b) else if pc.ScanCreating? then Scanning(b) else InitCreated(b))
               else
                 && s'.pool.order == s.pool.order && s'.pool.backends == s.pool.backends && s'.asleep == map[] && s'.held == s.held
                 && s'.fronts[f].pc == (if pc.Creating? then Done(pc.call, Unavailable) else Rejected)
  {
  }

  /** A Scan and an Init are over when the connection is given back; or it is lost. */
  lemma OthersEnd(t: Target, cfg: Config, s: System, f: nat, alive: bool)
    ensures Enabled(s, ScanReply(f, alive)) ==>
            var (s', b) := (Apply(s, t, cfg, ScanReply(f, alive)), s.fronts[f].pc.session);
            && s'.fronts == s.fronts[f := s.fronts[f].(pc := Ready)]
            && if alive then s'.pool == s.pool.(backends := s.pool.backends[b := s.pool.backends[b].(inUse := false)]) && s'.asleep == map[]
               else s'.pool == Remove(s.pool, b) && s'.asleep == s.asleep
    ensures Enabled(s, InitRelease(f)) ==>
            var (s', b) := (Apply(s, t, cfg, InitRelease(f)), s.fronts[f].pc.session);
            && s'.fronts == s.fronts[f := s.fronts[f].(pc := Ready)]
            && s'.pool == s.pool.(backends := s.pool.backends[b := s.pool.backends[b].(inUse := false)]) && s'.asleep == map[]
  {
    hide Remove;
  }
}
