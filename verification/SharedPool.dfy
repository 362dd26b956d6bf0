/** The pool of shared target connections of one backend class, and the effect on it of each region
    that runs under the class's mutex, src/filter_session_shared.cpp. */
module SharedPool {
  import opened Databases
  import opened Rpn
  import opened Options

  type Session = nat   // a connection to the target
  type Info = string   // additional search information; empty when absent
  type Format = string // record syntax and composition
  type Record = string

  /** The name of a result set at the target: a number in decimal, or "default". */
  datatype SetId = Numbered(n: nat) | DefaultId

  datatype CacheKey = CacheKey(position: int, format: Format)

  datatype BackendSet = BackendSet(
    id: SetId, databases: seq<string>, query: Query, size: int, infoRequest: Info, infoResponse: Info,
    lastUse: int, cache: map<CacheKey, Record>)

  datatype Backend = Backend(inUse: bool, sets: seq<BackendSet>, sequenceThis: int, resultSetSequence: nat, lastUse: int)

  /** order is the list of connections as the source iterates over it. */
  datatype Pool = Pool(order: seq<Session>, backends: map<Session, Backend>, named: bool, sequenceTop: int)

  datatype Config = Config(setTtl: int, expiryTtl: int, setMax: nat, sessionMax: int, optimize: bool)

  ghost predicate Proper(p: Pool) {
    && (forall b :: b in p.order <==> b in p.backends)
    && (forall i, j :: 0 <= i < j < |p.order| ==> p.order[i] != p.order[j])
  }

  /** What get_set is called for. A Present request carries no additional search information. */
  datatype Want = Want(databases: seq<string>, query: Query, info: Info, isSearch: bool)

  predicate Fits(set_: BackendSet, want: Want) {
    Same(set_.databases, want.databases) && set_.query == want.query && (want.isSearch ==> set_.infoRequest == want.info)
  }

  // ---------- get_set, lines 810-866, and override_set, lines 736-784 ----------

  function FirstFit(sets: seq<BackendSet>, want: Want, j: nat): (r: Option<nat>)
    requires j <= |sets|
    ensures r.Some? ==> j <= r.value < |sets| && Fits(sets[r.value], want) && forall k :: j <= k < r.value ==> !Fits(sets[k], want)
    ensures r.None? ==> forall k :: j <= k < |sets| ==> !Fits(sets[k], want)
    decreases |sets| - j
  {
    if j == |sets| then None else if Fits(sets[j], want) then Some(j) else FirstFit(sets, want, j + 1)
  }

  /** The first connection, from the k-th on, that has a fitting result set, and the set. */
  function FirstMatch(p: Pool, want: Want, k: nat): (r: Option<(Session, nat)>)
    requires k <= |p.order| && Proper(p)
    ensures r.Some? ==> r.value.0 in p.backends && r.value.1 < |p.backends[r.value.0].sets|
                        && Fits(p.backends[r.value.0].sets[r.value.1], want)
    decreases |p.order| - k
  {
    if k == |p.order| then None
    else
      assert p.order[k] in p.order;
      var j := FirstFit(p.backends[p.order[k]].sets, want, 0);
      if j.Some? then Some((p.order[k], j.value)) else FirstMatch(p, want, k + 1)
  }

  function MaxSets(p: Pool, cfg: Config): nat {
    if p.named then cfg.setMax else 1
  }

  predicate Evictable(p: Pool, cfg: Config, set_: BackendSet, databases: seq<string>, out: bool, now: int) {
    && (MaxSets(p, cfg) > 1 || Same(set_.databases, databases))
    && (out || now < set_.lastUse || now - set_.lastUse >= cfg.setTtl)
  }

  function FirstEvictable(p: Pool, cfg: Config, sets: seq<BackendSet>, databases: seq<string>, out: bool, now: int, j: nat): (r: Option<nat>)
    requires j <= |sets|
    ensures r.Some? ==> j <= r.value < |sets|
    decreases |sets| - j
  {
    if j == |sets| then None
    else if Evictable(p, cfg, sets[j], databases, out, now) then Some(j)
    else FirstEvictable(p, cfg, sets, databases, out, now, j + 1)
  }

  /** The first result set of an idle connection that may be replaced. */
  function Victim(p: Pool, cfg: Config, databases: seq<string>, out: bool, now: int, k: nat): (r: Option<(Session, nat)>)
    requires k <= |p.order| && Proper(p)
    ensures r.Some? ==> r.value.0 in p.backends && !p.backends[r.value.0].inUse && r.value.1 < |p.backends[r.value.0].sets|
    decreases |p.order| - k
  {
    if k == |p.order| then None
    else
      assert p.order[k] in p.order;
      var b := p.backends[p.order[k]];
      var j := if b.inUse then None else FirstEvictable(p, cfg, b.sets, databases, out, now, 0);
      if j.Some? then Some((p.order[k], j.value)) else Victim(p, cfg, databases, out, now, k + 1)
  }

  /** The first idle connection with room for one more result set. */
  function Roomy(p: Pool, cfg: Config, k: nat): (r: Option<Session>)
    requires k <= |p.order| && Proper(p)
    ensures r.Some? ==> r.value in p.backends && !p.backends[r.value].inUse && |p.backends[r.value].sets| < MaxSets(p, cfg)
    decreases |p.order| - k
  {
    if k == |p.order| then None
    else
      assert p.order[k] in p.order;
      var b := p.backends[p.order[k]];
      if !b.inUse && |b.sets| < MaxSets(p, cfg) then Some(p.order[k]) else Roomy(p, cfg, k + 1)
  }

  function Use(p: Pool, b: Session): Pool
    requires b in p.backends
  {
    p.(backends := p.backends[b := p.backends[b].(inUse := true, sequenceThis := p.sequenceTop)], sequenceTop := p.sequenceTop + 1)
  }

  function Without<T>(s: seq<T>, j: nat): seq<T>
    requires j < |s|
  {
    s[..j] + s[j + 1..]
  }

  /** The next free result set name at a connection, and the connection with that name taken. */
  function Name(named: bool, b: Backend): (SetId, Backend) {
    if named then (Numbered(b.resultSetSequence), b.(resultSetSequence := b.resultSetSequence + 1)) else (DefaultId, b)
  }

  datatype Place = NoPlace | At(session: Session, id: SetId)

  /** override_set, followed by use_backend when it found a place. */
  function Override(p: Pool, cfg: Config, databases: seq<string>, out: bool, now: int): (r: (Place, Pool))
    requires Proper(p)
  {
    var v := Victim(p, cfg, databases, out, now, 0);
    if v.Some? then
      var (s, j) := v.value;
      var b := p.backends[s];
      (At(s, b.sets[j].id), Use(p.(backends := p.backends[s := b.(sets := Without(b.sets, j))]), s))
    else
      var room := Roomy(p, cfg, 0);
      if room.None? then (NoPlace, p)
      else
        var (id, b) := Name(p.named, p.backends[room.value]);
        (At(room.value, id), Use(p.(backends := p.backends[room.value := b]), room.value))
  }

  datatype Looked = Wait(session: Session) | Reuse(session: Session, id: SetId) | Search(session: Session, id: SetId) | Nothing

  /** The region of get_set under the class's mutex, up to waiting or leaving it. */
  function Look(p: Pool, cfg: Config, want: Want, out: bool, now: int): (r: (Looked, Pool))
    requires Proper(p)
  {
    var m := if cfg.optimize then FirstMatch(p, want, 0) else None;
    if m.Some? then
      var (s, j) := m.value;
      if p.backends[s].inUse then (Wait(s), p) else (Reuse(s, p.backends[s].sets[j].id), Use(p, s))
    else
      var (place, p') := Override(p, cfg, want.databases, out, now);
      (if place.At? then Search(place.session, place.id) else Nothing, p')
  }

  // ---------- the other regions ----------

  /** create_backend after the target's answer, lines 439-470 and 519-520: got says whether there was
      an Init response, named whether it offers named result sets, accepted whether it accepts. */
  function Create(p: Pool, s: Session, got: bool, named: bool, accepted: bool, now: int): (r: Pool)
    requires s !in p.order
  {
    var p1 := p.(named := got && named);
    if got && accepted then p1.(order := p.order + [s], backends := p.backends[s := Backend(true, [], 0, 0, now)]) else p1
  }

  function Release(p: Pool, s: Session): Pool
    requires s in p.backends
  {
    p.(backends := p.backends[s := p.backends[s].(inUse := false)])
  }

  function Index(order: seq<Session>, s: Session): (i: nat)
    requires s in order
    ensures i < |order| && order[i] == s
  {
    if order[0] == s then 0 else 1 + Index(order[1..], s)
  }

  function Remove(p: Pool, s: Session): Pool {
    if s in p.order then p.(order := Without(p.order, Index(p.order, s)), backends := p.backends - {s}) else p
  }

  predicate Expired(b: Backend, cfg: Config, now: int) {
    !b.inUse && (now < b.lastUse || now - b.lastUse > cfg.expiryTtl)
  }

  /** The pool without the k-th connection. */
  function Erased(p: Pool, k: nat): (r: Pool)
    requires k < |p.order|
  {
    p.(order := Without(p.order, k), backends := p.backends - {p.order[k]})
  }

  lemma WithoutDistinct(order: seq<Session>, k: nat)
    requires k < |order| && forall i, j :: 0 <= i < j < |order| ==> order[i] != order[j]
    ensures var rest := Without(order, k);
            && (forall x :: x in rest <==> x in order && x != order[k])
            && (forall i, j :: 0 <= i < j < |rest| ==> rest[i] != rest[j])
  {
    var rest := Without(order, k);
    assert forall i :: 0 <= i < |rest| ==> rest[i] == order[if i < k then i else i + 1];
    forall x | x in order && x != order[k] ensures x in rest {
      var i :| 0 <= i < |order| && order[i] == x;
      assert rest[if i < k then i else i - 1] == x;
    }
  }

  /** expire_instances, lines 1301-1333, from the k-th connection on. */
  function ExpireFrom(p: Pool, cfg: Config, now: int, k: nat): (r: Pool)
    requires Proper(p) && k <= |p.order|
    decreases |p.order| - k
  {
    if k == |p.order| then p
    else
      assert p.order[k] in p.order;
      if Expired(p.backends[p.order[k]], cfg, now) then
        WithoutDistinct(p.order, k);
        ExpireFrom(Erased(p, k), cfg, now, k)
      else
        ExpireFrom(p, cfg, now, k + 1)
  }

  function Expire(p: Pool, cfg: Config, now: int): (r: Pool)
    requires Proper(p)
  {
    ExpireFrom(p, cfg, now, 0)
  }

  lemma ErasedProper(p: Pool, k: nat)
    requires Proper(p) && k < |p.order|
    ensures Proper(Erased(p, k)) && p.order[k] in p.backends
  {
    assert p.order[k] in p.order;
    WithoutDistinct(p.order, k);
  }

  /** Expiry drops exactly the connections that are idle and have not been used for longer than allowed,
      or were last used in the future, and changes nothing about the others. */
  lemma ExpireDrops(p: Pool, cfg: Config, now: int, s: Session)
    requires Proper(p)
    ensures var r := Expire(p, cfg, now);
            && r.named == p.named && r.sequenceTop == p.sequenceTop
            && (s in r.backends <==>
                  s in p.backends && (p.backends[s].inUse || (p.backends[s].lastUse <= now && now - p.backends[s].lastUse <= cfg.expiryTtl)))
            && (s in r.backends ==> r.backends[s] == p.backends[s])
  {
    ExpireFacts(p, cfg, now, 0, s);
    hide Proper, ExpireFrom;
  }

  /** The others keep their order. */
  lemma {:induction false} ExpireKeepsOrder(p: Pool, cfg: Config, now: int, k: nat, a: Session, b: Session)
    requires Proper(p) && k <= |p.order| && Precedes(ExpireFrom(p, cfg, now, k).order, a, b)
    ensures Precedes(p.order, a, b)
    decreases |p.order| - k
  {
    if k < |p.order| {
      ErasedProper(p, k);
      ExpireStep(p, cfg, now, k);
      hide Proper, ExpireFrom, Without;
      if Expired(p.backends[p.order[k]], cfg, now) {
        ExpireKeepsOrder(Erased(p, k), cfg, now, k, a, b);
        WithoutPrefix(p.order, k);
        var r := Erased(p, k).order;
        var i, j :| 0 <= i < j < |r| && r[i] == a && r[j] == b;
        assert p.order[if i < k then i else i + 1] == a && p.order[if j < k then j else j + 1] == b;
      } else {
        ExpireKeepsOrder(p, cfg, now, k + 1, a, b);
      }
    }
  }

  ghost predicate Precedes(order: seq<Session>, a: Session, b: Session) {
    exists i, j :: 0 <= i < j < |order| && order[i] == a && order[j] == b
  }

  lemma {:induction false} ExpireFacts(p: Pool, cfg: Config, now: int, k: nat, s: Session)
    requires Proper(p) && k <= |p.order|
    requires forall i :: 0 <= i < k ==> p.order[i] in p.backends && !Expired(p.backends[p.order[i]], cfg, now)
    ensures var r := ExpireFrom(p, cfg, now, k);
            && Proper(r) && r.named == p.named && r.sequenceTop == p.sequenceTop
            && (s in r.backends <==> s in p.backends && !Expired(p.backends[s], cfg, now))
            && (s in r.backends ==> r.backends[s] == p.backends[s])
    decreases |p.order| - k
  {
    hide Expired;
    if k == |p.order| {
      if s in p.backends {
        var i :| 0 <= i < |p.order| && p.order[i] == s;
      }
    } else {
      ErasedProper(p, k);
      ExpireStep(p, cfg, now, k);
      hide Proper, ExpireFrom, Without;
      if Expired(p.backends[p.order[k]], cfg, now) {
        WithoutPrefix(p.order, k);
        ExpireFacts(Erased(p, k), cfg, now, k, s);
      } else {
        ExpireFacts(p, cfg, now, k + 1, s);
      }
    }
  }

  lemma WithoutPrefix(order: seq<Session>, k: nat)
    requires k < |order|
    ensures |Without(order, k)| == |order| - 1
    ensures forall i :: 0 <= i < |order| - 1 ==> Without(order, k)[i] == order[if i < k then i else i + 1]
  {
  }

  lemma ExpireStep(p: Pool, cfg: Config, now: int, k: nat)
    requires Proper(p) && k < |p.order| && p.order[k] in p.backends
    ensures Proper(Erased(p, k))
    ensures ExpireFrom(p, cfg, now, k) ==
            if Expired(p.backends[p.order[k]], cfg, now) then ExpireFrom(Erased(p, k), cfg, now, k) else ExpireFrom(p, cfg, now, k + 1)
  {
    WithoutDistinct(p.order, k);
  }

  /** The idle connection that was taken into use longest ago, for Scan (get_backend, lines 340-366). */
  function LeastRecent(p: Pool, k: nat): (r: Option<Session>)
    requires k <= |p.order| && Proper(p)
    ensures r.Some? ==> r.value in p.backends && !p.backends[r.value].inUse
    ensures r.Some? ==> forall i :: 0 <= i < k && !p.backends[p.order[i]].inUse ==>
              p.backends[r.value].sequenceThis <= p.backends[p.order[i]].sequenceThis
    ensures r.None? ==> forall i :: 0 <= i < k ==> p.backends[p.order[i]].inUse
  {
    assert forall i :: 0 <= i < |p.order| ==> p.order[i] in p.order;
    if k == 0 then None
    else
      var best, s := LeastRecent(p, k - 1), p.order[k - 1];
      if !p.backends[s].inUse && (best.None? || p.backends[s].sequenceThis < p.backends[best.value].sequenceThis)
      then Some(s) else best
  }

  // ---------- what the holder of a connection does to it without the mutex ----------

  function Touch(p: Pool, s: Session, now: int): Pool
    requires s in p.backends
  {
    p.(backends := p.backends[s := p.backends[s].(lastUse := now)])
  }

  function Push(p: Pool, s: Session, set_: BackendSet): Pool
    requires s in p.backends
  {
    p.(backends := p.backends[s := p.backends[s].(sets := p.backends[s].sets + [set_])])
  }

  function NameNew(p: Pool, s: Session): (SetId, Pool)
    requires s in p.backends
  {
    var (id, b) := Name(p.named, p.backends[s]);
    (id, p.(backends := p.backends[s := b]))
  }

  function IndexOfSet(sets: seq<BackendSet>, id: SetId): (i: nat)
    requires exists i :: 0 <= i < |sets| && sets[i].id == id
    ensures i < |sets| && sets[i].id == id
  {
    if sets[0].id == id then 0
    else
      assert exists i :: 0 <= i < |sets[1..]| && sets[1..][i].id == id by {
        var i :| 0 <= i < |sets| && sets[i].id == id;
        assert sets[1..][i - 1].id == id;
      }
      1 + IndexOfSet(sets[1..], id)
  }

  /** RecordCache.add: the records returned for start, start + 1, .. in the format asked for. */
  function Added(cache: map<CacheKey, Record>, start: int, format: Format, records: seq<Record>): (c: map<CacheKey, Record>)
  {
    if records == [] then cache
    else
      var n := |records| - 1;
      Added(cache, start, format, records[..n])[CacheKey(start + n, format) := records[n]]
  }

  lemma {:induction false} AddedFacts(cache: map<CacheKey, Record>, start: int, format: Format, records: seq<Record>, k: CacheKey)
    ensures var fresh_ := k.format == format && start <= k.position < start + |records|;
            var c := Added(cache, start, format, records);
            && (k in c <==> k in cache || fresh_)
            && (k in c ==> c[k] == if fresh_ then records[k.position - start] else cache[k])
  {
    if records != [] { AddedFacts(cache, start, format, records[..|records| - 1], k); }
  }

  /** RecordCache.lookup succeeds when every record asked for is there. */
  predicate Cached(cache: map<CacheKey, Record>, start: int, number: int, format: Format) {
    forall i :: start <= i < start + number ==> CacheKey(i, format) in cache
  }

  function FromCache(cache: map<CacheKey, Record>, start: int, number: nat, format: Format): (records: seq<Record>)
    requires Cached(cache, start, number, format)
    ensures |records| == number && forall i :: 0 <= i < number ==> records[i] == cache[CacheKey(start + i, format)]
  {
    seq(number, i requires 0 <= i < number => cache[CacheKey(start + i, format)])
  }
}
