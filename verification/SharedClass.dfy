/** The objects behind the pool and the regions that change them in place under the class's mutex,
    each proved to have the effect that SharedPool gives it. src/filter_session_shared.cpp. */
module SharedClass {
  import opened Databases
  import opened Rpn
  import opened SharedPool
  import opened Options

  /** A connection to the target. */
  class BackendInstance {
    const session: Session
    var inUse: bool
    var sets: seq<BackendSet>
    var sequenceThis: int
    var resultSetSequence: nat
    var lastUse: int

    constructor (session: Session, now: int)
      ensures this.session == session && Value() == Backend(true, [], 0, 0, now)
    {
      this.session, inUse, sets, sequenceThis, resultSetSequence, lastUse := session, true, [], 0, 0, now;
    }

    ghost function Value(): Backend
      reads this
    {
      Backend(inUse, sets, sequenceThis, resultSetSequence, lastUse)
    }
  }

  class BackendClass {
    var backendList: seq<BackendInstance>
    var named: bool
    var sequenceTop: int
    const cfg: Config
    ghost var pool: Pool  // what the fields stand for

    ghost predicate Valid()
      reads this, backendList
    {
      && Proper(pool) && pool.named == named && pool.sequenceTop == sequenceTop
      && |pool.order| == |backendList|
      && forall i :: 0 <= i < |backendList| ==> Shows(pool, pool.order[i], backendList[i])
    }

    /** The connection named s in the pool is the object b. */
    static ghost predicate Shows(p: Pool, s: Session, b: BackendInstance)
      reads b
    {
      s == b.session && s in p.backends && p.backends[s] == b.Value()
    }

    constructor (cfg: Config)
      ensures Valid() && pool == Pool([], map[], false, 0) && this.cfg == cfg
    {
      this.cfg, backendList, named, sequenceTop := cfg, [], false, 0;
      pool := Pool([], map[], false, 0);
    }

    lemma Distinct()
      requires Valid()
      ensures forall i, j :: 0 <= i < j < |backendList| ==> backendList[i].session != backendList[j].session
    {
      forall i, j | 0 <= i < j < |backendList| ensures backendList[i].session != backendList[j].session {
        assert Shows(pool, pool.order[i], backendList[i]) && Shows(pool, pool.order[j], backendList[j]);
      }
    }

    /** Valid holds again once the ghost value follows a change to connection b alone. */
    twostate lemma Changed(b: BackendInstance)
      requires old(Valid()) && b in backendList && backendList == old(backendList)
      requires forall i :: 0 <= i < |backendList| && backendList[i] != b ==> backendList[i].Value() == old(backendList[i].Value())
      requires pool == old(pool).(backends := old(pool).backends[b.session := b.Value()], named := named, sequenceTop := sequenceTop)
      ensures Valid() && b.session in old(pool).backends
    {
      var k :| 0 <= k < |backendList| && backendList[k] == b;
      assert old(Shows(pool, pool.order[k], backendList[k]));
      forall i | 0 <= i < |backendList| ensures Shows(pool, pool.order[i], backendList[i]) {
        var x := backendList[i];
        assert old(Shows(pool, pool.order[i], backendList[i]));
        if x != b {
          assert old(pool).order[i] != old(pool).order[k];
        }
      }
    }

    method UseBackend(b: BackendInstance)
      requires Valid() && b in backendList
      modifies this`sequenceTop, this`pool, b`inUse, b`sequenceThis
      ensures Valid() && b.session in old(pool).backends && pool == Use(old(pool), b.session)
    {
      hide Valid;
      At(b);
      b.inUse := true;
      b.sequenceThis := sequenceTop;
      sequenceTop := sequenceTop + 1;
      pool := Use(pool, b.session);
      Changed(b);
    }

    method ReleaseBackend(b: BackendInstance)
      requires Valid() && b in backendList
      modifies this`pool, b`inUse
      ensures Valid() && b.session in old(pool).backends && pool == Release(old(pool), b.session)
    {
      hide Valid;
      At(b);
      b.inUse := false;
      pool := Release(pool, b.session);
      Changed(b);
    }

    /** BackendInstance::timestamp, with its assertion. */
    method Timestamp(b: BackendInstance, now: int)
      requires Valid() && b in backendList && b.inUse
      modifies this`pool, b`lastUse
      ensures Valid() && b.session in old(pool).backends && pool == Touch(old(pool), b.session, now)
    {
      hide Valid;
      At(b);
      assert b.inUse;
      b.lastUse := now;
      pool := Touch(pool, b.session, now);
      Changed(b);
    }

    lemma At(b: BackendInstance)
      requires Valid() && b in backendList
      ensures Shows(pool, b.session, b) && pool.named == named && pool.sequenceTop == sequenceTop && Proper(pool)
    {
      var k :| 0 <= k < |backendList| && backendList[k] == b;
      assert Shows(pool, pool.order[k], backendList[k]);
    }

    lemma AtIndex(i: nat)
      requires Valid() && i < |backendList|
      ensures i < |pool.order| && pool.order[i] == backendList[i].session
      ensures Shows(pool, backendList[i].session, backendList[i])
    {
      assert Shows(pool, pool.order[i], backendList[i]);
    }

    /** The region of remove_backend: the search by identity and the erasure; a connection that is not
        in the list changes nothing. */
    method RemoveBackend(b: BackendInstance)
      requires Valid()
      modifies this`backendList, this`pool
      ensures Valid() && b !in backendList
      ensures if b in old(backendList) then pool == Remove(old(pool), b.session)
              else pool == old(pool) && backendList == old(backendList)
    {
      var it: nat := 0;
      while it < |backendList| && backendList[it] != b
        invariant it <= |backendList| && b !in backendList[..it]
      {
        it := it + 1;
      }
      if it == |backendList| {
        assert b !in backendList;
        return;
      }
      Distinct();
      AtIndex(it);
      IndexUnique(pool.order, it);
      Erase(it);
    }

    /** Erasing one element from the list. */
    method Erase(it: nat)
      requires Valid() && it < |backendList|
      modifies this`backendList, this`pool
      ensures Valid() && it < |old(pool).order|
      ensures pool == Erased(old(pool), it)
      ensures backendList == old(backendList)[..it] + old(backendList)[it + 1..]
    {
      hide Proper, Without, Shows, Erased;
      ErasedProper(pool, it);
      ghost var list, p := backendList, pool;
      backendList := backendList[..it] + backendList[it + 1..];
      pool := Erased(pool, it);
      forall i | 0 <= i < |backendList| ensures i < |pool.order| && Shows(pool, pool.order[i], backendList[i]) {
        ghost var k := if i < it then i else i + 1;
        assert list[k] == backendList[i];
        assert Shows(p, p.order[k], list[k]);
        ErasedShows(p, it, i, list[k]);
      }
      ErasedFields(p, it);
    }

    static lemma ErasedShows(p: Pool, it: nat, i: nat, b: BackendInstance)
      requires Proper(p) && it < |p.order| && i < |p.order| - 1
      requires Shows(p, p.order[if i < it then i else i + 1], b)
      ensures i < |Erased(p, it).order| && Shows(Erased(p, it), Erased(p, it).order[i], b)
    {
      WithoutPrefix(p.order, it);
    }

    static lemma ErasedFields(p: Pool, it: nat)
      requires it < |p.order|
      ensures |Erased(p, it).order| == |p.order| - 1 && Erased(p, it).named == p.named && Erased(p, it).sequenceTop == p.sequenceTop
    {
    }

    static lemma IndexUnique(order: seq<Session>, i: nat)
      requires i < |order| && forall k, j :: 0 <= k < j < |order| ==> order[k] != order[j]
      ensures Index(order, order[i]) == i
    {
    }

    /** The idle connection taken into use longest ago. */
    method FindIdle() returns (b: BackendInstance?)
      requires Valid()
      ensures var r := LeastRecent(pool, |pool.order|);
              (r.Some? <==> b != null) && (b != null ==> b.session == r.value && b in backendList)
    {
      b := null;
      for i := 0 to |backendList|
        invariant b != null ==> b in backendList
        invariant var r := LeastRecent(pool, i); (r.Some? <==> b != null) && (b != null ==> b.session == r.value)
      {
        AtIndex(i);
        if b != null { At(b); }
        if !backendList[i].inUse {
          if b == null || backendList[i].sequenceThis < b.sequenceThis {
            b := backendList[i];
          }
        }
      }
    }

    /** The region of get_backend. */
    method GetIdle() returns (b: BackendInstance?)
      requires Valid()
      modifies this`sequenceTop, this`pool, backendList
      ensures Valid() && backendList == old(backendList)
      ensures var r := LeastRecent(old(pool), |old(pool).order|);
              && (r.Some? <==> b != null) && (b != null ==> b.session == r.value && b in backendList)
              && pool == if r.Some? then Use(old(pool), r.value) else old(pool)
    {
      b := FindIdle();
      if b != null {
        UseBackend(b);
      }
    }

    // ---------- get_set ----------

    method SetFits(set_: BackendSet, want: Want) returns (r: bool)
      ensures r <==> Fits(set_, want)
    {
      r := Match(set_.databases, want.databases);
      r := r && want.query == set_.query && (!want.isSearch || want.info == set_.infoRequest);
    }

    /** The first fitting result set, connection by connection. */
    method FindMatch(want: Want) returns (b: BackendInstance?, j: nat)
      requires Valid()
      ensures var m := FirstMatch(pool, want, 0);
              && (m.Some? <==> b != null)
              && (b != null ==> b in backendList && m.value == (b.session, j))
    {
      hide Fits;
      b, j := null, 0;
      for i := 0 to |backendList|
        invariant i <= |pool.order| && FirstMatch(pool, want, 0) == FirstMatch(pool, want, i)
      {
        AtIndex(i);
        var sets := backendList[i].sets;
        j := 0;
        while j < |sets|
          invariant j <= |sets| && FirstFit(sets, want, 0) == FirstFit(sets, want, j)
        {
          var fits := SetFits(sets[j], want);
          if fits {
            b := backendList[i];
            return;
          }
          j := j + 1;
        }
      }
    }

    method MayEvict(set_: BackendSet, databases: seq<string>, out: bool, now: int) returns (r: bool)
      requires pool.named == named
      ensures r <==> Evictable(pool, cfg, set_, databases, out, now)
    {
      var maxSets := if named then cfg.setMax else 1;
      var same := Match(set_.databases, databases);
      r := (maxSets > 1 || same) && (out || now < set_.lastUse || now - set_.lastUse >= cfg.setTtl);
    }

    /** The first pass of override_set. */
    method FindVictim(databases: seq<string>, out: bool, now: int) returns (b: BackendInstance?, j: nat)
      requires Valid()
      ensures var v := Victim(pool, cfg, databases, out, now, 0);
              && (v.Some? <==> b != null)
              && (b != null ==> b in backendList && v.value == (b.session, j))
    {
      hide Evictable;
      b, j := null, 0;
      for i := 0 to |backendList|
        invariant i <= |pool.order| && Victim(pool, cfg, databases, out, now, 0) == Victim(pool, cfg, databases, out, now, i)
      {
        AtIndex(i);
        if !backendList[i].inUse {
          var sets := backendList[i].sets;
          j := 0;
          while j < |sets|
            invariant j <= |sets|
            invariant FirstEvictable(pool, cfg, sets, databases, out, now, 0) == FirstEvictable(pool, cfg, sets, databases, out, now, j)
          {
            var evict := MayEvict(sets[j], databases, out, now);
            if evict {
              b := backendList[i];
              return;
            }
            j := j + 1;
          }
        }
      }
    }

    /** The second pass of override_set. */
    method FindRoom() returns (b: BackendInstance?)
      requires Valid()
      ensures var r := Roomy(pool, cfg, 0);
              && (r.Some? <==> b != null)
              && (b != null ==> b in backendList && r.value == b.session)
    {
      b := null;
      for i := 0 to |backendList|
        invariant i <= |pool.order| && Roomy(pool, cfg, 0) == Roomy(pool, cfg, i)
      {
        AtIndex(i);
        var maxSets := if named then cfg.setMax else 1;
        if !backendList[i].inUse && |backendList[i].sets| < maxSets {
          return backendList[i];
        }
      }
    }

    /** A result set name at b: the next number, or "default". */
    method NameAt(b: BackendInstance) returns (id: SetId)
      requires Valid() && b in backendList
      modifies this`pool, b`resultSetSequence
      ensures Valid() && b.session in old(pool).backends && (id, pool) == NameNew(old(pool), b.session)
    {
      hide Valid;
      At(b);
      if named {
        id := Numbered(b.resultSetSequence);
        b.resultSetSequence := b.resultSetSequence + 1;
      } else {
        id := DefaultId;
      }
      pool := NameNew(pool, b.session).1;
      Changed(b);
    }

    method EraseSet(b: BackendInstance, j: nat)
      requires Valid() && b in backendList && j < |b.sets|
      modifies this`pool, b`sets
      ensures Valid() && b.session in old(pool).backends && old(pool).backends[b.session].sets == old(b.sets)
      ensures pool == old(pool).(backends := old(pool).backends[b.session := old(pool).backends[b.session].(sets := Without(old(b.sets), j))])
    {
      hide Valid;
      At(b);
      b.sets := b.sets[..j] + b.sets[j + 1..];
      pool := pool.(backends := pool.backends[b.session := b.Value()]);
      Changed(b);
    }

    /** override_set, then use_backend when a place was found. */
    method OverrideSet(databases: seq<string>, out: bool, now: int) returns (place: Place, b: BackendInstance?)
      requires Valid()
      modifies this`sequenceTop, this`pool, backendList
      ensures Valid() && backendList == old(backendList) && named == old(named)
      ensures (place, pool) == Override(old(pool), cfg, databases, out, now)
      ensures (place.At? <==> b != null) && (b != null ==> b in backendList && b.session == place.session)
    {
      hide Valid, Victim, Roomy, Without;
      PoolIsProper();
      var j;
      b, j := FindVictim(databases, out, now);
      if b != null {
        At(b);
        place := Place.At(b.session, b.sets[j].id);
        EraseSet(b, j);
        UseBackend(b);
      } else {
        b := FindRoom();
        if b == null {
          place := NoPlace;
        } else {
          At(b);
          var id := NameAt(b);
          place := Place.At(b.session, id);
          UseBackend(b);
        }
      }
    }

    lemma Lengths()
      requires Valid()
      ensures |pool.order| == |backendList|
    {
    }

    lemma PoolIsProper()
      requires Valid()
      ensures Proper(pool)
    {
    }

    /** The region of get_set up to waiting for a connection or leaving it. */
    method TryGetSet(want: Want, out: bool, now: int) returns (looked: Looked, b: BackendInstance?)
      requires Valid()
      modifies this`sequenceTop, this`pool, backendList
      ensures Valid() && backendList == old(backendList)
      ensures (looked, pool) == Look(old(pool), cfg, want, out, now)
      ensures looked.Reuse? || looked.Search? ==> b != null && b in backendList && b.session == looked.session
    {
      hide Valid, FirstMatch, Override;
      PoolIsProper();
      b := null;
      var j := 0;
      if cfg.optimize {
        b, j := FindMatch(want);
      }
      if b != null {
        At(b);
        if b.inUse {
          looked := Wait(b.session);
        } else {
          looked := Reuse(b.session, b.sets[j].id);
          UseBackend(b);
        }
      } else {
        var place;
        place, b := OverrideSet(want.databases, out, now);
        looked := if place.At? then Search(place.session, place.id) else Nothing;
      }
    }

    // ---------- the rest ----------

    /** The region of create_backend after the target's answer. */
    method CreateBackend(session: Session, got: bool, offersNamed: bool, accepted: bool, now: int) returns (b: BackendInstance?)
      requires Valid() && session !in pool.order
      modifies this`backendList, this`named, this`pool
      ensures Valid() && pool == Create(old(pool), session, got, offersNamed, accepted, now)
      ensures (b != null <==> got && accepted) && (b != null ==> fresh(b) && b.session == session && b in backendList)
    {
      b := null;
      named := false;
      if got {
        named := offersNamed;
        if accepted {
          b := new BackendInstance(session, now);
          backendList := backendList + [b];
        }
      }
      pool := Create(pool, session, got, offersNamed, accepted, now);
      forall i | 0 <= i < |backendList| ensures Shows(pool, pool.order[i], backendList[i]) {
        if i < |old(backendList)| { assert old(Shows(pool, pool.order[i], backendList[i])); }
      }
    }

    /** expire_instances; true when no connection is left. */
    method ExpireInstances(now: int) returns (empty: bool)
      requires Valid()
      modifies this`backendList, this`pool
      ensures Valid() && Proper(old(pool)) && pool == Expire(old(pool), cfg, now)
      ensures empty <==> pool.order == []
    {
      hide Valid, Erased, ExpireFrom;
      PoolIsProper();
      Lengths();
      ghost var p0 := pool;
      var i := 0;
      while i < |backendList|
        invariant Valid() && Proper(pool) && 0 <= i <= |backendList| == |pool.order|
        invariant ExpireFrom(p0, cfg, now, 0) == ExpireFrom(pool, cfg, now, i)
        decreases |backendList| - i
      {
        AtIndex(i);
        SharedPool.ExpireStep(pool, cfg, now, i);
        var b := backendList[i];
        if b.inUse {
          i := i + 1;
        } else if now < b.lastUse || now - b.lastUse > cfg.expiryTtl {
          Erase(i);
        } else {
          i := i + 1;
        }
        PoolIsProper();
        Lengths();
      }
      ExpireEnd(pool, cfg, now);
      empty := |backendList| == 0;
    }

    static lemma ExpireEnd(p: Pool, cfg: Config, now: int)
      requires Proper(p)
      ensures ExpireFrom(p, cfg, now, |p.order|) == p
    {
    }

    // ---------- what the holder of a connection does to it ----------

    /** The result set of a successful search joins those of its connection. */
    method PushSet(b: BackendInstance, set_: BackendSet)
      requires Valid() && b in backendList
      modifies this`pool, b`sets
      ensures Valid() && b.session in old(pool).backends && pool == Push(old(pool), b.session, set_)
    {
      hide Valid;
      At(b);
      b.sets := b.sets + [set_];
      pool := Push(pool, b.session, set_);
      Changed(b);
    }

    static lemma AddedNone(cache: map<CacheKey, Record>, start: int, format: Format, records: seq<Record>)
      ensures Added(cache, start, format, records[..0]) == cache
    {
    }

    static lemma AddedNext(cache: map<CacheKey, Record>, start: int, format: Format, records: seq<Record>, i: nat)
      requires i < |records|
      ensures Added(cache, start, format, records[..i + 1]) ==
              Added(cache, start, format, records[..i])[CacheKey(start + i, format) := records[i]]
    {
      assert records[..i + 1][..i] == records[..i];
    }

    /** RecordCache.add, record by record. */
    method AddRecords(cache: map<CacheKey, Record>, start: int, format: Format, records: seq<Record>) returns (c: map<CacheKey, Record>)
      ensures c == Added(cache, start, format, records)
    {
      hide Added;
      AddedNone(cache, start, format, records);
      c := cache;
      for i := 0 to |records|
        invariant c == Added(cache, start, format, records[..i])
      {
        AddedNext(cache, start, format, records, i);
        c := c[CacheKey(start + i, format) := records[i]];
      }
      assert records[..|records|] == records;
    }

    /** Records returned by the target go into the cache of the i-th result set. */
    method CacheRecords(b: BackendInstance, i: nat, start: int, format: Format, records: seq<Record>)
      requires Valid() && b in backendList && i < |b.sets|
      modifies this`pool, b`sets
      ensures Valid() && b.session in old(pool).backends && old(pool).backends[b.session].sets == old(b.sets)
      ensures pool == old(pool).(backends := old(pool).backends[b.session := old(pool).backends[b.session].(
                sets := old(b.sets)[i := old(b.sets)[i].(cache := Added(old(b.sets)[i].cache, start, format, records))])])
    {
      hide Valid, Added;
      At(b);
      var cache := AddRecords(b.sets[i].cache, start, format, records);
      b.sets := b.sets[i := b.sets[i].(cache := cache)];
      pool := pool.(backends := pool.backends[b.session := b.Value()]);
      Changed(b);
    }
  }
}
