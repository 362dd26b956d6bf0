/** The round-robin merge of a federated result set, src/filter_multi.cpp:298-382. */
module MultiMerge {
  import opened Slices

  /** One target's part of the result set; count is taken from its search response as it is. */
  datatype BackendSet = BackendSet(backend: nat, count: int)

  /** Record number pos of a target; start is where the Present request covering it begins. */
  datatype PresentJob = PresentJob(backend: nat, pos: int, start: int)

  /** The targets of one frontend are separate objects. */
  ghost predicate DistinctBackends(sets: seq<BackendSet>) {
    forall i, j :: 0 <= i < j < |sets| ==> sets[i].backend != sets[j].backend
  }

  // ---------- the merged order ----------

  function MaxCount(sets: seq<BackendSet>): (m: int)
    ensures m >= 0 && forall s :: s in sets ==> s.count <= m
  {
    if sets == [] then 0
    else
      var rest := MaxCount(sets[1..]);
      assert forall s :: s in sets ==> s == sets[0] || s in sets[1..];
      if sets[0].count > rest then sets[0].count else rest
  }

  /** The rest of the merged order when target k is next in the round that serves position x. */
  function From(sets: seq<BackendSet>, k: nat, x: int): (jobs: seq<PresentJob>)
    requires k <= |sets|
    decreases if x <= MaxCount(sets) then MaxCount(sets) - x + 1 else 0, |sets| - k
  {
    if k == |sets| then
      if x < MaxCount(sets) then From(sets, 0, x + 1) else []
    else if x <= sets[k].count then
      [PresentJob(sets[k].backend, x, 0)] + From(sets, k + 1, x)
    else
      From(sets, k + 1, x)
  }

  /** Every record of every target: all first records, then all second records, and so on. */
  function Merged(sets: seq<BackendSet>): (jobs: seq<PresentJob>) {
    From(sets, 0, 1)
  }

  lemma {:induction false} FromDead(sets: seq<BackendSet>, k: nat, x: int)
    requires k <= |sets|
    requires forall i :: k <= i < |sets| ==> sets[i].count < x
    requires k > 0 ==> MaxCount(sets) <= x || forall i :: 0 <= i < |sets| ==> sets[i].count < x + 1
    ensures From(sets, k, x) == []
    decreases if x <= MaxCount(sets) then MaxCount(sets) - x + 1 else 0, |sets| - k
  {
    if k < |sets| {
      if k == 0 {
        assert forall i :: 0 <= i < |sets| ==> sets[i].count < x + 1;
      }
      FromDead(sets, k + 1, x);
    } else if x < MaxCount(sets) {
      FromDead(sets, 0, x + 1);
    }
  }

  // ---------- the plain loop ----------

  /** What the loop still has to list: d records are to be passed over, then n taken. */
  function Rest(sets: seq<BackendSet>, k: nat, x: int, d: int, n: int): (jobs: seq<PresentJob>)
    requires k <= |sets|
  {
    Take(Drop(From(sets, k, x), d), n)
  }

  lemma RestStep(sets: seq<BackendSet>, k: nat, x: int, d: int, n: int)
    requires k < |sets| && n > 0
    ensures Rest(sets, k, x, d, n) ==
            if x > sets[k].count then Rest(sets, k + 1, x, d, n)
            else if d > 0 then Rest(sets, k + 1, x, d - 1, n)
            else [PresentJob(sets[k].backend, x, 0)] + Rest(sets, k + 1, x, d - 1, n - 1)
  {
    var tail := From(sets, k + 1, x);
    if x <= sets[k].count {
      assert From(sets, k, x) == [PresentJob(sets[k].backend, x, 0)] + tail;
    }
  }

  lemma RestNextRound(sets: seq<BackendSet>, x: int, d: int, n: int, more: bool)
    requires more ==> x <= MaxCount(sets)
    requires !more ==> forall i :: 0 <= i < |sets| ==> sets[i].count < x
    ensures Rest(sets, |sets|, x, d, n) == if more then Rest(sets, 0, x + 1, d, n) else []
  {
    if !more {
      FromDead(sets, |sets|, x);
    } else if x == MaxCount(sets) {
      FromDead(sets, 0, x + 1);
    }
  }

  /** Targets before k have been served in round x, the others have not; a target whose
      records are used up stays where it is. */
  ghost predicate Served(sets: seq<BackendSet>, pos: seq<int>, k: int, x: int) {
    && |pos| == |sets|
    && (forall i :: 0 <= i < k && i < |sets| ==> At(pos[i], sets[i].count, x + 1))
    && (forall i :: 0 <= i < |sets| && k <= i ==> At(pos[i], sets[i].count, x))
  }

  ghost predicate At(pos: int, count: int, x: int) {
    if x <= count then pos == x else pos > count
  }

  lemma ServedInitially(sets: seq<BackendSet>, pos: seq<int>, x: int)
    requires |pos| == |sets| && forall i :: 0 <= i < |pos| ==> pos[i] == x
    ensures Served(sets, pos, 0, x)
  {
  }

  lemma ServedRound(sets: seq<BackendSet>, pos: seq<int>, x: int)
    requires Served(sets, pos, |sets|, x)
    ensures Served(sets, pos, 0, x + 1)
  {
  }

  lemma RestEmpty(sets: seq<BackendSet>, k: nat, x: int, d: int, n: int)
    requires k <= |sets| && n <= 0
    ensures Rest(sets, k, x, d, n) == []
  {
  }

  lemma ServedStep(sets: seq<BackendSet>, pos: seq<int>, k: nat, x: int)
    requires k < |sets| == |pos| && Served(sets, pos, k, x)
    ensures (pos[k] <= sets[k].count) == (x <= sets[k].count)
    ensures x <= sets[k].count ==> pos[k] == x
    ensures Served(sets, if pos[k] <= sets[k].count then pos[k := pos[k] + 1] else pos, k + 1, x)
  {
    assert At(pos[k], sets[k].count, x);
  }

  lemma AppendOne<T>(s: seq<T>, x: T, rest: seq<T>)
    ensures s + ([x] + rest) == (s + [x]) + rest
  {
  }

  /** The merge loop, begun with every target at position x0 and p0 - 1 records counted as passed over. */
  method MergeLoop(sets: seq<BackendSet>, pos0: seq<int>, p0: int, start: int, number: int, ghost x0: int)
    returns (jobs: seq<PresentJob>)
    requires |pos0| == |sets| && forall i :: 0 <= i < |pos0| ==> pos0[i] == x0
    ensures jobs == Rest(sets, 0, x0, start - p0, number)
  {
    hide Rest, Served;
    var pos, p, fetched, more := pos0, p0, 0, true;
    jobs := [];
    ghost var x := x0;
    ghost var all := Rest(sets, 0, x0, start - p0, number);
    ServedInitially(sets, pos, x0);
    ghost var rest, d, n := all, start - p0, number;  // what is left, in terms of Rest
    while more
      invariant |pos| == |sets| && d == start - p && n == number - fetched
      invariant if more then Served(sets, pos, 0, x) && rest == Rest(sets, 0, x, d, n) && jobs + rest == all
                else jobs == all
      decreases if x <= MaxCount(sets) then MaxCount(sets) - x + 1 else 0, more
    {
      more := false;
      var k := 0;
      while k < |sets|
        invariant 0 <= k <= |sets| == |pos| && d == start - p && n == number - fetched
        invariant Served(sets, pos, k, x)
        invariant rest == Rest(sets, k, x, d, n) && jobs + rest == all
        invariant !more ==> forall i :: 0 <= i < k ==> sets[i].count < x
        invariant more ==> x <= MaxCount(sets)
      {
        if fetched >= number {
          RestEmpty(sets, k, x, d, n);
          more := false;
          break;
        }
        RestStep(sets, k, x, d, n);
        ServedStep(sets, pos, k, x);
        if pos[k] <= sets[k].count {
          assert sets[k] in sets;
          if p >= start {
            ghost var left := Rest(sets, k + 1, x, d - 1, n - 1);
            AppendOne(jobs, PresentJob(sets[k].backend, x, 0), left);
            jobs := jobs + [PresentJob(sets[k].backend, pos[k], 0)];
            rest, n := left, n - 1;
            fetched := fetched + 1;
          }
          pos := pos[k := pos[k] + 1];
          p := p + 1;
          d := d - 1;
          more := true;
        }
        k := k + 1;
      }
      if more {
        RestNextRound(sets, x, d, n, true);
        ServedRound(sets, pos, x);
        x := x + 1;
      } else if k == |sets| {
        RestNextRound(sets, x, d, n, false);
      }
    }
  }
}
