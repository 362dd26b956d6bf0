/** The serve-order merge: one target after the other, src/filter_multi.cpp:275-296. */
module ServeOrder {
  import opened Slices
  import opened MultiMerge

  /** The record at offset, counted from the first record of target k (nothing if there is none). */
  function Located(sets: seq<BackendSet>, k: nat, offset: int): (jobs: seq<PresentJob>)
    requires k <= |sets|
    decreases |sets| - k
  {
    if k == |sets| then []
    else if 0 <= offset < sets[k].count then [PresentJob(sets[k].backend, offset + 1, 0)]
    else Located(sets, k + 1, offset - sets[k].count)
  }

  /** What FrontendSet::serve_order lists for the first n of the requested numbers. */
  function ServeOrderJobs(sets: seq<BackendSet>, start: int, n: int): (jobs: seq<PresentJob>)
  {
    if n <= 0 then [] else ServeOrderJobs(sets, start, n - 1) + Located(sets, 0, start + n - 2)
  }

  method ServeOrder(sets: seq<BackendSet>, start: int, number: int) returns (jobs: seq<PresentJob>)
    ensures jobs == ServeOrderJobs(sets, start, number)
  {
    jobs := [];
    var i := 0;
    while i < number
      invariant 0 <= i && (i <= number || i == 0)
      invariant jobs == ServeOrderJobs(sets, start, i)
    {
      var voffset := 0;
      var offset := start + i - 1;
      var k := 0;
      ghost var before := jobs;
      while k < |sets|
        invariant 0 <= k <= |sets| && jobs == before
        invariant Located(sets, 0, offset) == Located(sets, k, offset - voffset)
      {
        if offset >= voffset && offset < voffset + sets[k].count {
          jobs := jobs + [PresentJob(sets[k].backend, offset - voffset + 1, 0)];
          break;
        }
        voffset := voffset + sets[k].count;
        k := k + 1;
      }
      i := i + 1;
    }
  }

  // ---------- the concatenation of the result sets ----------

  /** Records j, j + 1, .. n of one target. */
  function OneTarget(backend: nat, j: int, n: int): (jobs: seq<PresentJob>)
    ensures |jobs| == if j <= n then n - j + 1 else 0
    ensures forall i :: 0 <= i < |jobs| ==> jobs[i] == PresentJob(backend, j + i, 0)
    decreases n - j
  {
    if j > n then [] else [PresentJob(backend, j, 0)] + OneTarget(backend, j + 1, n)
  }

  /** All records of target k, then all records of the next, and so on. */
  function Concatenated(sets: seq<BackendSet>, k: nat): (jobs: seq<PresentJob>)
    requires k <= |sets|
    decreases |sets| - k
  {
    if k == |sets| then [] else OneTarget(sets[k].backend, 1, sets[k].count) + Concatenated(sets, k + 1)
  }

  /** A search response reports a count that is not negative. */
  ghost predicate ProperCounts(sets: seq<BackendSet>) {
    forall s :: s in sets ==> s.count >= 0
  }

  /** The elements numbered start .. start + n - 1; the first element of s has number 1. */
  function Numbered<T>(s: seq<T>, start: int, n: int): (r: seq<T>) {
    if start >= 1 then Page(s, start, n) else Page(s, 1, n + start - 1)
  }

  lemma {:induction false} LocatedIsElement(sets: seq<BackendSet>, k: nat, offset: int)
    requires ProperCounts(sets) && k <= |sets|
    ensures Located(sets, k, offset) ==
            if 0 <= offset < |Concatenated(sets, k)| then [Concatenated(sets, k)[offset]] else []
    decreases |sets| - k
  {
    if k < |sets| {
      assert sets[k] in sets;
      LocatedIsElement(sets, k + 1, offset - sets[k].count);
    }
  }

  lemma NumberedNext<T>(s: seq<T>, start: int, n: nat)
    ensures Numbered(s, start, n + 1) == Numbered(s, start, n) +
              if 0 <= start + n - 1 < |s| then [s[start + n - 1]] else []
  {
  }

  lemma NumberedNone<T>(s: seq<T>, start: int, n: int)
    requires n <= 0
    ensures Numbered(s, start, n) == []
  {
  }

  /** Serve order lists the numbered slice of the concatenated result sets. */
  lemma {:induction false} ServeOrderIsSlice(sets: seq<BackendSet>, start: int, n: int)
    requires ProperCounts(sets)
    ensures ServeOrderJobs(sets, start, n) == Numbered(Concatenated(sets, 0), start, n)
  {
    hide Numbered, Located, Concatenated;
    if n <= 0 {
      NumberedNone(Concatenated(sets, 0), start, n);
    } else {
      ServeOrderIsSlice(sets, start, n - 1);
      LocatedIsElement(sets, 0, start + n - 2);
      NumberedNext(Concatenated(sets, 0), start, n - 1);
    }
  }

  /** Within the concatenation, the records of one target stand in ascending order. */
  lemma {:induction false} ConcatenatedMember(sets: seq<BackendSet>, k: nat, i: nat) returns (t: nat)
    requires k <= |sets| && i < |Concatenated(sets, k)|
    ensures k <= t < |sets| && Concatenated(sets, k)[i].backend == sets[t].backend
    ensures 1 <= Concatenated(sets, k)[i].pos <= sets[t].count && Concatenated(sets, k)[i].start == 0
    decreases |sets| - k
  {
    var n := |OneTarget(sets[k].backend, 1, sets[k].count)|;
    if i < n { t := k; } else { t := ConcatenatedMember(sets, k + 1, i - n); }
  }
}
