/** The skip-ahead in front of the merge loop, src/filter_multi.cpp:308-350, and exactly when it is right. */
module SkipAhead {
  import opened Slices
  import opened MultiMerge
  import opened MergedOrder

  /** Integer division as in C++: it rounds toward zero. */
  function TruncDiv(a: int, b: int): (q: int)
    requires b > 0
    ensures a >= 0 ==> 0 <= a - b * q < b && q >= 0
    ensures a <= 0 ==> 0 <= b * q - a < b && q <= 0
  {
    if a >= 0 then a / b else -((-a) / b)
  }

  /** The least count above omin. */
  function MinAbove(sets: seq<BackendSet>, omin: int): (min: int)
    requires NoLeft(sets, omin) > 0
    ensures min > omin && (exists s :: s in sets && s.count == min)
    ensures forall s :: s in sets && s.count > omin ==> s.count >= min
  {
    var n := |sets| - 1;
    var last := sets[n];
    assert forall s :: s in sets <==> s == last || s in sets[..n];
    if NoLeft(sets[..n], omin) == 0 then last.count
    else
      var min := MinAbove(sets[..n], omin);
      if last.count > omin && last.count < min then last.count else min
  }

  /** Where the skip block leaves the position counter of every target (x) and the count p of
      records it takes to be passed over, plus one. */
  function Skip(sets: seq<BackendSet>, start: int, p: int, x: int, omin: int): (r: (int, int))
    decreases NoLeft(sets, omin)
  {
    var n := NoLeft(sets, omin);
    if n == 0 then (x, p)
    else
      var min := MinAbove(sets, omin);
      if p + n * min > start then
        var q := TruncDiv(start - p, n);
        (x + q, p + n * q)
      else
        NoLeftDrops(sets, omin);
        Skip(sets, start, p + n * min, x + min, min)
  }

  lemma {:induction false} NoLeftDrops(sets: seq<BackendSet>, omin: int)
    requires NoLeft(sets, omin) > 0
    ensures NoLeft(sets, MinAbove(sets, omin)) < NoLeft(sets, omin)
  {
    var min := MinAbove(sets, omin);
    var s :| s in sets && s.count == min;
    NoLeftStrict(sets, omin, min, s);
  }

  lemma {:induction false} NoLeftStrict(sets: seq<BackendSet>, y: int, z: int, s: BackendSet)
    requires s in sets && y < s.count <= z
    ensures NoLeft(sets, z) < NoLeft(sets, y)
  {
    var n := |sets| - 1;
    NoLeftMonotone(sets[..n], y, z);
    if sets[n] != s {
      assert s in sets[..n];
      NoLeftStrict(sets[..n], y, z, s);
    }
  }

  /** What the whole of FrontendSet::round_robin lists. */
  function RoundRobinJobs(sets: seq<BackendSet>, start: int, number: int): (jobs: seq<PresentJob>)
  {
    var (x, p) := Skip(sets, start, 1, 1, 0);
    Rest(sets, 0, x, start - p, number)
  }

  lemma SkipCases(sets: seq<BackendSet>, start: int, p: int, x: int, omin: int, min: int, n: nat, skip: int)
    requires n == NoLeft(sets, omin) && (n > 0 ==> min == MinAbove(sets, omin)) && skip == n * min
    ensures n == 0 ==> Skip(sets, start, p, x, omin) == (x, p)
    ensures n > 0 && p + skip > start ==>
            var q := TruncDiv(start - p, n);
            Skip(sets, start, p, x, omin) == (x + q, p + n * q)
    ensures n > 0 && p + skip <= start ==> Skip(sets, start, p, x, omin) == Skip(sets, start, p + skip, x + min, min)
  {
    hide MinAbove, NoLeft, TruncDiv;
  }

  /** The search for the next class of counts, lines 313-323. */
  method NextClass(sets: seq<BackendSet>, omin: int) returns (min: int, noLeft: nat)
    ensures noLeft == NoLeft(sets, omin)
    ensures noLeft > 0 ==> min == MinAbove(sets, omin)
  {
    min, noLeft := 0, 0;
    for i := 0 to |sets|
      invariant noLeft == NoLeft(sets[..i], omin)
      invariant noLeft > 0 ==> min == MinAbove(sets[..i], omin)
    {
      assert sets[..i + 1][..i] == sets[..i];
      if sets[i].count > omin {
        if noLeft == 0 || sets[i].count < min {
          min := sets[i].count;
        }
        noLeft := noLeft + 1;
      }
    }
    assert sets[..|sets|] == sets;
  }

  method Advance(pos: seq<int>, delta: int, ghost x: int) returns (r: seq<int>)
    requires forall i :: 0 <= i < |pos| ==> pos[i] == x
    ensures |r| == |pos| && forall i :: 0 <= i < |r| ==> r[i] == x + delta
  {
    r := seq(|pos|, i requires 0 <= i < |pos| => pos[i] + delta);
  }

  /** The optimization block: moves every target's position counter on without listing anything. */
  method SkipBlock(sets: seq<BackendSet>, start: int) returns (pos: seq<int>, p: int, ghost x: int)
    ensures (x, p) == Skip(sets, start, 1, 1, 0)
    ensures |pos| == |sets| && forall i :: 0 <= i < |pos| ==> pos[i] == x
  {
    hide Skip;
    pos, p, x := seq(|sets|, i => 1), 1, 1;
    var omin := 0;
    ghost var goal := Skip(sets, start, p, x, omin);
    while true
      invariant |pos| == |sets| && forall i :: 0 <= i < |pos| ==> pos[i] == x
      invariant goal == Skip(sets, start, p, x, omin)
      decreases NoLeft(sets, omin)
    {
      var min, noLeft := NextClass(sets, omin);
      var skip := noLeft * min;
      SkipCases(sets, start, p, x, omin, min, noLeft, skip);
      if noLeft == 0 {
        break;
      }
      if p + skip > start {
        min := TruncDiv(start - p, noLeft);
        p := p + noLeft * min;
        pos := Advance(pos, min, x);
        x := x + min;
        break;
      }
      NoLeftDrops(sets, omin);
      p := p + skip;
      pos := Advance(pos, min, x);
      x := x + min;
      omin := min;
    }
  }

  method RoundRobin(sets: seq<BackendSet>, start: int, number: int) returns (jobs: seq<PresentJob>)
    ensures jobs == RoundRobinJobs(sets, start, number)
  {
    ghost var x;
    var pos, p;
    pos, p, x := SkipBlock(sets, start);
    jobs := MergeLoop(sets, pos, p, start, number, x);
  }
}
