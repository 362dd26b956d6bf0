/** When the skip-ahead of round_robin lists the same page as the plain loop begun at the first record. */
module SkipAheadExact {
  import opened Slices
  import opened MultiMerge
  import opened MergedOrder
  import opened SkipAhead

  // ---------- growth of Passed ----------

  lemma {:induction false} NoLeftConstant(sets: seq<BackendSet>, omin: int, y: int)
    requires NoLeft(sets, omin) > 0 && omin <= y < MinAbove(sets, omin)
    ensures NoLeft(sets, y) == NoLeft(sets, omin)
  {
    var init := sets[..|sets| - 1];
    if NoLeft(init, omin) > 0 {
      NoLeftConstant(init, omin, y);
    } else {
      NoLeftMonotone(init, omin, y);
    }
  }

  lemma RoundBound(sets: seq<BackendSet>, omin: int, y: int)
    requires omin <= y
    ensures NoLeft(sets, y) <= NoLeft(sets, omin)
    ensures NoLeft(sets, omin) > 0 ==>
            (NoLeft(sets, y) == NoLeft(sets, omin) <==> y < MinAbove(sets, omin))
  {
    hide NoLeft, MinAbove;
    NoLeftMonotone(sets, omin, y);
    if NoLeft(sets, omin) > 0 {
      if y < MinAbove(sets, omin) {
        NoLeftConstant(sets, omin, y);
      } else {
        NoLeftDrops(sets, omin);
        NoLeftMonotone(sets, MinAbove(sets, omin), y);
      }
    }
  }

  /** From position y to z at most the targets with more than omin records contribute, one record
      a position; all of them do as far as the smallest of their counts, and never beyond it. */
  lemma {:induction false} PassedGrowth(sets: seq<BackendSet>, omin: nat, y: nat, z: nat)
    requires omin <= y <= z
    ensures Passed(sets, z) - Passed(sets, y) <= NoLeft(sets, omin) * (z - y)
    ensures NoLeft(sets, omin) > 0 && y < z ==>
            (Passed(sets, z) - Passed(sets, y) == NoLeft(sets, omin) * (z - y) <==> z <= MinAbove(sets, omin))
  {
    hide NoLeft, MinAbove;
    if y < z {
      PassedGrowth(sets, omin, y, z - 1);
      RoundBound(sets, omin, z - 1);
      assert NoLeft(sets, omin) * (z - y) == NoLeft(sets, omin) * (z - 1 - y) + NoLeft(sets, omin);
    }
  }

  lemma {:induction false} PassedSaturates(sets: seq<BackendSet>, y: nat, z: nat)
    requires NoLeft(sets, y) == 0 && y <= z
    ensures Passed(sets, z) == |Merged(sets)|
  {
    NoLeftMonotone(sets, y, z);
    PassedAll(sets, z);
  }

  // ---------- what the skip block does to the page ----------

  /** By how much the skip block overstates the number of records it has passed over. */
  function Overshoot(sets: seq<BackendSet>, start: int): (d: int)
  {
    var (x, p) := Skip(sets, start, 1, 1, 0);
    p - 1 - if x >= 1 then Passed(sets, x - 1) else 0
  }

  /** The record the page really begins with. */
  function EffectiveStart(sets: seq<BackendSet>, start: int): int {
    start - Overshoot(sets, start)
  }

  /** Once there is an overshoot, later steps do not make it smaller. */
  lemma {:induction false} SkipTail(sets: seq<BackendSet>, start: int, p: int, x: int, omin: nat)
    requires omin <= x - 1 && Passed(sets, x - 1) <= p - 1 && p <= start
    ensures var (x', p') := Skip(sets, start, p, x, omin);
            x <= x' && p' <= start && p' - 1 - Passed(sets, x' - 1) >= p - 1 - Passed(sets, x - 1)
    decreases NoLeft(sets, omin)
  {
    hide Skip, TruncDiv, NoLeft, MinAbove;
    var n := NoLeft(sets, omin);
    if n == 0 {
      SkipCases(sets, start, p, x, omin, 0, n, 0);
    } else {
      var min := MinAbove(sets, omin);
      var skip := n * min;
      SkipCases(sets, start, p, x, omin, min, n, skip);
      if p + skip > start {
        PassedGrowth(sets, omin, x - 1, x - 1 + TruncDiv(start - p, n));
      } else {
        PassedGrowth(sets, omin, x - 1, x - 1 + min);
        NoLeftDrops(sets, omin);
        SkipTail(sets, start, p + skip, x + min, min);
      }
    }
  }

  /** For every start from 1 on, the code lists the page that begins at EffectiveStart. */
  lemma RoundRobinIsEffectivePage(sets: seq<BackendSet>, start: int, number: int)
    requires start >= 1
    ensures 1 <= EffectiveStart(sets, start) <= start
    ensures RoundRobinJobs(sets, start, number) == Page(Merged(sets), EffectiveStart(sets, start), number)
  {
    hide Skip, Merged, From, Take, Drop, Page;
    SkipTail(sets, start, 1, 1, 0);
    var (x, p) := Skip(sets, start, 1, 1, 0);
    FromIsSuffix(sets, x - 1);
    SuffixPage(Merged(sets), Passed(sets, x - 1), start - p, number);
  }

  /** The last start for which the second step of the skip block, which moves on by a whole count
      instead of the difference to the previous one, still lands on the right record: the records of
      the first two classes of counts and one more round of the second class. */
  function LastExactStart(sets: seq<BackendSet>): (last: int)
    requires NoLeft(sets, 0) > 0 && NoLeft(sets, MinAbove(sets, 0)) > 0
  {
    var v1 := MinAbove(sets, 0);
    var v2 := MinAbove(sets, v1);
    NoLeft(sets, 0) * v1 + NoLeft(sets, v1) * (v2 - v1 + 1)
  }

  predicate SkipExact(sets: seq<BackendSet>, start: int) {
    NoLeft(sets, 0) > 0 && NoLeft(sets, MinAbove(sets, 0)) > 0 ==> start <= LastExactStart(sets)
  }

  /** The page begins inside the second step: q whole rounds of n2 targets are taken at once. */
  lemma InsideSecondStep(sets: seq<BackendSet>, start: int, v1: nat, p: int, n2: int, v2: int, q: nat, last: int)
    requires n2 == NoLeft(sets, v1) > 0 && v2 == MinAbove(sets, v1) && last == p - 1 + n2 * (v2 - v1 + 1)
    requires 0 <= start - p - n2 * q < n2 && Passed(sets, v1) == p - 1
    ensures p + n2 * q - 1 == Passed(sets, v1 + q) <==> start <= last
    ensures start > last ==> v1 + q >= v2
  {
    hide NoLeft, MinAbove, Passed;
    PassedGrowth(sets, v1, v1, v1 + q);
    if q <= v2 - v1 {
      MulMonotone(n2, q + 1, v2 - v1 + 1);
    } else {
      MulMonotone(n2, v2 - v1 + 1, q);
    }
  }

  /** The second step of the skip block, the first that can go wrong. */
  lemma SecondStep(sets: seq<BackendSet>, start: int, v1: nat, p: int)
    requires NoLeft(sets, 0) > 0 && v1 == MinAbove(sets, 0) && NoLeft(sets, v1) > 0
    requires p == 1 + NoLeft(sets, 0) * v1 <= start && Passed(sets, v1) == p - 1
    ensures var (x', p') := Skip(sets, start, p, v1 + 1, v1);
            && x' >= 1 && p' <= start
            && (p' - 1 == Passed(sets, x' - 1) <==> start <= LastExactStart(sets))
            && (start > LastExactStart(sets) ==> x' - 1 >= MinAbove(sets, v1))
  {
    hide Skip, TruncDiv, NoLeft, MinAbove, Passed;
    var n2, v2, last := NoLeft(sets, v1), MinAbove(sets, v1), LastExactStart(sets);
    var skip := n2 * v2;
    SkipTail(sets, start, p, v1 + 1, v1);
    SkipCases(sets, start, p, v1 + 1, v1, v2, n2, skip);
    if p + skip > start {
      InsideSecondStep(sets, start, v1, p, n2, v2, TruncDiv(start - p, n2), last);
    } else {
      PassedGrowth(sets, v1, v1, v1 + v2);
      NoLeftDrops(sets, v1);
      SkipTail(sets, start, p + skip, v1 + 1 + v2, v2);
      MulMonotone(n2, v2 - v1 + 1, v2);
    }
  }

  lemma MulMonotone(n: nat, a: int, b: int)
    requires a <= b
    ensures n * a <= n * b
  {
  }

  /** The skip block counts exactly if and only if start is at most LastExactStart. */
  lemma OvershootZero(sets: seq<BackendSet>, start: int)
    requires start >= 1
    ensures Overshoot(sets, start) == 0 <==> SkipExact(sets, start)
    ensures !SkipExact(sets, start) ==>
            Skip(sets, start, 1, 1, 0).0 - 1 >= MinAbove(sets, MinAbove(sets, 0)) && Skip(sets, start, 1, 1, 0).1 <= start
  {
    hide Skip, TruncDiv, NoLeft, MinAbove;
    var n1 := NoLeft(sets, 0);
    if n1 == 0 {
      SkipCases(sets, start, 1, 1, 0, 0, n1, 0);
    } else {
      var v1 := MinAbove(sets, 0);
      var skip := n1 * v1;
      SkipCases(sets, start, 1, 1, 0, v1, n1, skip);
      if 1 + skip > start {
        var q := TruncDiv(start - 1, n1);
        if q >= v1 { MulMonotone(n1, v1, q); }
        PassedGrowth(sets, 0, 0, q);
        if NoLeft(sets, v1) > 0 { MulMonotone(NoLeft(sets, v1), 0, MinAbove(sets, v1) - v1 + 1); }
      } else {
        PassedGrowth(sets, 0, 0, v1);
        NoLeftDrops(sets, 0);
        if NoLeft(sets, v1) > 0 {
          SecondStep(sets, start, v1, 1 + skip);
        } else {
          SkipCases(sets, start, 1 + skip, 1 + v1, v1, 0, 0, 0);
        }
      }
    }
  }

  // ---------- where the skip block lands, from the counts alone ----------

  /** Some target has exactly c records. */
  predicate IsClass(sets: seq<BackendSet>, c: int) {
    exists s :: s in sets && s.count == c
  }

  /** For every count c from 1 to w that some target has, c records of each target with at least c:
      what the skip block adds to the number of records passed over. */
  function ClassTotal(sets: seq<BackendSet>, w: nat): (n: nat) {
    if w == 0 then 0 else ClassTotal(sets, w - 1) + if IsClass(sets, w) then w * NoLeft(sets, w - 1) else 0
  }

  /** The sum of these counts: what it adds to the position of every target. */
  function ClassSpan(sets: seq<BackendSet>, w: nat): (n: nat) {
    if w == 0 then 0 else ClassSpan(sets, w - 1) + if IsClass(sets, w) then w else 0
  }

  /** The greatest v up to w whose ClassTotal lies before start, or 0. */
  function Reached(sets: seq<BackendSet>, start: int, w: nat): (v: nat)
    ensures v <= w && (v == 0 || ClassTotal(sets, v) < start)
    ensures forall u :: v < u <= w ==> ClassTotal(sets, u) >= start
  {
    if w == 0 || ClassTotal(sets, w) < start then w else Reached(sets, start, w - 1)
  }

  /** The position of every target, and the number of records taken to be passed over, where the skip
      block stops: whole classes first, then whole rounds of the targets that are left. */
  function Landing(sets: seq<BackendSet>, start: int): (r: (nat, nat))
    requires start >= 1
  {
    var w := Reached(sets, start, MaxCount(sets));
    var n, left := NoLeft(sets, w), start - 1 - ClassTotal(sets, w);
    assert ClassTotal(sets, 0) == 0;
    if n == 0 then (ClassSpan(sets, w), ClassTotal(sets, w))
    else
      DivideRest(left, n);
      (ClassSpan(sets, w) + left / n, ClassTotal(sets, w) + n * (left / n))
  }

  lemma DivideRest(left: nat, n: nat)
    requires n > 0
    ensures left / n >= 0 && n * (left / n) >= 0
  {
  }

  /** How many records are listed that come before the one asked for: those counted as passed over
      less those at the positions passed over. */
  function Surplus(sets: seq<BackendSet>, start: int): int
    requires start >= 1
  {
    var (y, passed) := Landing(sets, start);
    passed - Within(sets, y)
  }

  /** Between two counts nothing changes. */
  lemma {:induction false} BetweenClasses(sets: seq<BackendSet>, v: nat, w: nat)
    requires v <= w && forall s :: s in sets && s.count > v ==> s.count > w
    ensures ClassTotal(sets, w) == ClassTotal(sets, v) && ClassSpan(sets, w) == ClassSpan(sets, v)
    ensures NoLeft(sets, w) == NoLeft(sets, v)
  {
    hide NoLeft;
    if v < w {
      BetweenClasses(sets, v, w - 1);
      assert !IsClass(sets, w);
      NoLeftSame(sets, v, w);
    }
  }

  lemma {:induction false} NoLeftSame(sets: seq<BackendSet>, v: int, w: int)
    requires v <= w && forall s :: s in sets && s.count > v ==> s.count > w
    ensures NoLeft(sets, w) == NoLeft(sets, v)
  {
    if sets != [] {
      assert sets[|sets| - 1] in sets;
      NoLeftSame(sets[..|sets| - 1], v, w);
    }
  }

  lemma {:induction false} ClassTotalMonotone(sets: seq<BackendSet>, v: nat, w: nat)
    requires v <= w
    ensures ClassTotal(sets, v) <= ClassTotal(sets, w)
  {
    hide NoLeft, IsClass;
    if v < w {
      ClassTotalMonotone(sets, v, w - 1);
      MulMonotone(w, 0, NoLeft(sets, w - 1));
    }
  }

  /** One class on: the step of the skip block. */
  lemma NextClassTotal(sets: seq<BackendSet>, omin: nat)
    requires NoLeft(sets, omin) > 0
    ensures var min := MinAbove(sets, omin);
            && ClassTotal(sets, min) == ClassTotal(sets, omin) + NoLeft(sets, omin) * min
            && ClassSpan(sets, min) == ClassSpan(sets, omin) + min
            && min <= MaxCount(sets)
  {
    hide NoLeft, MinAbove, ClassTotal, ClassSpan, MaxCount;
    var min := MinAbove(sets, omin);
    assert IsClass(sets, min);
    BetweenClasses(sets, omin, min - 1);
    ClassUnfold(sets, min);
    Commute(min, NoLeft(sets, omin));
  }

  lemma ClassUnfold(sets: seq<BackendSet>, w: nat)
    requires w > 0 && IsClass(sets, w)
    ensures ClassTotal(sets, w) == ClassTotal(sets, w - 1) + w * NoLeft(sets, w - 1)
    ensures ClassSpan(sets, w) == ClassSpan(sets, w - 1) + w
  {
    hide IsClass;
  }

  lemma Commute(a: int, b: int)
    ensures a * b == b * a
  {
  }

  /** The skip block stops at Landing. */
  lemma {:induction false} SkipLands(sets: seq<BackendSet>, start: int, omin: nat)
    requires start >= 1 && omin <= MaxCount(sets) && ClassTotal(sets, omin) < start
    ensures var (y, passed) := Landing(sets, start);
            Skip(sets, start, 1 + ClassTotal(sets, omin), 1 + ClassSpan(sets, omin), omin) == (1 + y, 1 + passed)
    decreases NoLeft(sets, omin)
  {
    hide Skip, TruncDiv, NoLeft, MinAbove, ClassTotal, ClassSpan, MaxCount, Reached;
    var n, p, x, top := NoLeft(sets, omin), 1 + ClassTotal(sets, omin), 1 + ClassSpan(sets, omin), MaxCount(sets);
    var w := Reached(sets, start, top);
    if n == 0 {
      SkipCases(sets, start, p, x, omin, 0, n, 0);
      BetweenClasses(sets, omin, top);
      assert w == top;
    } else {
      var min := MinAbove(sets, omin);
      NextClassTotal(sets, omin);
      SkipCases(sets, start, p, x, omin, min, n, n * min);
      if p + n * min > start {
        if w >= min { ClassTotalMonotone(sets, min, w); }
        assert omin <= w < min;
        BetweenClasses(sets, omin, w);
        DivideUnique(start - p, n);
      } else {
        NoLeftDrops(sets, omin);
        SkipLands(sets, start, min);
      }
    }
  }

  lemma DivideUnique(a: nat, n: nat)
    requires n > 0
    ensures TruncDiv(a, n) == a / n
  {
  }

  lemma OvershootIsSurplus(sets: seq<BackendSet>, start: int)
    requires start >= 1
    ensures Overshoot(sets, start) == Surplus(sets, start)
  {
    hide Skip, Landing, MaxCount;
    assert ClassTotal(sets, 0) == 0 && ClassSpan(sets, 0) == 0;
    SkipLands(sets, start, 0);
    PassedIsSum(sets, Landing(sets, start).0);
  }

  // ---------- main results ----------

  /** When the skip-ahead is right. Below 1 the division rounds toward zero, so that the positions
      stay at 1 for as long as start is within one round of 1. From 1 on, it is right up to the bound
      of the first two classes, and where even Surplus records back there is nothing left to list. */
  predicate Agrees(sets: seq<BackendSet>, start: int, number: int) {
    || number <= 0
    || if start < 1 then NoLeft(sets, 0) == 0 || start + NoLeft(sets, 0) > 1
       else SkipExact(sets, start) || start - Surplus(sets, start) > Total(sets)
  }

  /** For all counts, starts and numbers: round_robin lists the page of the merged order, as the plain
      loop does, if and only if Agrees holds. */
  lemma RoundRobinIsPage(sets: seq<BackendSet>, start: int, number: int)
    requires DistinctBackends(sets)
    ensures RoundRobinJobs(sets, start, number) == Page(Merged(sets), start, number) <==> Agrees(sets, start, number)
  {
    hide Skip, Merged, Page, Overshoot, Surplus, RoundRobinJobs, SkipExact, NoLeft, Total;
    if number <= 0 {
      PageOfNone(sets, start, number);
    } else if start >= 1 {
      RoundRobinIsEffectivePage(sets, start, number);
      OvershootZero(sets, start);
      OvershootIsSurplus(sets, start);
      MergedLength(sets);
      MergedDistinct(sets);
      PageDetermines(Merged(sets), EffectiveStart(sets, start), start, number);
    } else {
      BelowOne(sets, start, number);
    }
  }

  lemma MergedDistinct(sets: seq<BackendSet>)
    requires DistinctBackends(sets)
    ensures Distinct(Merged(sets))
  {
    FromDistinct(sets, 0, 1);
  }

  lemma PageOfNone(sets: seq<BackendSet>, start: int, number: int)
    requires number <= 0
    ensures RoundRobinJobs(sets, start, number) == Page(Merged(sets), start, number) == []
  {
  }

  // ---------- adjacent pages ----------

  /** The plain loop: adjacent pages join to the page that covers both. */
  lemma LoopPagesConcatenate(sets: seq<BackendSet>, start: int, m: nat, n: nat)
    requires start >= 1
    ensures Rest(sets, 0, 1, start - 1, m) + Rest(sets, 0, 1, start + m - 1, n) == Rest(sets, 0, 1, start - 1, m + n)
  {
    hide From, Take, Drop;
    PagesConcatenate(Merged(sets), start, m, n);
  }

  /** With the skip-ahead they do if and only if it has the same surplus for both, or the second page
      and the rest of the page over both are empty. */
  lemma PagesJoin(sets: seq<BackendSet>, start: int, m: nat, n: nat)
    requires DistinctBackends(sets) && start >= 1 && n >= 1
    ensures RoundRobinJobs(sets, start, m) + RoundRobinJobs(sets, start + m, n) == RoundRobinJobs(sets, start, m + n) <==>
            || Surplus(sets, start) == Surplus(sets, start + m)
            || (start + m - Surplus(sets, start) > Total(sets) && start + m - Surplus(sets, start + m) > Total(sets))
  {
    hide Skip, Merged, Page, Overshoot, Surplus, RoundRobinJobs, Total;
    var all, a, b := Merged(sets), EffectiveStart(sets, start), EffectiveStart(sets, start + m);
    RoundRobinIsEffectivePage(sets, start, m);
    RoundRobinIsEffectivePage(sets, start, m + n);
    RoundRobinIsEffectivePage(sets, start + m, n);
    OvershootIsSurplus(sets, start);
    OvershootIsSurplus(sets, start + m);
    MergedLength(sets);
    MergedDistinct(sets);
    PagesConcatenate(all, a, m, n);
    SamePrefix(Page(all, a, m), Page(all, b, n), Page(all, a + m, n));
    if a + m <= b { PageDetermines(all, a + m, b, n); } else { PageDetermines(all, b, a + m, n); }
  }

  lemma SamePrefix<T>(p: seq<T>, a: seq<T>, b: seq<T>)
    ensures p + a == p + b <==> a == b
  {
    if p + a == p + b {
      assert a == (p + a)[|p|..] == (p + b)[|p|..] == b;
    }
  }

  /** Up to the bound of the first two classes they always do. */
  lemma ExactPagesJoin(sets: seq<BackendSet>, start: int, m: nat, n: nat)
    requires start >= 1 && SkipExact(sets, start + m)
    ensures RoundRobinJobs(sets, start, m) + RoundRobinJobs(sets, start + m, n) == RoundRobinJobs(sets, start, m + n)
  {
    hide Skip, Merged, Page, Overshoot, RoundRobinJobs, NoLeft, MinAbove, LastExactStart;
    OvershootZero(sets, start);
    OvershootZero(sets, start + m);
    RoundRobinIsEffectivePage(sets, start, m);
    RoundRobinIsEffectivePage(sets, start, m + n);
    RoundRobinIsEffectivePage(sets, start + m, n);
    PagesConcatenate(Merged(sets), start, m, n);
  }

  lemma BelowOneJobs(sets: seq<BackendSet>, start: int, number: int, x: int, p: int)
    requires start < 1 && start <= p && Skip(sets, start, 1, 1, 0) == (x, p)
    ensures RoundRobinJobs(sets, start, number) == Take(From(sets, 0, x), number)
    ensures Page(Merged(sets), start, number) == Take(From(sets, 0, 1), number)
  {
    hide Skip, From, Take;
  }

  lemma BelowOne(sets: seq<BackendSet>, start: int, number: int)
    requires start < 1 && number > 0
    ensures RoundRobinJobs(sets, start, number) == Page(Merged(sets), start, number) <==>
            NoLeft(sets, 0) == 0 || start + NoLeft(sets, 0) > 1
  {
    hide Skip, TruncDiv, MinAbove, NoLeft, From, Take, Page, RoundRobinJobs;
    var n := NoLeft(sets, 0);
    if n == 0 {
      SkipCases(sets, start, 1, 1, 0, 0, n, 0);
      BelowOneJobs(sets, start, number, 1, 1);
    } else {
      var min := MinAbove(sets, 0);
      MulMonotone(n, 0, min);
      SkipCases(sets, start, 1, 1, 0, min, n, n * min);
      var q := TruncDiv(start - 1, n);
      BelowOneJobs(sets, start, number, 1 + q, 1 + n * q);
      if q < 0 {
        MulMonotone(n, q, -1);
        BelowOneDiffers(sets, q, number);
      }
    }
  }

  lemma BelowOneDiffers(sets: seq<BackendSet>, q: int, number: int)
    requires NoLeft(sets, 0) > 0 && q < 0 < number
    ensures Take(From(sets, 0, 1 + q), number) != Take(From(sets, 0, 1), number)
  {
    hide From;
    var k :| 0 <= k < |sets| && sets[k].count > 0;
    FromNonEmpty(sets, 0, k, 1 + q);
    FromNonEmpty(sets, 0, k, 1);
    assert Take(From(sets, 0, 1 + q), number)[0] == From(sets, 0, 1 + q)[0];
    assert Take(From(sets, 0, 1), number)[0] == From(sets, 0, 1)[0];
  }

  lemma {:induction false} FromNonEmpty(sets: seq<BackendSet>, i: nat, k: nat, x: int)
    requires i <= k < |sets| && x <= sets[k].count
    ensures From(sets, i, x) != [] && From(sets, i, x)[0].pos == x
    decreases k - i
  {
    if sets[i].count < x { FromNonEmpty(sets, i + 1, k, x); }
  }

  /** For a page that begins with a record that exists, the plain bound on start decides. */
  lemma PageWithinResultSet(sets: seq<BackendSet>, start: int, number: int)
    requires DistinctBackends(sets) && 1 <= start <= Total(sets) && number >= 1
    ensures RoundRobinJobs(sets, start, number) == Page(Merged(sets), start, number) <==> SkipExact(sets, start)
  {
    hide Skip, Surplus, Overshoot, SkipExact, RoundRobinJobs, Page, Merged, Total;
    RoundRobinIsPage(sets, start, number);
    RoundRobinIsEffectivePage(sets, start, number);
    OvershootIsSurplus(sets, start);
  }

  /** With at most two distinct counts above zero, every page from record 1 on is right. */
  lemma TwoCountsAlwaysAgree(sets: seq<BackendSet>, a: int, b: int, start: int, number: int)
    requires DistinctBackends(sets) && start >= 1
    requires forall s :: s in sets && s.count > 0 ==> s.count == a || s.count == b
    ensures RoundRobinJobs(sets, start, number) == Page(Merged(sets), start, number)
  {
    hide Skip, NoLeft, MinAbove, From, Passed, LastExactStart, Surplus, Page, RoundRobinJobs;
    RoundRobinIsPage(sets, start, number);
    OvershootZero(sets, start);
    OvershootIsSurplus(sets, start);
    MergedLength(sets);
    if !SkipExact(sets, start) {
      var v1 := MinAbove(sets, 0);
      var v2 := MinAbove(sets, v1);
      assert NoLeft(sets, v2) == 0;
      PassedSaturates(sets, v2, Skip(sets, start, 1, 1, 0).0 - 1);
    }
  }

  // ---------- witnesses ----------

  function Counts(a: int, b: int, c: int): seq<BackendSet> {
    [BackendSet(0, a), BackendSet(1, b), BackendSet(2, c)]
  }

  lemma CountsFacts(y: int)
    ensures var s := Counts(2, 5, 10);
            NoLeft(s, y) == (if y < 2 then 1 else 0) + (if y < 5 then 1 else 0) + if y < 10 then 1 else 0
    ensures var s := Counts(2, 5, 10);
            NoLeft(s, y) > 0 ==> MinAbove(s, y) == if y < 2 then 2 else if y < 5 then 5 else 10
  {
    var s := Counts(2, 5, 10);
    assert s[..2] == [BackendSet(0, 2), BackendSet(1, 5)] && s[..2][..1] == [BackendSet(0, 2)] && s[..2][..1][..0] == [];
    assert NoLeft(s[..2][..1], y) == if y < 2 then 1 else 0;
    assert NoLeft(s[..2], y) == NoLeft(s[..2][..1], y) + if y < 5 then 1 else 0;
    if NoLeft(s, y) > 0 {
      assert BackendSet(0, 2) in s && BackendSet(1, 5) in s && BackendSet(2, 10) in s;
    }
  }

  /** Counts 2, 5 and 10: the page from 15 on begins with record 7 of the third target, where the
      plain loop lists record 8. */
  lemma ThirdClassFails()
    ensures var s := Counts(2, 5, 10);
            && RoundRobinJobs(s, 15, 1) == [PresentJob(2, 7, 0)]
            && Page(Merged(s), 15, 1) == [PresentJob(2, 8, 0)]
  {
    hide Skip, NoLeft, MinAbove, From, Passed;
    var s := Counts(2, 5, 10);
    CountsFacts(0);
    CountsFacts(2);
    SkipCases(s, 15, 1, 1, 0, 2, 3, 6);
    SkipCases(s, 15, 7, 3, 2, 5, 2, 10);
    assert RoundRobinJobs(s, 15, 1) == Rest(s, 0, 7, 0, 1);
    FromThird(s, 7);
    FromIsSuffix(s, 7);
    FromThird(s, 8);
    PassedThird(s);
  }

  /** Counts 2, 5 and 10: the pages of one record from 14 and from 15 are the same record. */
  lemma PagesRepeat()
    ensures var s := Counts(2, 5, 10);
            RoundRobinJobs(s, 14, 1) == RoundRobinJobs(s, 15, 1) == [PresentJob(2, 7, 0)]
  {
    hide Skip, NoLeft, MinAbove, From;
    var s := Counts(2, 5, 10);
    ThirdClassFails();
    CountsFacts(0);
    CountsFacts(2);
    SkipCases(s, 14, 1, 1, 0, 2, 3, 6);
    SkipCases(s, 14, 7, 3, 2, 5, 2, 10);
    assert Skip(s, 14, 1, 1, 0) == (6, 13);
    assert RoundRobinJobs(s, 14, 1) == Rest(s, 0, 6, 1, 1);
    FromThird(s, 6);
    FromThird(s, 7);
    FromSecondOfThird(s);
  }

  lemma FromSecondOfThird(s: seq<BackendSet>)
    requires s == Counts(2, 5, 10)
    ensures |From(s, 0, 6)| >= 2 && From(s, 0, 6)[1] == PresentJob(2, 7, 0)
  {
    assert From(s, 0, 6) == From(s, 1, 6) == From(s, 2, 6) == [PresentJob(2, 6, 0)] + From(s, 3, 6);
    assert s[2] in s && From(s, 3, 6) == From(s, 0, 7);
    FromThird(s, 7);
  }

  lemma FromThird(s: seq<BackendSet>, x: int)
    requires s == Counts(2, 5, 10) && 6 <= x <= 10
    ensures From(s, 0, x) != [] && From(s, 0, x)[0] == PresentJob(2, x, 0)
  {
    assert From(s, 0, x) == From(s, 1, x) == From(s, 2, x);
  }

  lemma PassedThird(s: seq<BackendSet>)
    requires s == Counts(2, 5, 10)
    ensures Passed(s, 7) == 14
  {
    hide NoLeft;
    CountsFacts(0); CountsFacts(1); CountsFacts(2); CountsFacts(3); CountsFacts(4); CountsFacts(5); CountsFacts(6);
    assert Passed(s, 2) == 6;
    assert Passed(s, 4) == 10;
    assert Passed(s, 5) == 12;
  }

  /** One target with five records: a page from 0 on begins with the record at position 0, which does not exist. */
  lemma StartZeroFails()
    ensures var s := [BackendSet(0, 5)];
            RoundRobinJobs(s, 0, 1) == [PresentJob(0, 0, 0)] && Page(Merged(s), 0, 1) == [PresentJob(0, 1, 0)]
  {
    var s := [BackendSet(0, 5)];
    assert s[..0] == [];
    assert NoLeft(s, 0) == 1;
    assert s[0] in s;
    assert MinAbove(s, 0) == 5;
    SkipCases(s, 0, 1, 1, 0, 5, 1, 5);
    assert Skip(s, 0, 1, 1, 0) == (0, 0);
  }
}
