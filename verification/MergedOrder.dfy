/** Closed form of the merged order: where each record stands, and that it stands there once. */
module MergedOrder {
  import opened Slices
  import opened MultiMerge

  /** How many targets have more than y records. */
  function NoLeft(sets: seq<BackendSet>, y: int): (n: nat)
    ensures n <= |sets|
    ensures n == 0 <==> forall s :: s in sets ==> s.count <= y
  {
    if sets == [] then 0
    else
      var last := sets[|sets| - 1];
      assert forall s :: s in sets <==> s == last || s in sets[..|sets| - 1];
      NoLeft(sets[..|sets| - 1], y) + if last.count > y then 1 else 0
  }

  /** How many records stand at positions 1..y of their targets. */
  function Passed(sets: seq<BackendSet>, y: nat): (n: nat)
  {
    if y == 0 then 0 else Passed(sets, y - 1) + NoLeft(sets, y - 1)
  }

  /** How many of its first y records a target with this count has. */
  function AtMost(count: int, y: int): (n: nat)
    ensures n <= y || n == 0
  {
    if count <= 0 || y <= 0 then 0 else if count < y then count else y
  }

  /** The sum over the targets of min(count, y), a negative count being none. */
  function Within(sets: seq<BackendSet>, y: int): (n: nat) {
    if sets == [] then 0
    else Within(sets[..|sets| - 1], y) + AtMost(sets[|sets| - 1].count, y)
  }

  /** The sum of the counts, a negative count being none. */
  function Total(sets: seq<BackendSet>): (n: nat) {
    if sets == [] then 0
    else
      var count := sets[|sets| - 1].count;
      Total(sets[..|sets| - 1]) + if count > 0 then count else 0
  }

  lemma {:induction false} WithinStep(sets: seq<BackendSet>, y: nat)
    ensures Within(sets, y + 1) == Within(sets, y) + NoLeft(sets, y)
    ensures Within(sets, 0) == 0
  {
    if sets != [] { WithinStep(sets[..|sets| - 1], y); }
  }

  lemma {:induction false} WithinAll(sets: seq<BackendSet>, y: int)
    requires forall s :: s in sets ==> s.count <= y
    ensures Within(sets, y) == Total(sets)
  {
    if sets != [] {
      assert sets[|sets| - 1] in sets;
      WithinAll(sets[..|sets| - 1], y);
    }
  }

  /** Counted round by round or target by target, the records at positions 1..y are as many. */
  lemma {:induction false} PassedIsSum(sets: seq<BackendSet>, y: nat)
    ensures Passed(sets, y) == Within(sets, y)
  {
    if y == 0 {
      WithinStep(sets, 0);
    } else {
      PassedIsSum(sets, y - 1);
      WithinStep(sets, y - 1);
    }
  }

  /** The records served in the round for position x, from target k on. */
  function Round(sets: seq<BackendSet>, k: nat, x: int): (jobs: seq<PresentJob>)
    requires k <= |sets|
    decreases |sets| - k
  {
    if k == |sets| then []
    else if x <= sets[k].count then [PresentJob(sets[k].backend, x, 0)] + Round(sets, k + 1, x)
    else Round(sets, k + 1, x)
  }

  lemma {:induction false} NoLeftPrefix(sets: seq<BackendSet>, k: nat, y: int)
    requires k < |sets|
    ensures NoLeft(sets[..k + 1], y) == NoLeft(sets[..k], y) + if sets[k].count > y then 1 else 0
  {
    assert sets[..k + 1][..k] == sets[..k];
  }

  lemma {:induction false} RoundLength(sets: seq<BackendSet>, k: nat, x: int)
    requires k <= |sets|
    ensures |Round(sets, k, x)| == NoLeft(sets, x - 1) - NoLeft(sets[..k], x - 1)
    decreases |sets| - k
  {
    if k < |sets| {
      NoLeftPrefix(sets, k, x - 1);
      RoundLength(sets, k + 1, x);
    } else {
      assert sets[..k] == sets;
    }
  }

  lemma {:induction false} FromRound(sets: seq<BackendSet>, k: nat, x: int)
    requires k <= |sets|
    ensures From(sets, k, x) == Round(sets, k, x) + From(sets, 0, x + 1)
    decreases |sets| - k
  {
    if k < |sets| {
      FromRound(sets, k + 1, x);
    } else if x >= MaxCount(sets) {
      FromDead(sets, 0, x + 1);
    }
  }

  /** Starting the rounds at position y + 1 is the merged order without as many of its first records
      as the targets have at positions 1..y, the sum of min(count, y). */
  lemma {:induction false} FromIsSuffix(sets: seq<BackendSet>, y: nat)
    ensures Passed(sets, y) == Within(sets, y) <= |Merged(sets)|
    ensures From(sets, 0, y + 1) == Merged(sets)[Within(sets, y)..]
  {
    PassedIsSum(sets, y);
    if y > 0 {
      FromIsSuffix(sets, y - 1);
      FromRound(sets, 0, y);
      RoundLength(sets, 0, y);
      assert sets[..0] == [];
    }
  }

  lemma {:induction false} RoundAt(sets: seq<BackendSet>, k: nat, i: nat, x: int)
    requires i <= k < |sets| && x <= sets[k].count
    ensures var r := NoLeft(sets[..k], x - 1) - NoLeft(sets[..i], x - 1);
            0 <= r < |Round(sets, i, x)| && Round(sets, i, x)[r] == PresentJob(sets[k].backend, x, 0)
    decreases k - i
  {
    if i < k {
      NoLeftPrefix(sets, i, x - 1);
      RoundAt(sets, k, i + 1, x);
    }
  }

  /** The place of record j of target k in the merged order (the first place is 1): all records
      at earlier positions, and those of earlier targets at the same position, come before it. */
  function Rank(sets: seq<BackendSet>, k: nat, j: nat): nat
    requires k < |sets| && j >= 1
  {
    1 + Within(sets, j - 1) + NoLeft(sets[..k], j - 1)
  }

  lemma RankIsIndex(sets: seq<BackendSet>, k: nat, j: nat)
    requires k < |sets| && 1 <= j <= sets[k].count
    ensures Rank(sets, k, j) <= |Merged(sets)|
    ensures Merged(sets)[Rank(sets, k, j) - 1] == PresentJob(sets[k].backend, j, 0)
  {
    FromIsSuffix(sets, j - 1);
    FromRound(sets, 0, j);
    RoundAt(sets, k, 0, j);
    assert sets[..0] == [];
  }

  /** Conversely, every place of the merged order holds a record some target has. */
  lemma {:induction false} FromMember(sets: seq<BackendSet>, k: nat, x: int, i: nat) returns (t: nat)
    requires k <= |sets| && i < |From(sets, k, x)|
    ensures t < |sets| && From(sets, k, x)[i].backend == sets[t].backend
    ensures x <= From(sets, k, x)[i].pos <= sets[t].count && From(sets, k, x)[i].start == 0
    ensures From(sets, k, x)[i].pos == x ==> k <= t
    decreases if x <= MaxCount(sets) then MaxCount(sets) - x + 1 else 0, |sets| - k
  {
    if k == |sets| {
      t := FromMember(sets, 0, x + 1, i);
    } else if x <= sets[k].count {
      if i == 0 {
        t := k;
      } else {
        t := FromMember(sets, k + 1, x, i - 1);
      }
    } else {
      t := FromMember(sets, k + 1, x, i);
    }
  }

  lemma {:induction false} FromDistinct(sets: seq<BackendSet>, k: nat, x: int)
    requires k <= |sets| && DistinctBackends(sets)
    ensures Distinct(From(sets, k, x))
    decreases if x <= MaxCount(sets) then MaxCount(sets) - x + 1 else 0, |sets| - k
  {
    if k == |sets| {
      if x < MaxCount(sets) { FromDistinct(sets, 0, x + 1); }
    } else {
      FromDistinct(sets, k + 1, x);
      if x <= sets[k].count {
        var tail := From(sets, k + 1, x);
        forall i | 0 <= i < |tail| ensures tail[i] != PresentJob(sets[k].backend, x, 0) {
          var t := FromMember(sets, k + 1, x, i);
        }
      }
    }
  }

  /** The merged order lists every record of every target exactly once. */
  lemma MergedIsExact(sets: seq<BackendSet>, job: PresentJob)
    requires DistinctBackends(sets)
    ensures Distinct(Merged(sets))
    ensures job in Merged(sets) <==>
            exists k :: 0 <= k < |sets| && job == PresentJob(sets[k].backend, job.pos, 0) && 1 <= job.pos <= sets[k].count
  {
    FromDistinct(sets, 0, 1);
    if job in Merged(sets) {
      var i :| 0 <= i < |Merged(sets)| && Merged(sets)[i] == job;
      var t := FromMember(sets, 0, 1, i);
    }
    if k :| 0 <= k < |sets| && job == PresentJob(sets[k].backend, job.pos, 0) && 1 <= job.pos <= sets[k].count {
      RankIsIndex(sets, k, job.pos);
    }
  }

  lemma {:induction false} NoLeftMonotone(sets: seq<BackendSet>, y: int, z: int)
    requires y <= z
    ensures NoLeft(sets, z) <= NoLeft(sets, y)
  {
    if sets != [] { NoLeftMonotone(sets[..|sets| - 1], y, z); }
  }

  /** All records are passed once every target is exhausted. */
  lemma {:induction false} PassedAll(sets: seq<BackendSet>, y: nat)
    requires NoLeft(sets, y) == 0
    ensures Passed(sets, y) == |Merged(sets)| == Total(sets)
  {
    FromIsSuffix(sets, y);
    FromDead(sets, 0, y + 1);
    WithinAll(sets, y);
  }

  /** The merged order has as many records as the counts add up to. */
  lemma MergedLength(sets: seq<BackendSet>)
    ensures |Merged(sets)| == Total(sets)
  {
    PassedAll(sets, MaxCount(sets));
  }
}
