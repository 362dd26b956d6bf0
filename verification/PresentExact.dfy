/** Present over several targets answers with the page of the combined result set,
    src/filter_multi.cpp:755-945. */
module PresentExact {
  import opened Options
  import opened Slices
  import opened MultiMerge
  import opened MergedOrder
  import opened ServeOrder
  import opened SkipAhead
  import opened SkipAheadExact
  import opened PresentMerge

  // ---------- each target is asked for exactly the records wanted of it ----------

  /** What both merge orders have in common: no record twice, the records of one target in
      ascending order, and none without those before it. */
  ghost predicate Orderly(all: seq<PresentJob>) {
    && (forall i :: 0 <= i < |all| ==> all[i].pos >= 1 && all[i].start == 0)
    && (forall i, j :: 0 <= i < j < |all| && all[i].backend == all[j].backend ==> all[i].pos < all[j].pos)
    && (forall i, p :: 0 <= i < |all| && 1 <= p <= all[i].pos ==> Lists(all, all[i].backend, p))
  }

  ghost predicate Lists(jobs: seq<PresentJob>, b: nat, p: int) {
    PresentJob(b, p, 0) in jobs
  }

  /** The request for target b names exactly the records of b in the job list. */
  ghost predicate AsksExactly(jobs: seq<PresentJob>, b: nat) {
    var (s, e) := Extremes(jobs, b);
    && (s == -1 <==> forall i :: 0 <= i < |jobs| ==> jobs[i].backend != b)
    && (s != -1 ==> 1 <= s <= e && forall p :: s <= p <= e <==> Lists(jobs, b, p))
  }

  lemma {:induction false} ExtremesBound(jobs: seq<PresentJob>, b: nat)
    requires forall i :: 0 <= i < |jobs| ==> jobs[i].pos >= 1 && jobs[i].start == 0
    ensures var (s, e) := Extremes(jobs, b);
            && (s == -1 ==> e == -1 && forall i :: 0 <= i < |jobs| ==> jobs[i].backend != b)
            && (s != -1 ==> && 1 <= s <= e && PresentJob(b, s, 0) in jobs && PresentJob(b, e, 0) in jobs
                            && forall i :: 0 <= i < |jobs| && jobs[i].backend == b ==> s <= jobs[i].pos <= e)
  {
    if jobs != [] {
      var init := jobs[..|jobs| - 1];
      ExtremesBound(init, b);
      assert jobs == init + [jobs[|jobs| - 1]];
    }
  }

  lemma Preceding(all: seq<PresentJob>, i: nat, p: nat) returns (j: nat)
    requires Orderly(all) && i < |all| && 1 <= p <= all[i].pos
    ensures j < |all| && all[j] == PresentJob(all[i].backend, p, 0)
  {
    assert Lists(all, all[i].backend, p);
    j :| 0 <= j < |all| && all[j] == PresentJob(all[i].backend, p, 0);
  }

  lemma Ascending(all: seq<PresentJob>, i: nat, j: nat)
    requires Orderly(all) && i < |all| && j < |all| && all[i].backend == all[j].backend && all[i].pos <= all[j].pos
    ensures i <= j
  {
  }

  lemma StretchLists(all: seq<PresentJob>, lo: nat, hi: nat, b: nat, s: int, p: int, e: int)
    requires Orderly(all) && lo <= hi <= |all| && 1 <= s <= p <= e
    requires Lists(all[lo..hi], b, s) && Lists(all[lo..hi], b, e)
    ensures Lists(all[lo..hi], b, p)
  {
    hide Orderly;
    var i :| lo <= i < hi && all[i] == PresentJob(b, s, 0);
    var j :| lo <= j < hi && all[j] == PresentJob(b, e, 0);
    var k := Preceding(all, j, p);
    Ascending(all, i, k);
    Ascending(all, k, j);
    assert all[lo..hi][k - lo] == all[k];
  }

  /** Any stretch of an orderly list asks each target for one unbroken run of records. */
  lemma StretchAsksExactly(all: seq<PresentJob>, lo: nat, hi: nat, b: nat)
    requires Orderly(all) && lo <= hi <= |all|
    ensures AsksExactly(all[lo..hi], b)
  {
    var jobs := all[lo..hi];
    assert forall i :: 0 <= i < |jobs| ==> jobs[i] == all[lo + i];
    ExtremesBound(jobs, b);
    var (s, e) := Extremes(jobs, b);
    hide Extremes, Orderly;
    if s != -1 {
      assert Lists(jobs, b, s) && Lists(jobs, b, e);
      forall p ensures s <= p <= e <==> Lists(jobs, b, p) {
        if s <= p <= e {
          StretchLists(all, lo, hi, b, s, p, e);
        }
      }
    }
  }

  lemma {:induction false} RankMonotone(sets: seq<BackendSet>, k: nat, p: nat, q: nat)
    requires k < |sets| && 1 <= p < q <= sets[k].count
    ensures Rank(sets, k, p) < Rank(sets, k, q)
  {
    hide NoLeft;
    if p + 1 < q { RankMonotone(sets, k, p, q - 1); }
    NoLeftPrefix(sets, k, q - 2);
    NoLeftOfPrefix(sets, k + 1, q - 2);
    WithinStep(sets, q - 2);
  }

  lemma {:induction false} NoLeftOfPrefix(sets: seq<BackendSet>, k: nat, y: int)
    requires k <= |sets|
    ensures NoLeft(sets[..k], y) <= NoLeft(sets, y)
    decreases |sets| - k
  {
    if k < |sets| {
      NoLeftPrefix(sets, k, y);
      NoLeftOfPrefix(sets, k + 1, y);
    } else {
      assert sets[..k] == sets;
    }
  }

  lemma MergedOrderly(sets: seq<BackendSet>)
    requires DistinctBackends(sets)
    ensures Orderly(Merged(sets))
  {
    hide Merged;
    var all := Merged(sets);
    FromDistinct(sets, 0, 1);
    forall i | 0 <= i < |all| ensures all[i].pos >= 1 && all[i].start == 0 {
      var t := MergedAt(sets, i);
    }
    forall i, j | 0 <= i < j < |all| && all[i].backend == all[j].backend ensures all[i].pos < all[j].pos {
      var t := MergedAt(sets, i);
      var u := MergedAt(sets, j);
      if all[j].pos < all[i].pos { RankMonotone(sets, t, all[j].pos, all[i].pos); }
    }
    forall i, p | 0 <= i < |all| && 1 <= p <= all[i].pos ensures Lists(all, all[i].backend, p) {
      var t := MergedAt(sets, i);
      RankIsIndex(sets, t, p);
      assert all[Rank(sets, t, p) - 1] == PresentJob(all[i].backend, p, 0);
    }
  }

  /** Which record stands at place i + 1 of the merged order. */
  lemma MergedAt(sets: seq<BackendSet>, i: nat) returns (t: nat)
    requires DistinctBackends(sets) && i < |Merged(sets)|
    ensures t < |sets| && 1 <= Merged(sets)[i].pos <= sets[t].count
    ensures Merged(sets)[i] == PresentJob(sets[t].backend, Merged(sets)[i].pos, 0)
    ensures i == Rank(sets, t, Merged(sets)[i].pos) - 1
  {
    t := FromMember(sets, 0, 1, i);
    FromDistinct(sets, 0, 1);
    RankIsIndex(sets, t, Merged(sets)[i].pos);
  }

  lemma {:induction false} ConcatenatedOrderly(sets: seq<BackendSet>, k: nat)
    requires DistinctBackends(sets) && k <= |sets|
    ensures Orderly(Concatenated(sets, k))
    decreases |sets| - k
  {
    if k < |sets| {
      ConcatenatedOrderly(sets, k + 1);
      var own, rest, all := OneTarget(sets[k].backend, 1, sets[k].count), Concatenated(sets, k + 1), Concatenated(sets, k);
      forall i | 0 <= i < |rest| ensures rest[i].backend != sets[k].backend {
        var t := ConcatenatedMember(sets, k + 1, i);
      }
      forall i, p | 0 <= i < |all| && 1 <= p <= all[i].pos ensures Lists(all, all[i].backend, p) {
        if i < |own| {
          assert own[p - 1] in all;
        } else {
          assert Lists(rest, rest[i - |own|].backend, p);
        }
      }
    }
  }

  // ---------- the whole request ----------

  function Jobs(sets: seq<BackendSet>, mergeType: MergeType, start: int, number: int): seq<PresentJob> {
    if mergeType.RoundRobinType? then RoundRobinJobs(sets, start, number) else ServeOrderJobs(sets, start, number)
  }

  /** The records the request asks for, by the order in which the combined result set is presented. */
  function Wanted(sets: seq<BackendSet>, mergeType: MergeType, start: int, number: int): seq<PresentJob> {
    if mergeType.RoundRobinType? then Page(Merged(sets), start, number)
    else Numbered(Concatenated(sets, 0), start, number)
  }

  /** A job names a record of its target's result set. */
  ghost predicate Names<R>(job: PresentJob, contents: map<nat, seq<R>>) {
    job.backend in contents && 1 <= job.pos <= |contents[job.backend]|
  }

  /** The records themselves, each with its target. */
  ghost function Named<R>(jobs: seq<PresentJob>, contents: map<nat, seq<R>>): (records: seq<(nat, R)>)
    requires forall i :: 0 <= i < |jobs| ==> Names(jobs[i], contents)
    ensures |records| == |jobs|
    ensures forall i :: 0 <= i < |jobs| ==> Names(jobs[i], contents) && records[i] == (jobs[i].backend, contents[jobs[i].backend][jobs[i].pos - 1])
  {
    if jobs == [] then []
    else
      var last := jobs[|jobs| - 1];
      assert Names(last, contents);
      Named(jobs[..|jobs| - 1], contents) + [(last.backend, contents[last.backend][last.pos - 1])]
  }

  /** Every target answers every request within its result set in full. */
  ghost predicate FullAnswers<R>(contents: map<nat, seq<R>>, answer: Request -> Reply<R>) {
    forall r: Request :: r.backend in contents && 1 <= r.start && 1 <= r.number && r.start + r.number - 1 <= |contents[r.backend]| ==>
      answer(r) == Reply.Records(contents[r.backend][r.start - 1..r.start - 1 + r.number])
  }

  ghost predicate CountsAreRight<R>(sets: seq<BackendSet>, contents: map<nat, seq<R>>) {
    forall s :: s in sets ==> s.backend in contents && s.count == |contents[s.backend]|
  }

  /** A marked job finds its record in the reply. */
  ghost predicate Finds<R>(job: PresentJob, replies: map<nat, Reply<R>>, contents: map<nat, seq<R>>) {
    && Names(job, contents)
    && job.backend in replies && replies[job.backend].Records?
    && 0 <= job.pos - job.start < |replies[job.backend].records|
    && replies[job.backend].records[job.pos - job.start] == contents[job.backend][job.pos - 1]
  }

  lemma {:induction false} GatheredInFull<R>(marked: seq<PresentJob>, replies: map<nat, Reply<R>>, contents: map<nat, seq<R>>)
    requires forall i :: 0 <= i < |marked| ==> Finds(marked[i], replies, contents)
    ensures forall i :: 0 <= i < |marked| ==> marked[i].backend in replies && marked[i].pos >= marked[i].start
    ensures forall i :: 0 <= i < |marked| ==> Names(marked[i], contents)
    ensures Gathered(marked, replies) == Named(marked, contents)
  {
    forall i | 0 <= i < |marked|
      ensures marked[i].backend in replies && marked[i].pos >= marked[i].start && Names(marked[i], contents)
    {
      assert Finds(marked[i], replies, contents);
    }
    if marked != [] {
      var init := marked[..|marked| - 1];
      GatheredInFull(init, replies, contents);
    }
  }

  /** What the job lists have in common: a stretch of an orderly list of records the targets have. */
  ghost predicate Fits(sets: seq<BackendSet>, jobs: seq<PresentJob>) {
    forall i :: 0 <= i < |jobs| ==> jobs[i].start == 0 && HasRecord(sets, jobs[i].backend, jobs[i].pos)
  }

  ghost predicate HasRecord(sets: seq<BackendSet>, b: nat, p: int) {
    exists t :: 0 <= t < |sets| && sets[t].backend == b && 1 <= p <= sets[t].count
  }

  lemma PageIsStretch<T>(s: seq<T>, start: int, n: int) returns (lo: nat, hi: nat)
    ensures lo <= hi <= |s| && Page(s, start, n) == s[lo..hi]
  {
    lo := if start <= 1 then 0 else if start - 1 <= |s| then start - 1 else |s|;
    hi := if n <= 0 then lo else if lo + n <= |s| then lo + n else |s|;
  }

  /** The source never lists a record no target has, unless a round-robin page is begun below record 1. */
  lemma JobsFit(sets: seq<BackendSet>, mergeType: MergeType, start: int, number: int)
    returns (all: seq<PresentJob>, lo: nat, hi: nat)
    requires DistinctBackends(sets)
    requires if mergeType.RoundRobinType? then start >= 1 else ProperCounts(sets)
    ensures Orderly(all) && lo <= hi <= |all| && Jobs(sets, mergeType, start, number) == all[lo..hi]
    ensures Fits(sets, all)
  {
    hide Page, Merged, RoundRobinJobs, ServeOrderJobs, Concatenated, EffectiveStart, Orderly, Extremes;
    if mergeType.RoundRobinType? {
      all := Merged(sets);
      MergedOrderly(sets);
      RoundRobinIsEffectivePage(sets, start, number);
      lo, hi := PageIsStretch(all, EffectiveStart(sets, start), number);
      forall i | 0 <= i < |all| ensures all[i].start == 0 && HasRecord(sets, all[i].backend, all[i].pos) {
        var t := MergedAt(sets, i);
      }
    } else {
      all := Concatenated(sets, 0);
      ConcatenatedOrderly(sets, 0);
      ServeOrderIsSlice(sets, start, number);
      if start >= 1 {
        lo, hi := PageIsStretch(all, start, number);
      } else {
        lo, hi := PageIsStretch(all, 1, number + start - 1);
      }
      forall i | 0 <= i < |all| ensures all[i].start == 0 && HasRecord(sets, all[i].backend, all[i].pos) {
        var t := ConcatenatedMember(sets, 0, i);
      }
    }
  }

  function RequestFor(jobs: seq<PresentJob>, b: nat): Request {
    var (s, e) := Extremes(jobs, b);
    Request(b, s, e - s + 1)
  }

  /** The requests are those of the targets asked, one each. */
  lemma {:induction false} RequestsAre(sets: seq<BackendSet>, jobs: seq<PresentJob>, b: nat)
    requires DistinctBackends(sets)
    ensures forall i :: 0 <= i < |Requests(sets, jobs)| ==>
              Requests(sets, jobs)[i] == RequestFor(jobs, Requests(sets, jobs)[i].backend) && Extremes(jobs, Requests(sets, jobs)[i].backend).0 != -1
    ensures Has(sets, b) && Extremes(jobs, b).0 != -1 ==> RequestFor(jobs, b) in Requests(sets, jobs)
  {
    hide Extremes;
    if sets != [] {
      var init := sets[..|sets| - 1];
      RequestsAre(init, jobs, b);
      assert sets[..|init| + 1] == sets;
      HasNext(sets, |init|);
    }
  }

  /** Each job carries the start of the request that covers it. */
  lemma MarkIsStart(sets: seq<BackendSet>, jobs: seq<PresentJob>, i: nat)
    requires DistinctBackends(sets) && Fits(sets, jobs) && i < |jobs|
    ensures var r := RequestFor(jobs, jobs[i].backend);
            && Mark(sets, jobs, jobs[i]) == jobs[i].(start := r.start)
            && 1 <= r.start <= jobs[i].pos < r.start + r.number
            && r in Requests(sets, jobs)
            && HasRecord(sets, r.backend, r.start + r.number - 1)
  {
    forall k | 0 <= k < |jobs| ensures jobs[k].pos >= 1 && jobs[k].start == 0 {
      assert HasRecord(sets, jobs[k].backend, jobs[k].pos);
    }
    var b := jobs[i].backend;
    ExtremesBound(jobs, b);
    RequestsAre(sets, jobs, b);
    hide Extremes;
    assert HasRecord(sets, b, jobs[i].pos);
    var (s, e) := Extremes(jobs, b);
    var k :| 0 <= k < |jobs| && jobs[k] == PresentJob(b, e, 0);
    assert HasRecord(sets, jobs[k].backend, jobs[k].pos);
  }

  ghost predicate Diagnosed<R>(requests: seq<Request>, hideErrors: bool, answer: Request -> Reply<R>) {
    && (exists i :: 0 <= i < |requests| && answer(requests[i]).Diagnostic?)
    && (hideErrors ==> forall i :: 0 <= i < |requests| ==> answer(requests[i]).Diagnostic?)
  }

  ghost predicate ClosedOn<R>(requests: seq<Request>, hideErrors: bool, answer: Request -> Reply<R>, closes: Request -> bool) {
    && (exists i :: 0 <= i < |requests| && closes(requests[i]))
    && (hideErrors ==> forall i :: 0 <= i < |requests| ==> answer(requests[i]).Diagnostic?)
  }

  /** b is the last of the targets asked that closes its session. */
  ghost predicate LastCloses(requests: seq<Request>, closes: Request -> bool, b: nat) {
    exists i :: 0 <= i < |requests| && closes(requests[i]) && requests[i].backend == b && NoneCloses(requests[i + 1..], closes)
  }

  ghost predicate NoneCloses(requests: seq<Request>, closes: Request -> bool) {
    forall i :: 0 <= i < |requests| ==> !closes(requests[i])
  }

  /** Marked jobs find their records when every target answers in full. */
  lemma FullAnswersFind<R>(sets: seq<BackendSet>, jobs: seq<PresentJob>, marked: seq<PresentJob>, i: nat,
                           replies: map<nat, Reply<R>>, contents: map<nat, seq<R>>, answer: Request -> Reply<R>)
    requires DistinctBackends(sets) && Fits(sets, jobs) && i < |jobs| == |marked|
    requires marked[i] == Mark(sets, jobs, jobs[i])
    requires jobs[i].backend in replies && replies[jobs[i].backend] == answer(RequestFor(jobs, jobs[i].backend))
    requires CountsAreRight(sets, contents) && FullAnswers(contents, answer)
    ensures Finds(marked[i], replies, contents)
  {
    hide Mark, Requests, Fits, Extremes;
    var r := RequestFor(jobs, jobs[i].backend);
    MarkIsStart(sets, jobs, i);
    assert r.backend == jobs[i].backend;
    var t :| 0 <= t < |sets| && sets[t].backend == r.backend && 1 <= r.start + r.number - 1 <= sets[t].count;
    assert sets[t] in sets;
  }

  lemma {:induction false} NamedIgnoresStart<R>(jobs: seq<PresentJob>, marked: seq<PresentJob>, contents: map<nat, seq<R>>)
    requires |marked| == |jobs|
    requires forall i :: 0 <= i < |jobs| ==> marked[i] == jobs[i].(start := marked[i].start)
    requires forall i :: 0 <= i < |jobs| ==> Names(marked[i], contents)
    ensures forall i :: 0 <= i < |jobs| ==> Names(jobs[i], contents)
    ensures Named(marked, contents) == Named(jobs, contents)
  {
    forall i | 0 <= i < |jobs| ensures Names(jobs[i], contents) {
      assert Names(marked[i], contents);
    }
  }

  lemma JobsAreWanted(sets: seq<BackendSet>, mergeType: MergeType, start: int, number: int)
    requires DistinctBackends(sets)
    requires if mergeType.RoundRobinType? then Agrees(sets, start, number) else ProperCounts(sets)
    ensures Jobs(sets, mergeType, start, number) == Wanted(sets, mergeType, start, number)
  {
    hide Agrees, RoundRobinJobs, ServeOrderJobs, Merged, Page, Concatenated, Numbered;
    if mergeType.RoundRobinType? {
      RoundRobinIsPage(sets, start, number);
    } else {
      ServeOrderIsSlice(sets, start, number);
    }
  }

  /** The gathered records, when every target answers in full. */
  lemma GatheredIsNamed<R>(sets: seq<BackendSet>, jobs: seq<PresentJob>, marked: seq<PresentJob>,
                           replies: map<nat, Reply<R>>, contents: map<nat, seq<R>>, answer: Request -> Reply<R>)
    requires DistinctBackends(sets) && Fits(sets, jobs) && |jobs| == |marked|
    requires forall i :: 0 <= i < |jobs| ==> marked[i] == Mark(sets, jobs, jobs[i])
    requires forall i :: 0 <= i < |jobs| ==> jobs[i].backend in replies
    requires forall b :: b in replies ==> replies[b] == answer(RequestFor(jobs, b))
    requires CountsAreRight(sets, contents) && FullAnswers(contents, answer)
    ensures forall i :: 0 <= i < |jobs| ==> Names(jobs[i], contents)
    ensures forall i :: 0 <= i < |jobs| ==> marked[i].backend in replies && marked[i].pos >= marked[i].start
    ensures Gathered(marked, replies) == Named(jobs, contents)
  {
    hide Fits, RequestFor, FullAnswers, CountsAreRight, Finds, Names, Extremes, Has;
    forall i | 0 <= i < |marked| ensures Finds(marked[i], replies, contents) {
      FullAnswersFind(sets, jobs, marked, i, replies, contents, answer);
    }
    GatheredInFull(marked, replies, contents);
    NamedIgnoresStart(jobs, marked, contents);
  }

  lemma FitsStretch(sets: seq<BackendSet>, all: seq<PresentJob>, lo: nat, hi: nat)
    requires lo <= hi <= |all| && Fits(sets, all)
    ensures Fits(sets, all[lo..hi])
  {
  }

  /** The replies of the targets asked (lines 838-863). */
  method Ask<R>(sets: seq<BackendSet>, jobs: seq<PresentJob>, requests: seq<Request>, answer: Request -> Reply<R>, closes: Request -> bool)
    returns (replies: map<nat, Reply<R>>, diagnostics: bool, noSuccessful: nat, closer: Option<nat>)
    requires DistinctBackends(sets) && requests == Requests(sets, jobs)
    ensures forall i :: 0 <= i < |requests| ==> requests[i].backend in replies
    ensures forall b :: b in replies ==> replies[b] == answer(RequestFor(jobs, b))
    ensures diagnostics <==> exists i :: 0 <= i < |requests| && answer(requests[i]).Diagnostic?
    ensures noSuccessful == 0 <==> forall i :: 0 <= i < |requests| ==> answer(requests[i]).Diagnostic?
    ensures if closer.Some? then LastCloses(requests, closes, closer.value) else NoneCloses(requests, closes)
  {
    hide RequestFor, Requests;
    RequestsAre(sets, jobs, 0);
    replies, diagnostics, noSuccessful, closer := map[], false, 0, None;
    assert requests[..0] == [];
    for j := 0 to |requests|
      invariant forall i :: 0 <= i < j ==> requests[i].backend in replies
      invariant forall b :: b in replies ==> replies[b] == answer(RequestFor(jobs, b))
      invariant diagnostics <==> exists i :: 0 <= i < j && answer(requests[i]).Diagnostic?
      invariant noSuccessful == 0 <==> forall i :: 0 <= i < j ==> answer(requests[i]).Diagnostic?
      invariant if closer.Some? then LastCloses(requests[..j], closes, closer.value) else NoneCloses(requests[..j], closes)
    {
      if closes(requests[j]) {
        closer := Some(requests[j].backend);
      }
      LastClosesNext(requests, closes, j);
      var reply := answer(requests[j]);
      replies := replies[requests[j].backend := reply];
      if reply.Diagnostic? {
        diagnostics := true;
      } else {
        noSuccessful := noSuccessful + 1;
      }
    }
    assert requests[..|requests|] == requests;
  }

  lemma LastClosesNext(requests: seq<Request>, closes: Request -> bool, j: nat)
    requires j < |requests|
    ensures closes(requests[j]) ==> LastCloses(requests[..j + 1], closes, requests[j].backend)
    ensures !closes(requests[j]) && NoneCloses(requests[..j], closes) ==> NoneCloses(requests[..j + 1], closes)
    ensures forall b :: !closes(requests[j]) && LastCloses(requests[..j], closes, b) ==> LastCloses(requests[..j + 1], closes, b)
  {
    var r := requests[..j + 1];
    assert r == requests[..j] + [requests[j]];
    if closes(requests[j]) {
      assert r[j] == requests[j] && NoneCloses(r[j + 1..], closes);
    } else {
      forall b | LastCloses(requests[..j], closes, b) ensures LastCloses(r, closes, b) {
        var i :| 0 <= i < j && closes(requests[i]) && requests[i].backend == b && NoneCloses(requests[..j][i + 1..], closes);
        assert r[i + 1..] == requests[..j][i + 1..] + [requests[j]];
        assert r[i] == requests[i];
      }
    }
  }

  /** Every job's target is among those asked, and asked from no later than the job's position. */
  lemma MarkedAreAsked<R>(sets: seq<BackendSet>, jobs: seq<PresentJob>, marked: seq<PresentJob>, replies: map<nat, Reply<R>>)
    requires DistinctBackends(sets) && Fits(sets, jobs) && |jobs| == |marked|
    requires forall i :: 0 <= i < |jobs| ==> marked[i] == Mark(sets, jobs, jobs[i])
    requires forall i :: 0 <= i < |Requests(sets, jobs)| ==> Requests(sets, jobs)[i].backend in replies
    ensures forall i :: 0 <= i < |jobs| ==> jobs[i].backend in replies
    ensures forall i :: 0 <= i < |marked| ==> marked[i].backend in replies && marked[i].pos >= marked[i].start
  {
    hide Fits, Mark, Requests, Extremes;
    forall i | 0 <= i < |jobs|
      ensures jobs[i].backend in replies && marked[i].backend in replies && marked[i].pos >= marked[i].start
    {
      MarkIsStart(sets, jobs, i);
    }
  }

  /** A target that answers in full has no diagnostic to report. */
  lemma NoneDiagnosed<R>(sets: seq<BackendSet>, jobs: seq<PresentJob>, k: nat, contents: map<nat, seq<R>>, answer: Request -> Reply<R>)
    requires DistinctBackends(sets) && Fits(sets, jobs) && k < |Requests(sets, jobs)|
    requires CountsAreRight(sets, contents) && FullAnswers(contents, answer)
    ensures answer(Requests(sets, jobs)[k]).Records?
  {
    var r := Requests(sets, jobs)[k];
    RequestsAre(sets, jobs, r.backend);
    forall i | 0 <= i < |jobs| ensures jobs[i].pos >= 1 && jobs[i].start == 0 {
      assert HasRecord(sets, jobs[i].backend, jobs[i].pos);
    }
    ExtremesBound(jobs, r.backend);
    hide Extremes, Requests, Fits;
    var i :| 0 <= i < |jobs| && jobs[i].backend == r.backend;
    MarkIsStart(sets, jobs, i);
    var t :| 0 <= t < |sets| && sets[t].backend == r.backend && 1 <= r.start + r.number - 1 <= sets[t].count;
    assert sets[t] in sets;
  }

  /** The answer of the target that job i is for, to the one request it gets. */
  ghost function ReplyTo<R>(jobs: seq<PresentJob>, answer: Request -> Reply<R>, i: nat): Reply<R>
    requires i < |jobs|
  {
    answer(RequestFor(jobs, jobs[i].backend))
  }

  /** Where in that answer the record of job i stands: the request begins at the least position asked. */
  ghost function InsideOf(jobs: seq<PresentJob>, i: nat): int
    requires i < |jobs|
  {
    jobs[i].pos - RequestFor(jobs, jobs[i].backend).start
  }

  ghost predicate Sent<R>(jobs: seq<PresentJob>, answer: Request -> Reply<R>, i: nat)
    requires i < |jobs|
  {
    ReplyTo(jobs, answer, i).Records? && 0 <= InsideOf(jobs, i) < |ReplyTo(jobs, answer, i).records|
  }

  /** records are those of the jobs numbered by from: exactly the jobs whose targets have sent their
      record, in the order of the jobs, each with its target. */
  ghost predicate AnsweredFrom<R>(jobs: seq<PresentJob>, answer: Request -> Reply<R>, records: seq<(nat, R)>, from: seq<nat>) {
    && |from| == |records|
    && (forall k, l :: 0 <= k < l < |from| ==> from[k] < from[l])
    && (forall i: nat :: i in from <==> i < |jobs| && Sent(jobs, answer, i))
    && (forall k :: 0 <= k < |from| && from[k] < |jobs| && Sent(jobs, answer, from[k]) ==>
          records[k] == (jobs[from[k]].backend, ReplyTo(jobs, answer, from[k]).records[InsideOf(jobs, from[k])]))
  }

  ghost predicate Answered<R>(jobs: seq<PresentJob>, answer: Request -> Reply<R>, records: seq<(nat, R)>) {
    exists from :: AnsweredFrom(jobs, answer, records, from)
  }

  lemma GatheredIsAnswered<R>(sets: seq<BackendSet>, jobs: seq<PresentJob>, marked: seq<PresentJob>, replies: map<nat, Reply<R>>,
                              answer: Request -> Reply<R>, records: seq<(nat, R)>, from: seq<nat>)
    requires DistinctBackends(sets) && Fits(sets, jobs) && |jobs| == |marked|
    requires forall i :: 0 <= i < |jobs| ==> marked[i] == Mark(sets, jobs, jobs[i])
    requires forall i :: 0 <= i < |marked| ==> marked[i].backend in replies
    requires forall b :: b in replies ==> replies[b] == answer(RequestFor(jobs, b))
    requires ComeFrom(marked, replies, records, from)
    ensures Answered(jobs, answer, records)
  {
    hide Fits, Mark, RequestFor;
    forall i | 0 <= i < |jobs|
      ensures marked[i].backend == jobs[i].backend && replies[marked[i].backend] == ReplyTo(jobs, answer, i)
      ensures marked[i].pos - marked[i].start == InsideOf(jobs, i)
    {
      MarkIsStart(sets, jobs, i);
    }
    assert forall i :: 0 <= i < |jobs| ==> (Came(marked[i], replies[marked[i].backend]) <==> Sent(jobs, answer, i));
    assert AnsweredFrom(jobs, answer, records, from);
  }

  /** A target gets one request, from the least to the greatest position its jobs name. */
  lemma RequestCovers(sets: seq<BackendSet>, jobs: seq<PresentJob>, i: nat)
    requires DistinctBackends(sets) && Fits(sets, jobs) && i < |jobs|
    ensures var (b, r) := (jobs[i].backend, RequestFor(jobs, jobs[i].backend));
            && r.backend == b && r in Requests(sets, jobs)
            && (forall k :: 0 <= k < |jobs| && jobs[k].backend == b ==> r.start <= jobs[k].pos < r.start + r.number)
            && (exists k :: 0 <= k < |jobs| && jobs[k] == PresentJob(b, r.start, 0))
            && (exists k :: 0 <= k < |jobs| && jobs[k] == PresentJob(b, r.start + r.number - 1, 0))
  {
    forall k | 0 <= k < |jobs| ensures jobs[k].pos >= 1 && jobs[k].start == 0 {
      assert HasRecord(sets, jobs[k].backend, jobs[k].pos);
    }
    ExtremesBound(jobs, jobs[i].backend);
    MarkIsStart(sets, jobs, i);
    hide Extremes, Requests;
  }

  /** Present over several targets. A target that closes its session closes the frontend's, unless
      errors are hidden and some target has answered. Otherwise the response holds, in the order of the
      jobs, the records that have come; when the targets answer in full, these are the records named by
      the jobs. It is out of range if there are too few jobs. The jobs are the records wanted wherever the
      order is exact. */
  method Present<R>(sets: seq<BackendSet>, mergeType: MergeType, hideErrors: bool, start: int, number: int,
                    answer: Request -> Reply<R>, closes: Request -> bool, ghost contents: map<nat, seq<R>>) returns (response: Response<R>)
    requires DistinctBackends(sets)
    requires if mergeType.RoundRobinType? then start >= 1 else ProperCounts(sets)
    ensures response.Closing? <==> ClosedOn(Requests(sets, Jobs(sets, mergeType, start, number)), hideErrors, answer, closes)
    ensures response.Closing? ==> LastCloses(Requests(sets, Jobs(sets, mergeType, start, number)), closes, response.backend)
    ensures !response.Closing? ==>
            (response.TargetDiagnostics? <==> Diagnosed(Requests(sets, Jobs(sets, mergeType, start, number)), hideErrors, answer))
    ensures !response.Closing? && !response.TargetDiagnostics? ==>
            (response.OutOfRange? <==> number < 0 || number > |Jobs(sets, mergeType, start, number)|)
    ensures response.Combined? ==>
            && Answered(Jobs(sets, mergeType, start, number), answer, response.records)
            && response.next == start + |response.records|
    ensures CountsAreRight(sets, contents) && FullAnswers(contents, answer) && !response.Closing? ==>
            var jobs := Jobs(sets, mergeType, start, number);
            && (forall i :: 0 <= i < |jobs| ==> Names(jobs[i], contents))
            && response == if number < 0 || number > |jobs| then OutOfRange
                           else Combined(Named(jobs, contents), start + |jobs|)
    ensures mergeType.ServeOrderType? || Agrees(sets, start, number) ==>
            Jobs(sets, mergeType, start, number) == Wanted(sets, mergeType, start, number)
  {
    hide RoundRobinJobs, ServeOrderJobs, Requests, Mark, Fits, Orderly, Agrees, Wanted, Names, FullAnswers, CountsAreRight, RequestFor, Answered;
    var jobs;
    if mergeType.RoundRobinType? {
      jobs := RoundRobin(sets, start, number);
    } else {
      jobs := ServeOrder.ServeOrder(sets, start, number);
    }
    if mergeType.ServeOrderType? || Agrees(sets, start, number) { JobsAreWanted(sets, mergeType, start, number); }
    ghost var all, lo, hi := JobsFit(sets, mergeType, start, number);
    FitsStretch(sets, all, lo, hi);
    response := Combine(sets, jobs, hideErrors, start, number, answer, closes, contents);
  }

  /** The same, from the jobs on. */
  method Combine<R>(sets: seq<BackendSet>, jobs: seq<PresentJob>, hideErrors: bool, start: int, number: int,
                    answer: Request -> Reply<R>, closes: Request -> bool, ghost contents: map<nat, seq<R>>) returns (response: Response<R>)
    requires DistinctBackends(sets) && Fits(sets, jobs)
    ensures response.Closing? <==> ClosedOn(Requests(sets, jobs), hideErrors, answer, closes)
    ensures response.Closing? ==> LastCloses(Requests(sets, jobs), closes, response.backend)
    ensures !response.Closing? ==> (response.TargetDiagnostics? <==> Diagnosed(Requests(sets, jobs), hideErrors, answer))
    ensures !response.Closing? && !response.TargetDiagnostics? ==> (response.OutOfRange? <==> number < 0 || number > |jobs|)
    ensures response.Combined? ==> Answered(jobs, answer, response.records) && response.next == start + |response.records|
    ensures CountsAreRight(sets, contents) && FullAnswers(contents, answer) && !response.Closing? ==>
            && (forall i :: 0 <= i < |jobs| ==> Names(jobs[i], contents))
            && response == if number < 0 || number > |jobs| then OutOfRange
                           else Combined(Named(jobs, contents), start + |jobs|)
  {
    hide Requests, Mark, Fits, Names, FullAnswers, CountsAreRight, RequestFor, Answered, ComeFrom;
    var marked, requests := Scatter(sets, jobs);
    var replies, diagnostics, noSuccessful, closer := Ask(sets, jobs, requests, answer, closes);
    MarkedAreAsked(sets, jobs, marked, replies);
    if closer.Some? && (noSuccessful == 0 || !hideErrors) {
      return Closing(closer.value);
    }
    if CountsAreRight(sets, contents) && FullAnswers(contents, answer) && diagnostics {
      ghost var k :| 0 <= k < |requests| && answer(requests[k]).Diagnostic?;
      NoneDiagnosed(sets, jobs, k, contents, answer);
      assert false;
    }
    if diagnostics && (noSuccessful == 0 || !hideErrors) {
      response := TargetDiagnostics;
    } else {
      if number < 0 || number > |jobs| {
        response := OutOfRange;
      } else {
        var records;
        ghost var from;
        records, from := Gather(marked, replies);
        GatheredIsAnswered(sets, jobs, marked, replies, answer, records, from);
        response := Combined(records, start + |records|);
      }
      if CountsAreRight(sets, contents) && FullAnswers(contents, answer) {
        GatheredIsNamed(sets, jobs, marked, replies, contents, answer);
      }
    }
  }
}
