/** Scatter and gather of a Present request over the targets, src/filter_multi.cpp:755-945. */
module PresentMerge {
  import opened MultiMerge

  /** A Present request to one target. */
  datatype Request = Request(backend: nat, start: int, number: int)

  /** A target's answer: records, a diagnostic, or a response with neither. */
  datatype Reply<R> = Records(records: seq<R>) | Diagnostic | Nothing

  datatype MergeType = RoundRobinType | ServeOrderType

  /** The answer to the frontend: records with the target each came from, and the position after them;
      or the response of a target that has closed its session, with which the frontend's is closed. */
  datatype Response<R> =
    | Combined(records: seq<(nat, R)>, next: int)
    | OutOfRange
    | TargetDiagnostics
    | Closing(backend: nat)

  // ---------- scatter ----------

  /** The least and the greatest position asked of target b, or -1 and -1. */
  function Extremes(jobs: seq<PresentJob>, b: nat): (r: (int, int)) {
    if jobs == [] then (-1, -1)
    else
      var (s, e) := Extremes(jobs[..|jobs| - 1], b);
      var last := jobs[|jobs| - 1];
      if last.backend != b then (s, e)
      else (if s == -1 || last.pos < s then last.pos else s, if e == -1 || last.pos > e then last.pos else e)
  }

  method Range(jobs: seq<PresentJob>, b: nat) returns (start: int, end: int)
    ensures (start, end) == Extremes(jobs, b)
  {
    start, end := -1, -1;
    for j := 0 to |jobs|
      invariant (start, end) == Extremes(jobs[..j], b)
    {
      assert jobs[..j + 1][..j] == jobs[..j];
      if jobs[j].backend == b {
        if start == -1 || jobs[j].pos < start {
          start := jobs[j].pos;
        }
        if end == -1 || jobs[j].pos > end {
          end := jobs[j].pos;
        }
      }
    }
    assert jobs[..|jobs|] == jobs;
  }

  predicate Has(sets: seq<BackendSet>, b: nat) {
    exists i :: 0 <= i < |sets| && sets[i].backend == b
  }

  lemma HasNone()
    ensures forall b :: !Has([], b)
  {
  }

  lemma HasNext(sets: seq<BackendSet>, k: nat)
    requires k < |sets|
    ensures forall b :: Has(sets[..k + 1], b) <==> Has(sets[..k], b) || b == sets[k].backend
  {
    var next := sets[..k + 1];
    forall b ensures Has(next, b) <==> Has(sets[..k], b) || b == sets[k].backend {
      if Has(sets[..k], b) {
        var i :| 0 <= i < k && sets[..k][i].backend == b;
        assert next[i].backend == b;
      }
      if b == sets[k].backend {
        assert next[k].backend == b;
      }
    }
  }

  /** The job with the start of the request that covers it. */
  function Mark(sets: seq<BackendSet>, jobs: seq<PresentJob>, job: PresentJob): PresentJob {
    var (s, e) := Extremes(jobs, job.backend);
    if Has(sets, job.backend) && s != -1 && s <= job.pos <= e then job.(start := s) else job
  }

  /** One request for each target that is asked anything, in the order of the targets. */
  function Requests(sets: seq<BackendSet>, jobs: seq<PresentJob>): (rs: seq<Request>) {
    if sets == [] then []
    else
      var b := sets[|sets| - 1].backend;
      var (s, e) := Extremes(jobs, b);
      Requests(sets[..|sets| - 1], jobs) + if s != -1 then [Request(b, s, e - s + 1)] else []
  }

  method Scatter(sets: seq<BackendSet>, jobs: seq<PresentJob>) returns (marked: seq<PresentJob>, requests: seq<Request>)
    requires DistinctBackends(sets)
    ensures requests == Requests(sets, jobs)
    ensures |marked| == |jobs| && forall i :: 0 <= i < |jobs| ==> marked[i] == Mark(sets, jobs, jobs[i])
  {
    hide Extremes, Has;
    HasNone();
    marked, requests := jobs, [];
    for k := 0 to |sets|
      invariant requests == Requests(sets[..k], jobs)
      invariant |marked| == |jobs| && forall i :: 0 <= i < |jobs| ==> marked[i] == Mark(sets[..k], jobs, jobs[i])
    {
      var start, end := Range(jobs, sets[k].backend);
      ghost var before := marked;
      assert sets[..k + 1][..k] == sets[..k];
      HasNext(sets, k);
      if start != -1 {
        for j := 0 to |marked|
          invariant |marked| == |before|
          invariant forall i :: j <= i < |marked| ==> marked[i] == before[i]
          invariant forall i :: 0 <= i < j ==> marked[i] == Mark(sets[..k + 1], jobs, jobs[i])
        {
          assert marked[j] == Mark(sets[..k], jobs, jobs[j]);
          if marked[j].backend == sets[k].backend {
            if marked[j].pos >= start && marked[j].pos <= end {
              marked := marked[j := marked[j].(start := start)];
            }
          }
        }
        requests := requests + [Request(sets[k].backend, start, end - start + 1)];
      }
    }
    assert sets[..|sets|] == sets;
  }

  // ---------- gather ----------

  /** The records the replies hold for the marked jobs; a job whose record did not come is passed over. */
  function Gathered<R>(marked: seq<PresentJob>, replies: map<nat, Reply<R>>): (records: seq<(nat, R)>)
    requires forall i :: 0 <= i < |marked| ==> marked[i].backend in replies && marked[i].pos >= marked[i].start
  {
    if marked == [] then []
    else
      var job := marked[|marked| - 1];
      var inside := job.pos - job.start;
      var reply := replies[job.backend];
      Gathered(marked[..|marked| - 1], replies) +
        if reply.Records? && inside < |reply.records| then [(job.backend, reply.records[inside])] else []
  }

  /** The target's reply holds the record of the job. */
  predicate Came<R>(job: PresentJob, reply: Reply<R>) {
    reply.Records? && 0 <= job.pos - job.start < |reply.records|
  }

  /** records are those of the jobs numbered by from, which are exactly the jobs whose record came, in order. */
  ghost predicate ComeFrom<R>(marked: seq<PresentJob>, replies: map<nat, Reply<R>>, records: seq<(nat, R)>, from: seq<nat>)
    requires forall i :: 0 <= i < |marked| ==> marked[i].backend in replies
  {
    && |from| == |records|
    && (forall k, l :: 0 <= k < l < |from| ==> from[k] < from[l])
    && (forall i: nat :: i in from <==> i < |marked| && Came(marked[i], replies[marked[i].backend]))
    && (forall k :: 0 <= k < |from| && from[k] < |marked| && Came(marked[from[k]], replies[marked[from[k]].backend]) ==>
          var job := marked[from[k]];
          records[k] == (job.backend, replies[job.backend].records[job.pos - job.start]))
  }

  lemma ComeFromNext<R>(marked: seq<PresentJob>, replies: map<nat, Reply<R>>, records: seq<(nat, R)>, from: seq<nat>, j: nat)
    requires j < |marked| && forall i :: 0 <= i < |marked| ==> marked[i].backend in replies
    requires ComeFrom(marked[..j], replies, records, from)
    ensures var job := marked[j];
            if Came(job, replies[job.backend])
            then ComeFrom(marked[..j + 1], replies, records + [(job.backend, replies[job.backend].records[job.pos - job.start])], from + [j])
            else ComeFrom(marked[..j + 1], replies, records, from)
  {
    var next := marked[..j + 1];
    assert forall i :: 0 <= i < j ==> next[i] == marked[..j][i];
    forall k | 0 <= k < |from| ensures from[k] < j && next[from[k]] == marked[..j][from[k]] { assert from[k] in from; }
    var job := marked[j];
    if Came(job, replies[job.backend]) {
      var (more, records') := (from + [j], records + [(job.backend, replies[job.backend].records[job.pos - job.start])]);
      forall i: nat ensures i in more <==> i < j + 1 && Came(next[i], replies[next[i].backend]) {
        assert i in more <==> i in from || i == j;
      }
      assert forall k :: 0 <= k < |more| ==> more[k] == if k < |from| then from[k] else j;
      assert ComeFrom(next, replies, records', more);
    }
  }

  /** The records come from exactly the jobs whose target has sent theirs, one each, in the order of the
      jobs; the others are passed over. */
  method Gather<R>(marked: seq<PresentJob>, replies: map<nat, Reply<R>>) returns (records: seq<(nat, R)>, ghost from: seq<nat>)
    requires forall i :: 0 <= i < |marked| ==> marked[i].backend in replies && marked[i].pos >= marked[i].start
    ensures records == Gathered(marked, replies)
    ensures ComeFrom(marked, replies, records, from)
  {
    hide ComeFrom;
    records, from := [], [];
    ComeFromNone(marked, replies);
    for j := 0 to |marked|
      invariant records == Gathered(marked[..j], replies)
      invariant ComeFrom(marked[..j], replies, records, from)
    {
      ComeFromNext(marked, replies, records, from, j);
      assert marked[..j + 1][..j] == marked[..j];
      var inside := marked[j].pos - marked[j].start;
      var reply := replies[marked[j].backend];
      if reply.Records? && inside < |reply.records| {
        records := records + [(marked[j].backend, reply.records[inside])];
        from := from + [j];
      }
    }
    assert marked[..|marked|] == marked;
  }

  lemma ComeFromNone<R>(marked: seq<PresentJob>, replies: map<nat, Reply<R>>)
    ensures ComeFrom(marked[..0], replies, [], [])
  {
  }
}
