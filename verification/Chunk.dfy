/** Fetching a Present in chunks, src/filter_present_chunk.cpp:92-172. */
module Chunk {

  /** What comes back for a Present: records, some other response, or a closed session. */
  datatype Answer<R> = Records(records: seq<R>) | Unusable(response: int) | SessionClosed

  datatype Request = Request(start: int, number: int)

  /** The answer to a request; the same request may be answered differently in another pass of the loop. */
  type Backend<!R> = (nat, Request) -> Answer<R>

  /** What the client gets. */
  datatype Outcome<R> = Built(records: seq<R>) | Relayed(response: int) | Closed

  /** Between two passes: so much has been fetched, a record has been written behind the array, or the
      loop has ended. */
  datatype State<R> = Running(fetched: seq<R>) | Overrun | Done(outcome: Outcome<R>)

  /** The size of the next chunk. */
  function Ask(left: int, chunk: int): int { if left > chunk then chunk else left }

  function Next(start: int, total: int, chunk: int, offset: int): Request {
    Request(start + offset, Ask(total - offset, chunk))
  }

  predicate Sends<R>(state: State<R>, total: int) {
    state.Running? && |state.fetched| < total
  }

  /** Pass k of the loop, with the test in front of it. */
  function Pass<R>(backend: Backend<R>, start: int, total: int, chunk: int, k: nat, state: State<R>): State<R> {
    if !state.Running? then state
    else if |state.fetched| >= total then Done(Built(state.fetched))
    else
      match backend(k, Next(start, total, chunk, |state.fetched|))
      case SessionClosed => Done(Closed)
      case Unusable(response) => Done(Relayed(response))
      case Records(records) =>
        if |records| > total - |state.fetched| then Overrun else Running(state.fetched + records)
  }

  function After<R>(backend: Backend<R>, start: int, total: int, chunk: int, n: nat): State<R> {
    if n == 0 then Running([]) else Pass(backend, start, total, chunk, n - 1, After(backend, start, total, chunk, n - 1))
  }

  lemma {:induction false} EndStays<R>(backend: Backend<R>, start: int, total: int, chunk: int, m: nat, n: nat)
    requires m <= n && !After(backend, start, total, chunk, m).Running?
    ensures After(backend, start, total, chunk, n) == After(backend, start, total, chunk, m)
  {
    if m < n { EndStays(backend, start, total, chunk, m, n - 1); }
  }

  /** The loop that copies the records of one answer behind those of the earlier ones. */
  method CopyTo<R>(records: array<R>, offset: nat, fetched: seq<R>)
    requires offset + |fetched| <= records.Length
    modifies records
    ensures records[..offset + |fetched|] == old(records[..offset]) + fetched
  {
    var i: nat := 0;
    while i < |fetched|
      invariant i <= |fetched| && records[..offset] == old(records[..offset]) && records[offset..offset + i] == fetched[..i]
    {
      records[offset + i] := fetched[i];
      i := i + 1;
    }
    assert records[..offset + i] == records[..offset] + records[offset..offset + i];
  }

  /** The loop, where it ends: after that many passes at the latest. */
  method ChunkIt<R(0)>(backend: Backend<R>, start: int, total: int, chunk: int, ghost passes: nat) returns (state: State<R>)
    requires !After(backend, start, total, chunk, passes).Running?
    ensures state == After(backend, start, total, chunk, passes)
  {
    hide After;
    var records := new R[if total > 0 then total else 0];
    var offset: nat := 0;
    var k: nat := 0;
    AfterNone(backend, start, total, chunk);
    while offset < total
      invariant offset <= records.Length && k <= passes
      invariant After(backend, start, total, chunk, k) == Running(records[..offset])
      decreases passes - k
    {
      var left := total - offset;
      var answer := backend(k, Request(start + offset, if left > chunk then chunk else left));
      AfterNext(backend, start, total, chunk, k, passes);
      match answer {
        case SessionClosed =>
          return Done(Closed);
        case Unusable(response) =>
          return Done(Relayed(response));
        case Records(fetched) =>
          if |fetched| > left {
            return Overrun;
          }
          CopyTo(records, offset, fetched);
          offset := offset + |fetched|;
      }
      k := k + 1;
    }
    AfterNext(backend, start, total, chunk, k, passes);
    return Done(Built(records[..offset]));
  }

  lemma AfterNone<R>(backend: Backend<R>, start: int, total: int, chunk: int)
    ensures After(backend, start, total, chunk, 0) == Running([])
  {
  }

  lemma AfterNext<R>(backend: Backend<R>, start: int, total: int, chunk: int, k: nat, passes: nat)
    requires k <= passes && After(backend, start, total, chunk, k).Running? && !After(backend, start, total, chunk, passes).Running?
    ensures k < passes
    ensures var next := Pass(backend, start, total, chunk, k, After(backend, start, total, chunk, k));
            && After(backend, start, total, chunk, k + 1) == next
            && (!next.Running? ==> After(backend, start, total, chunk, passes) == next)
  {
    if !After(backend, start, total, chunk, k + 1).Running? { EndStays(backend, start, total, chunk, k + 1, passes); }
  }

  // ---------- when it ends ----------

  lemma {:induction false} FetchedGrows<R>(backend: Backend<R>, start: int, total: int, chunk: int, m: nat, n: nat)
    requires m <= n && After(backend, start, total, chunk, n).Running?
    ensures var (a, b) := (After(backend, start, total, chunk, m), After(backend, start, total, chunk, n));
            a.Running? && a.fetched <= b.fetched && (|b.fetched| <= total || b.fetched == [])
  {
    if m < n {
      FetchedGrows(backend, start, total, chunk, m, n - 1);
    } else if n > 0 {
      FetchedGrows(backend, start, total, chunk, n - 1, n - 1);
    }
  }

  /** From pass k on the loop asks for the same records again and again, and gets none. */
  ghost predicate StuckFrom<R>(backend: Backend<R>, start: int, total: int, chunk: int, k: nat) {
    var state := After(backend, start, total, chunk, k);
    Sends(state, total) && forall n :: k <= n ==> NoneIn(backend(n, Next(start, total, chunk, |state.fetched|)))
  }

  predicate NoneIn<R>(answer: Answer<R>) {
    answer.Records? && answer.records == []
  }

  ghost predicate Ends<R>(backend: Backend<R>, start: int, total: int, chunk: int) {
    exists n :: !After(backend, start, total, chunk, n).Running?
  }

  lemma {:induction false} StuckStays<R>(backend: Backend<R>, start: int, total: int, chunk: int, k: nat, n: nat)
    requires StuckFrom(backend, start, total, chunk, k) && k <= n
    ensures After(backend, start, total, chunk, n) == After(backend, start, total, chunk, k)
  {
    if k < n {
      StuckStays(backend, start, total, chunk, k, n - 1);
      assert NoneIn(backend(n - 1, Next(start, total, chunk, |After(backend, start, total, chunk, k).fetched|)));
    }
  }

  lemma StillRuns<R>(backend: Backend<R>, start: int, total: int, chunk: int, n: nat)
    requires !Ends(backend, start, total, chunk)
    ensures Sends(After(backend, start, total, chunk, n), total)
    ensures After(backend, start, total, chunk, n + 1).Running?
  {
    assert After(backend, start, total, chunk, n).Running?;
    assert After(backend, start, total, chunk, n + 1).Running?;
  }

  /** If it never ends, it gets stuck: there are only so many records left to fetch. */
  lemma {:induction false} GetsStuck<R>(backend: Backend<R>, start: int, total: int, chunk: int, k: nat) returns (j: nat)
    requires !Ends(backend, start, total, chunk) && After(backend, start, total, chunk, k).Running?
    ensures StuckFrom(backend, start, total, chunk, j)
    decreases total - |After(backend, start, total, chunk, k).fetched|
  {
    hide Ends, NoneIn, Ask;
    var state := After(backend, start, total, chunk, k);
    StillRuns(backend, start, total, chunk, k);
    if StuckFrom(backend, start, total, chunk, k) {
      j := k;
    } else {
      var n :| k <= n && !NoneIn(backend(n, Next(start, total, chunk, |state.fetched|)));
      StillRuns(backend, start, total, chunk, n);
      FetchedGrows(backend, start, total, chunk, k, n);
      Grows(backend, start, total, chunk, k, n);
      j := GetsStuck(backend, start, total, chunk, n + 1);
    }
  }

  lemma Grows<R>(backend: Backend<R>, start: int, total: int, chunk: int, k: nat, n: nat)
    requires After(backend, start, total, chunk, k).Running? && After(backend, start, total, chunk, n).Running?
    requires Sends(After(backend, start, total, chunk, n), total) && After(backend, start, total, chunk, n + 1).Running?
    requires After(backend, start, total, chunk, k).fetched <= After(backend, start, total, chunk, n).fetched
    requires !NoneIn(backend(n, Next(start, total, chunk, |After(backend, start, total, chunk, k).fetched|)))
    ensures |After(backend, start, total, chunk, n + 1).fetched| > |After(backend, start, total, chunk, k).fetched|
  {
  }

  /** The loop runs for ever if and only if from some pass on every answer holds no records. */
  lemma EndsUnlessStuck<R>(backend: Backend<R>, start: int, total: int, chunk: int)
    ensures !Ends(backend, start, total, chunk) <==> exists k :: StuckFrom(backend, start, total, chunk, k)
  {
    hide StuckFrom, NoneIn, Pass;
    if k :| StuckFrom(backend, start, total, chunk, k) {
      forall n: nat ensures After(backend, start, total, chunk, n).Running? { StuckRuns(backend, start, total, chunk, k, n); }
    } else if !Ends(backend, start, total, chunk) {
      AfterNone(backend, start, total, chunk);
      var j := GetsStuck(backend, start, total, chunk, 0);
    }
  }

  lemma StuckRuns<R>(backend: Backend<R>, start: int, total: int, chunk: int, k: nat, n: nat)
    requires StuckFrom(backend, start, total, chunk, k)
    ensures After(backend, start, total, chunk, n).Running?
  {
    if n < k {
      FetchedGrows(backend, start, total, chunk, n, k);
    } else {
      StuckStays(backend, start, total, chunk, k, n);
    }
  }

  /** The backend answers a request the same way whenever it is sent. */
  ghost predicate Repeats<R(!new)>(backend: Backend<R>) {
    forall j, k, request :: backend(j, request) == backend(k, request)
  }

  /** If records come in answer to the request of pass n, there is at least one, and there is room for them. */
  ghost predicate Proper<R>(backend: Backend<R>, start: int, total: int, chunk: int, n: nat) {
    var state := After(backend, start, total, chunk, n);
    Sends(state, total) ==>
      var answer := backend(n, Next(start, total, chunk, |state.fetched|));
      answer.Records? ==> 1 <= |answer.records| <= total - |state.fetched|
  }

  lemma ImproperFails<R(!new)>(backend: Backend<R>, start: int, total: int, chunk: int, n: nat)
    requires Repeats(backend) && !Proper(backend, start, total, chunk, n)
    ensures After(backend, start, total, chunk, n + 1).Overrun? || StuckFrom(backend, start, total, chunk, n)
  {
    hide Ask;
    var request := Next(start, total, chunk, |After(backend, start, total, chunk, n).fetched|);
    if NoneIn(backend(n, request)) {
      forall j: nat | n <= j ensures NoneIn(backend(j, request)) { Same(backend, n, j, request); }
    }
  }

  lemma Same<R(!new)>(backend: Backend<R>, j: nat, k: nat, request: Request)
    requires Repeats(backend)
    ensures backend(j, request) == backend(k, request)
  {
  }

  lemma NeverDone<R>(backend: Backend<R>, start: int, total: int, chunk: int, k: nat, n: nat)
    requires After(backend, start, total, chunk, k).Overrun? || StuckFrom(backend, start, total, chunk, k)
    ensures !After(backend, start, total, chunk, n).Done?
  {
    if StuckFrom(backend, start, total, chunk, k) {
      StuckRuns(backend, start, total, chunk, k, n);
    } else if k <= n {
      EndStays(backend, start, total, chunk, k, n);
    } else if !After(backend, start, total, chunk, n).Running? {
      EndStays(backend, start, total, chunk, n, k);
    }
  }

  lemma ProperNotStuck<R>(backend: Backend<R>, start: int, total: int, chunk: int, k: nat)
    requires Proper(backend, start, total, chunk, k)
    ensures !StuckFrom(backend, start, total, chunk, k)
  {
    var state := After(backend, start, total, chunk, k);
    assert Sends(state, total) ==> !NoneIn(backend(k, Next(start, total, chunk, |state.fetched|)));
  }

  lemma {:induction false} ProperInBounds<R>(backend: Backend<R>, start: int, total: int, chunk: int, n: nat)
    requires forall k :: Proper(backend, start, total, chunk, k)
    ensures !After(backend, start, total, chunk, n).Overrun?
  {
    hide Ask;
    if n > 0 {
      ProperInBounds(backend, start, total, chunk, n - 1);
      assert Proper(backend, start, total, chunk, n - 1);
    }
  }

  /** With such a backend the loop ends, and within the bounds of its array, if and only if every
      request it sends is answered properly. */
  lemma EndsInBounds<R(!new)>(backend: Backend<R>, start: int, total: int, chunk: int)
    requires Repeats(backend)
    ensures (exists n :: After(backend, start, total, chunk, n).Done?) <==> (forall n :: Proper(backend, start, total, chunk, n))
  {
    hide After, NoneIn, StuckFrom, Proper, Repeats;
    if forall n :: Proper(backend, start, total, chunk, n) {
      EndsUnlessStuck(backend, start, total, chunk);
      forall k: nat ensures !StuckFrom(backend, start, total, chunk, k) { ProperNotStuck(backend, start, total, chunk, k); }
      var n :| !After(backend, start, total, chunk, n).Running?;
      ProperInBounds(backend, start, total, chunk, n);
    } else {
      var k: nat :| !Proper(backend, start, total, chunk, k);
      ImproperFails(backend, start, total, chunk, k);
      var j: nat := if StuckFrom(backend, start, total, chunk, k) then k else k + 1;
      forall n: nat ensures !After(backend, start, total, chunk, n).Done? { NeverDone(backend, start, total, chunk, j, n); }
    }
  }

  function NoRecords(k: nat, request: Request): Answer<int> { Records([]) }

  function TwoRecords(k: nat, request: Request): Answer<int> { Records([7, 8]) }

  /** A backend that answers without records is asked for ever. */
  lemma AskedForEver(total: int, chunk: int, n: nat)
    requires total > 0
    ensures After(NoRecords, 1, total, chunk, n) == Running([])
  {
    AfterNone(NoRecords, 1, total, chunk);
    StuckStays(NoRecords, 1, total, chunk, 0, n);
  }

  /** A backend that sends one record too many: the second is written behind the array. */
  lemma OneTooMany()
    ensures After(TwoRecords, 1, 1, 10, 1) == Overrun
  {
    AfterNone(TwoRecords, 1, 1, 10);
  }

  // ---------- what is asked for, and what comes back ----------

  /** Every request is for a whole chunk or for all that is left, within the range that was asked for,
      and begins behind the records that have come. */
  lemma RequestsInRange<R>(backend: Backend<R>, start: int, total: int, chunk: int, n: nat)
    requires chunk > 0 && Sends(After(backend, start, total, chunk, n), total)
    ensures var offset := |After(backend, start, total, chunk, n).fetched|;
            var request := Next(start, total, chunk, offset);
            && 1 <= request.number <= chunk && start <= request.start && request.start + request.number <= start + total
            && (request.number == chunk || request.start + request.number == start + total)
            && (n == 0 ==> request.start == start)
            && (n > 0 ==>
                  var before := After(backend, start, total, chunk, n - 1);
                  && Sends(before, total)
                  && var last := Next(start, total, chunk, |before.fetched|);
                     backend(n - 1, last).Records? && request.start == last.start + |backend(n - 1, last).records|)
  {
    hide Ask;
    AskFits(total - |After(backend, start, total, chunk, n).fetched|, chunk);
  }

  lemma AskFits(left: int, chunk: int)
    requires left > 0 && chunk > 0
    ensures 1 <= Ask(left, chunk) <= chunk && Ask(left, chunk) <= left && (Ask(left, chunk) == chunk || Ask(left, chunk) == left)
  {
  }

  /** The backend holds this result set, and answers from it any request within it. */
  ghost predicate Holds<R(!new)>(backend: Backend<R>, set': seq<R>) {
    forall k, start, number :: 1 <= start && 1 <= number && start - 1 + number <= |set'| ==>
      Consecutive(backend(k, Request(start, number)), set', start, number)
  }

  ghost predicate Consecutive<R>(answer: Answer<R>, set': seq<R>, start: int, number: int)
    requires 1 <= start && 1 <= number && start - 1 + number <= |set'|
  {
    answer.Records? && 1 <= |answer.records| <= number && answer.records == set'[start - 1..start - 1 + |answer.records|]
  }

  lemma HoldsAt<R(!new)>(backend: Backend<R>, set': seq<R>, k: nat, start: int, number: int)
    requires Holds(backend, set') && 1 <= start && 1 <= number && start - 1 + number <= |set'|
    ensures Consecutive(backend(k, Request(start, number)), set', start, number)
  {
  }

  lemma SlicesJoin<R>(s: seq<R>, from: nat, a: nat, b: nat)
    requires from + a + b <= |s|
    ensures s[from..from + a] + s[from + a..from + a + b] == s[from..from + a + b]
  {
  }

  lemma {:induction false} FetchedIsSlice<R(!new)>(backend: Backend<R>, set': seq<R>, start: int, total: int, chunk: int, n: nat)
    requires Holds(backend, set') && chunk > 0 && 1 <= start && 0 <= total && start - 1 + total <= |set'|
    ensures match After(backend, start, total, chunk, n)
            case Running(fetched) =>
              |fetched| <= total && (|fetched| >= n || |fetched| == total) && fetched == set'[start - 1..start - 1 + |fetched|]
            case Overrun => false
            case Done(outcome) => n > 0 && outcome == Built(set'[start - 1..start - 1 + total])
  {
    hide Holds;
    if n > 0 {
      FetchedIsSlice(backend, set', start, total, chunk, n - 1);
      var state := After(backend, start, total, chunk, n - 1);
      if Sends(state, total) {
        var offset := |state.fetched|;
        var request := Next(start, total, chunk, offset);
        AskFits(total - offset, chunk);
        HoldsAt(backend, set', n - 1, request.start, request.number);
        SlicesJoin(set', start - 1, offset, |backend(n - 1, request).records|);
      }
    }
  }

  /** The client gets exactly the records it asked for, in order, whatever the chunk size and however
      little each answer holds. */
  lemma ChunksAreExact<R(!new)>(backend: Backend<R>, set': seq<R>, start: int, total: int, chunk: int)
    requires Holds(backend, set') && chunk > 0 && 1 <= start && 0 <= total && start - 1 + total <= |set'|
    ensures After(backend, start, total, chunk, total + 1) == Done(Built(set'[start - 1..start - 1 + total]))
  {
    hide Holds;
    FetchedIsSlice(backend, set', start, total, chunk, total);
    FetchedIsSlice(backend, set', start, total, chunk, total + 1);
  }

  /** What the loop ends with: all the records, or the first response that has none. */
  lemma {:induction false} FailureIsRelayed<R>(backend: Backend<R>, start: int, total: int, chunk: int, n: nat)
    requires After(backend, start, total, chunk, n).Done?
    ensures var outcome := After(backend, start, total, chunk, n).outcome;
            if outcome.Built? then
              |outcome.records| == if total > 0 then total else 0
            else
              exists k :: 0 <= k < n && Fails(backend, start, total, chunk, k, outcome)
  {
    hide Ask;
    var before := After(backend, start, total, chunk, n - 1);
    if before.Done? {
      FailureIsRelayed(backend, start, total, chunk, n - 1);
    } else {
      FetchedGrows(backend, start, total, chunk, 0, n - 1);
      if |before.fetched| < total {
        assert Fails(backend, start, total, chunk, n - 1, After(backend, start, total, chunk, n).outcome);
      }
    }
  }

  /** The request of pass k is the first that is not answered with records. */
  ghost predicate Fails<R>(backend: Backend<R>, start: int, total: int, chunk: int, k: nat, outcome: Outcome<R>) {
    var state := After(backend, start, total, chunk, k);
    && Sends(state, total)
    && backend(k, Next(start, total, chunk, |state.fetched|)) == if outcome.Relayed? then Unusable(outcome.response) else SessionClosed
  }
}
