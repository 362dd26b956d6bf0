/** The sorted record lists of the sort filter: how they are filled, sorted and read,
    src/filter_sort.cpp:328-353 and 507-569. */
module SortWindows {
  import opened Ordering
  import opened Options

  /** A record with the text its XPath expression selects. */
  datatype Record = Record(data: string, score: string)

  // ---------- a stable sort ----------

  /** Behind everything that does not come after it. */
  function Insert(x: Record, s: seq<Record>): seq<Record> {
    if s == [] then [x]
    else if Less(x.score, s[0].score) then [x] + s
    else [s[0]] + Insert(x, s[1..])
  }

  /** std::list::sort, which is stable. */
  function Sorted(s: seq<Record>): seq<Record> {
    if s == [] then [] else Insert(s[|s| - 1], Sorted(s[..|s| - 1]))
  }

  ghost predicate Ascending(s: seq<Record>) {
    forall i, j :: 0 <= i < j < |s| ==> !Less(s[j].score, s[i].score)
  }

  /** The records with one score, in order. */
  function WithScore(s: seq<Record>, score: string): seq<Record> {
    if s == [] then [] else OwnScore(s[0], score) + WithScore(s[1..], score)
  }

  function OwnScore(x: Record, score: string): seq<Record> {
    if x.score == score then [x] else []
  }

  lemma WithScoreFirst(x: Record, s: seq<Record>, score: string)
    ensures WithScore([x] + s, score) == OwnScore(x, score) + WithScore(s, score)
  {
    assert ([x] + s)[1..] == s;
  }

  lemma {:induction false} WithScoreConcat(a: seq<Record>, b: seq<Record>, score: string)
    ensures WithScore(a + b, score) == WithScore(a, score) + WithScore(b, score)
  {
    if a == [] {
      assert a + b == b;
    } else {
      WithScoreConcat(a[1..], b, score);
      assert a + b == [a[0]] + (a[1..] + b);
      WithScoreFirst(a[0], a[1..] + b, score);
      Associative(OwnScore(a[0], score), WithScore(a[1..], score), WithScore(b, score));
    }
  }

  lemma Associative(a: seq<Record>, b: seq<Record>, c: seq<Record>)
    ensures a + (b + c) == (a + b) + c
  {
  }

  lemma {:induction false} InsertWithScore(x: Record, s: seq<Record>, score: string)
    requires Ascending(s)
    ensures WithScore(Insert(x, s), score) == WithScore(s, score) + if x.score == score then [x] else []
  {
    hide Less, Ascending;
    if s == [] {
      WithScoreFirst(x, [], score);
    } else if Less(x.score, s[0].score) {
      WithScoreFirst(x, s, score);
      if x.score == score { LaterScores(s, score); }
    } else {
      RestAscending(s);
      InsertWithScore(x, s[1..], score);
      WithScoreFirst(s[0], Insert(x, s[1..]), score);
    }
  }

  lemma {:induction false} LaterScores(s: seq<Record>, score: string)
    requires Ascending(s) && s != [] && Less(score, s[0].score)
    ensures WithScore(s, score) == []
  {
    LessIsStrictTotal(score, s[0].score);
    if |s| > 1 {
      RestAscending(s);
      assert !Less(s[1].score, s[0].score);
      LessIsStrictTotal(s[0].score, s[1].score);
      if s[0].score != s[1].score { LessTransitive(score, s[0].score, s[1].score); }
      LaterScores(s[1..], score);
    }
  }

  lemma RestAscending(s: seq<Record>)
    requires Ascending(s) && s != []
    ensures Ascending(s[1..])
  {
    forall i, j | 0 <= i < j < |s[1..]| ensures !Less(s[1..][j].score, s[1..][i].score) {
      assert !Less(s[j + 1].score, s[i + 1].score);
    }
  }

  lemma {:induction false} InsertAscending(x: Record, s: seq<Record>)
    requires Ascending(s)
    ensures Ascending(Insert(x, s))
    ensures multiset(Insert(x, s)) == multiset(s) + multiset{x}
  {
    if s != [] {
      if Less(x.score, s[0].score) {
        FirstAscending(x, s);
      } else {
        RestAscending(s);
        InsertAscending(x, s[1..]);
        var r := Insert(x, s[1..]);
        assert s == [s[0]] + s[1..];
        forall k | 0 <= k < |r| ensures !Less(r[k].score, s[0].score) {
          assert r[k] in multiset(r);
          if r[k] != x {
            assert r[k] in multiset(s[1..]);
            var i :| 0 <= i < |s[1..]| && s[1..][i] == r[k];
            assert !Less(s[i + 1].score, s[0].score);
          }
        }
        ConsAscending(s[0], r);
      }
    }
  }

  lemma ConsAscending(x: Record, s: seq<Record>)
    requires Ascending(s) && forall k :: 0 <= k < |s| ==> !Less(s[k].score, x.score)
    ensures Ascending([x] + s)
  {
  }

  lemma FirstAscending(x: Record, s: seq<Record>)
    requires Ascending(s) && s != [] && Less(x.score, s[0].score)
    ensures Ascending([x] + s)
  {
    forall k | 0 <= k < |s| ensures !Less(s[k].score, x.score) {
      LessIsStrictTotal(x.score, s[0].score);
      if k > 0 && Less(s[k].score, x.score) {
        LessTransitive(s[k].score, x.score, s[0].score);
        assert false;
      }
    }
    ConsAscending(x, s);
  }

  /** Sorted is the stable sort: ascending, the same records, and those of equal score in their order. */
  lemma {:induction false} SortedIsStable(s: seq<Record>, score: string)
    ensures Ascending(Sorted(s)) && multiset(Sorted(s)) == multiset(s) && |Sorted(s)| == |s|
    ensures WithScore(Sorted(s), score) == WithScore(s, score)
  {
    hide Ascending, Insert, Less;
    if s == [] {
      NothingAscending();
    } else {
      var (init, last) := (s[..|s| - 1], s[|s| - 1]);
      SortedIsStable(init, score);
      InsertAscending(last, Sorted(init));
      InsertWithScore(last, Sorted(init), score);
      assert s == init + [last];
      WithScoreConcat(init, [last], score);
      WithScoreFirst(last, [], score);
      hide WithScore;
      SameSize(Sorted(s), s);
    }
  }

  lemma NothingAscending()
    ensures Ascending([])
  {
  }

  lemma SameSize(a: seq<Record>, b: seq<Record>)
    requires multiset(a) == multiset(b)
    ensures |a| == |b|
  {
    assert |multiset(a)| == |a| && |multiset(b)| == |b|;
  }

  /** Two ascending lists with the same records of every score, in the same order, are the same. */
  lemma {:induction false} StableIsUnique(a: seq<Record>, b: seq<Record>)
    requires Ascending(a) && Ascending(b) && forall score :: WithScore(a, score) == WithScore(b, score)
    ensures a == b
    decreases |a| + |b|
  {
    hide Less, Ascending;
    if a != [] && b != [] {
      var (x, y) := (a[0].score, b[0].score);
      assert WithScore(a, x) == WithScore(b, x) && WithScore(a, y) == WithScore(b, y);
      if Less(x, y) { LaterScores(b, x); }
      if Less(y, x) { LaterScores(a, y); }
      LessIsStrictTotal(x, y);
      assert a[0] == WithScore(a, x)[0] == b[0];
      RestAscending(a);
      RestAscending(b);
      forall score ensures WithScore(a[1..], score) == WithScore(b[1..], score) {
        assert a == [a[0]] + a[1..] && b == [b[0]] + b[1..];
        WithScoreFirst(a[0], a[1..], score);
        WithScoreFirst(b[0], b[1..], score);
        assert WithScore(a, score) == WithScore(b, score);
        if x == score {
          assert ([a[0]] + WithScore(a[1..], score))[1..] == WithScore(a[1..], score);
          assert ([b[0]] + WithScore(b[1..], score))[1..] == WithScore(b[1..], score);
        } else {
          assert [] + WithScore(a[1..], score) == WithScore(a[1..], score);
          assert [] + WithScore(b[1..], score) == WithScore(b[1..], score);
        }
      }
      StableIsUnique(a[1..], b[1..]);
      assert a == [a[0]] + a[1..] && b == [b[0]] + b[1..];
    } else {
      SameEmpty(a, b);
      SameEmpty(b, a);
    }
  }

  lemma SameEmpty(a: seq<Record>, b: seq<Record>)
    requires forall score :: WithScore(a, score) == WithScore(b, score)
    ensures a != [] ==> b != []
  {
    if a != [] {
      assert WithScore(a, a[0].score) == WithScore(b, a[0].score) && a[0] in WithScore(a, a[0].score);
    }
  }

  // ---------- reading a list ----------

  /** The order in which a list is presented. */
  function Order(list: seq<Record>, ascending: bool): (r: seq<Record>)
    ensures |r| == |list|
  {
    if ascending then list else Reversed(list)
  }

  function Reversed(s: seq<Record>): (r: seq<Record>)
    ensures |r| == |s| && forall k :: 0 <= k < |s| ==> r[k] == s[|s| - 1 - k]
  {
    if s == [] then [] else Reversed(s[1..]) + [s[0]]
  }

  /** RecordList::get: the list is walked until the count has run out, so a count below zero gives the
      first record and one beyond the list gives none. */
  function Get(list: seq<Record>, pos: int, ascending: bool): Option<Record> {
    var i := if ascending then pos else |list| - pos - 1;
    if i >= |list| || list == [] then None else Some(list[if i <= 0 then 0 else i])
  }

  lemma GetInside(list: seq<Record>, pos: int, ascending: bool)
    requires 0 <= pos < |list|
    ensures Get(list, pos, ascending) == Some(Order(list, ascending)[pos])
  {
  }

  /** The records a Present answers from a list. */
  function Window(list: seq<Record>, start: int, number: int, ascending: bool): (r: seq<Option<Record>>)
    ensures |r| == if number > 0 then number else 0
  {
    seq(if number > 0 then number else 0, i requires 0 <= i => Get(list, i + start - 1, ascending))
  }

  function Somes(s: seq<Record>): (r: seq<Option<Record>>)
    ensures |r| == |s| && forall k :: 0 <= k < |s| ==> r[k] == Some(s[k])
  {
    seq(|s|, k requires 0 <= k < |s| => Some(s[k]))
  }

  /** A window that begins at 1 or later and ends within the list is the slice of the one order. */
  lemma WindowIsSlice(list: seq<Record>, start: int, number: int, ascending: bool)
    requires 1 <= start && 0 <= number && start - 1 + number <= |list|
    ensures Window(list, start, number, ascending) == Somes(Order(list, ascending)[start - 1..start - 1 + number])
  {
    hide Get, Order;
    var w := Window(list, start, number, ascending);
    forall i | 0 <= i < number ensures w[i] == Some(Order(list, ascending)[i + start - 1]) {
      GetInside(list, i + start - 1, ascending);
    }
  }

  /** A start below 1 is not checked: its first record is the first of the list when ascending, and
      missing when descending. */
  lemma StartBelowOne(list: seq<Record>, start: int, number: int, ascending: bool)
    requires start < 1 && 0 < number && list != []
    ensures Window(list, start, number, ascending)[0] == if ascending then Some(list[0]) else None
  {
    assert Window(list, start, number, ascending)[0] == Get(list, 0 + start - 1, ascending);
  }

  // ---------- filling a list ----------

  /** The backend's records for a Present of so many from a position; None for any other response. */
  type Backend = (int, int) -> Option<seq<Record>>

  /** The prefetch loop, when acc has been fetched and the last response held records (or not). */
  function Fetch(backend: Backend, acc: seq<Record>, more: bool, endPos: int): (r: seq<Record>)
    decreases endPos - |acc|, if more then 1 else 0
  {
    if !more || |acc| + 1 > endPos then acc
    else
      match backend(|acc| + 1, endPos - |acc|)
      case None => acc
      case Some(records) => if records == [] then acc else Fetch(backend, acc + records, true, endPos)
  }

  /** The backend answers from this result set, possibly with fewer records than were asked for. */
  ghost predicate Serves(backend: Backend, set': seq<Record>) {
    forall start, number :: 1 <= start && backend(start, number).Some? ==> Part(backend(start, number).value, set', start)
  }

  ghost predicate Part(records: seq<Record>, set': seq<Record>, start: int)
    requires 1 <= start
  {
    start - 1 + |records| <= |set'| && records == set'[start - 1..start - 1 + |records|]
  }

  /** What is fetched is the beginning of the backend's result set. */
  lemma {:induction false} FetchIsPrefix(backend: Backend, set': seq<Record>, acc: seq<Record>, more: bool, endPos: int)
    requires Serves(backend, set') && acc <= set'
    ensures acc <= Fetch(backend, acc, more, endPos) <= set'
    decreases endPos - |acc|, if more then 1 else 0
  {
    if more && |acc| + 1 <= endPos {
      var answer := backend(|acc| + 1, endPos - |acc|);
      if answer.Some? && answer.value != [] {
        assert Part(answer.value, set', |acc| + 1);
        assert acc + answer.value == set'[..|acc| + |answer.value|];
        FetchIsPrefix(backend, set', acc + answer.value, true, endPos);
      }
    }
  }

  /** A backend that answers every such request with something is fetched to the end position. */
  lemma {:induction false} FetchReachesEnd(backend: Backend, acc: seq<Record>, endPos: int)
    requires forall start, number :: 1 <= start && 1 <= number ==> backend(start, number).Some? && backend(start, number).value != []
    ensures |Fetch(backend, acc, true, endPos)| >= endPos
    decreases endPos - |acc|
  {
    if |acc| + 1 <= endPos {
      var answer := backend(|acc| + 1, endPos - |acc|);
      assert answer.Some? && answer.value != [];
      FetchReachesEnd(backend, acc + answer.value, endPos);
    }
  }

  /** A request within the first m records. */
  predicate Within(start: int, number: int, m: int) {
    1 <= start && 1 <= number && start - 1 + number <= m
  }

  /** Every request within the first m records is answered with at least one record, and with no more
      than were asked for. */
  ghost predicate AnswersWithin(backend: Backend, m: int) {
    forall start, number :: Within(start, number, m) ==>
      backend(start, number).Some? && 1 <= |backend(start, number).value| <= number
  }

  /** Such a backend is fetched up to m exactly, or not at all if more than that are there already. */
  lemma {:induction false} FetchIsExact(backend: Backend, set': seq<Record>, acc: seq<Record>, m: int)
    requires Serves(backend, set') && AnswersWithin(backend, m) && acc <= set'
    ensures (if |acc| > m then |acc| else m) <= |set'|
    ensures Fetch(backend, acc, true, m) == set'[..if |acc| > m then |acc| else m]
    decreases m - |acc|
  {
    if |acc| < m {
      var (start, number) := (|acc| + 1, m - |acc|);
      assert Within(start, number, m);
      var records := backend(start, number).value;
      assert Part(records, set', start);
      assert acc + records == set'[..|acc| + |records|];
      FetchIsExact(backend, set', acc + records, m);
    }
  }

  /** What is fetched depends on no answer to a request that reaches beyond m. */
  lemma {:induction false} FetchStaysWithin(backend: Backend, backend': Backend, acc: seq<Record>, more: bool, m: int)
    requires forall start, number :: Within(start, number, m) ==> backend'(start, number) == backend(start, number)
    ensures Fetch(backend', acc, more, m) == Fetch(backend, acc, more, m)
    decreases m - |acc|, if more then 1 else 0
  {
    if more && |acc| + 1 <= m {
      assert Within(|acc| + 1, m - |acc|, m);
      var answer := backend(|acc| + 1, m - |acc|);
      if answer.Some? && answer.value != [] { FetchStaysWithin(backend, backend', acc + answer.value, true, m); }
    }
  }
}
