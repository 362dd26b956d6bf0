/** Merging the term lists of several targets' Scan responses, src/filter_multi.cpp:994-1193. */
module ScanMerge {
  import opened Ordering
  import opened Options

  datatype ScanTermInfo = ScanTermInfo(term: string, count: int)

  /** An entry of a Scan response: term information, with the term if it is of the general kind and
      the number of occurrences if given, or something else. */
  datatype Entry = TermInfo(general: Option<string>, occurrences: Option<int>) | OtherEntry

  /** A target's answer: entries and, if given, the position of the requested term among them;
      a non-surrogate diagnostic; or something that is not a Scan response. */
  datatype TargetReply =
    | Scanned(entries: seq<Entry>, position: Option<int>)
    | Diagnostic(condition: int)
    | NotScan

  datatype Outcome =
    | Terms(entries: seq<ScanTermInfo>, position: int)
    | Overrun  // a term is written behind the array of the entries
    | Failed(condition: int)
    | Relayed(target: nat)

  // ---------- one side of the merge ----------

  /** The order of a list: terms after the requested one ascend, those before it descend. */
  predicate Before(descending: bool, a: ScanTermInfo, b: ScanTermInfo) {
    if descending then Less(b.term, a.term) else Less(a.term, b.term)
  }

  ghost predicate Sorted(descending: bool, list: seq<ScanTermInfo>) {
    forall i, j :: 0 <= i < j < |list| ==> Before(descending, list[i], list[j])
  }

  lemma BeforeFacts(d: bool, a: ScanTermInfo, b: ScanTermInfo)
    ensures !(Before(d, a, b) && Before(d, b, a))
    ensures a.term == b.term <==> !Before(d, a, b) && !Before(d, b, a)
  {
    LessIsStrictTotal(a.term, b.term);
  }

  lemma BeforeTransitive(d: bool, a: ScanTermInfo, b: ScanTermInfo, c: ScanTermInfo)
    requires Before(d, a, b) && Before(d, b, c)
    ensures Before(d, a, c)
  {
    if d { LessTransitive(c.term, b.term, a.term); } else { LessTransitive(a.term, b.term, c.term); }
  }

  /** The sum of the counts a list gives for a term. */
  function Total(list: seq<ScanTermInfo>, term: string): int {
    if list == [] then 0
    else Total(list[..|list| - 1], term) + if list[|list| - 1].term == term then list[|list| - 1].count else 0
  }

  predicate Mentions(list: seq<ScanTermInfo>, term: string) {
    exists i :: 0 <= i < |list| && list[i].term == term
  }

  lemma {:induction false} TotalConcat(a: seq<ScanTermInfo>, b: seq<ScanTermInfo>, t: string)
    ensures Total(a + b, t) == Total(a, t) + Total(b, t)
    ensures Mentions(a + b, t) <==> Mentions(a, t) || Mentions(b, t)
  {
    if b == [] {
      assert a + b == a;
    } else {
      var init, last := b[..|b| - 1], b[|b| - 1];
      TotalConcat(a, init, t);
      assert (a + b)[..|a + b| - 1] == a + init;
      if Mentions(a, t) {
        var i :| 0 <= i < |a| && a[i].term == t;
        assert (a + b)[i].term == t;
      }
      if Mentions(b, t) {
        var i :| 0 <= i < |b| && b[i].term == t;
        assert (a + b)[|a| + i].term == t;
      }
    }
  }

  lemma TotalOne(x: ScanTermInfo, t: string)
    ensures Total([x], t) == if x.term == t then x.count else 0
    ensures Mentions([x], t) <==> x.term == t
  {
    assert [x][..0] == [];
    assert [x][0].term == x.term;
  }

  /** Putting mid between two parts of a list adds mid to what the parts sum to. */
  lemma TotalBetween(a: seq<ScanTermInfo>, mid: ScanTermInfo, b: seq<ScanTermInfo>, t: string)
    ensures Total(a + [mid] + b, t) == Total(a, t) + Total(b, t) + if mid.term == t then mid.count else 0
    ensures Mentions(a + [mid] + b, t) <==> Mentions(a, t) || Mentions(b, t) || mid.term == t
  {
    hide Total, Mentions;
    TotalConcat(a + [mid], b, t);
    TotalConcat(a, [mid], t);
    TotalOne(mid, t);
  }

  lemma SortedBetween(d: bool, list: seq<ScanTermInfo>, it: nat, my: ScanTermInfo)
    requires Sorted(d, list) && it <= |list|
    requires forall i :: 0 <= i < it ==> Before(d, list[i], my)
    requires it < |list| ==> !Before(d, list[it], my) && my.term != list[it].term
    ensures Sorted(d, list[..it] + [my] + list[it..])
  {
    hide Before;
    if it < |list| {
      BeforeFacts(d, list[it], my);
      forall j | it < j < |list| ensures Before(d, my, list[j]) {
        BeforeTransitive(d, my, list[it], list[j]);
      }
    }
  }

  /** Adds one term to a sorted list: to the count of an equal term, or as a new element in its place. */
  method Insert(descending: bool, list: seq<ScanTermInfo>, my: ScanTermInfo) returns (r: seq<ScanTermInfo>)
    requires Sorted(descending, list)
    ensures Sorted(descending, r)
    ensures forall t :: Total(r, t) == Total(list, t) + if t == my.term then my.count else 0
    ensures forall t :: Mentions(r, t) <==> Mentions(list, t) || t == my.term
  {
    hide Total, Mentions;
    var it := 0;
    while it < |list| && Before(descending, list[it], my)
      invariant 0 <= it <= |list|
      invariant forall i :: 0 <= i < it ==> Before(descending, list[i], my)
    {
      it := it + 1;
    }
    assert list == list[..it] + list[it..];
    if it < |list| && my.term == list[it].term {
      r := list[it := list[it].(count := list[it].count + my.count)];
      assert list == list[..it] + [list[it]] + list[it + 1..];
      assert r == list[..it] + [r[it]] + list[it + 1..];
      forall t
        ensures Total(r, t) == Total(list, t) + if t == my.term then my.count else 0
        ensures Mentions(r, t) <==> Mentions(list, t) || t == my.term
      {
        TotalBetween(list[..it], list[it], list[it + 1..], t);
        TotalBetween(list[..it], r[it], list[it + 1..], t);
      }
      assert forall i :: 0 <= i < |list| ==> r[i].term == list[i].term;
    } else {
      r := list[..it] + [my] + list[it..];
      SortedBetween(descending, list, it, my);
      forall t
        ensures Total(r, t) == Total(list, t) + if t == my.term then my.count else 0
        ensures Mentions(r, t) <==> Mentions(list, t) || t == my.term
      {
        TotalBetween(list[..it], my, list[it..], t);
        TotalConcat(list[..it], list[it..], t);
      }
    }
  }

  // ---------- all targets ----------

  /** What one entry contributes: its term, if it is of the general kind and not empty. */
  function Own(entry: Entry): seq<ScanTermInfo> {
    if entry.TermInfo? && entry.general.Some? && entry.general.value != ""
    then [ScanTermInfo(entry.general.value, if entry.occurrences.Some? then entry.occurrences.value else 0)] else []
  }

  /** The terms a stretch of entries contributes: those of the general kind that are not empty. */
  function Usable(entries: seq<Entry>): (list: seq<ScanTermInfo>) {
    if entries == [] then []
    else Usable(entries[..|entries| - 1]) + Own(entries[|entries| - 1])
  }

  /** How many of the entries stand before the requested term. */
  function SplitAt(reply: TargetReply, preferred: int): (k: nat)
    requires reply.Scanned?
    ensures k <= |reply.entries|
  {
    var position := if reply.position.Some? then reply.position.value else preferred;
    if position <= 1 then 0 else if position - 1 > |reply.entries| then |reply.entries| else position - 1
  }

  /** Everything the targets report on one side of the requested term. */
  function Side(descending: bool, replies: seq<TargetReply>, preferred: int): (list: seq<ScanTermInfo>)
    requires forall r :: r in replies ==> r.Scanned?
  {
    if replies == [] then []
    else
      var last := replies[|replies| - 1];
      var k := SplitAt(last, preferred);
      Side(descending, replies[..|replies| - 1], preferred) +
        Usable(if descending then last.entries[..k] else last.entries[k..])
  }

  /** An entry that counts for term t: it names it, in the general form, and t is not empty. */
  predicate Names(entry: Entry, t: string) {
    t != "" && entry.TermInfo? && entry.general == Some(t)
  }

  /** The occurrences that the first n entries report of term t; one that reports none counts nothing. */
  function Reported(entries: seq<Entry>, n: nat, t: string): int
    requires n <= |entries|
  {
    if n == 0 then 0
    else Reported(entries, n - 1, t) + if Names(entries[n - 1], t) && entries[n - 1].occurrences.Some? then entries[n - 1].occurrences.value else 0
  }

  /** How many entries stand before the requested term, by the position the target gives, or else the
      preferred one. */
  function InFront(reply: TargetReply, preferred: int): (k: nat)
    requires reply.Scanned?
    ensures k <= |reply.entries|
  {
    var before := (if reply.position.Some? then reply.position.value else preferred) - 1;
    if before < 0 then 0 else if before > |reply.entries| then |reply.entries| else before
  }

  /** The sum over all targets of the occurrences of t in front of the requested term, or from it on. */
  function SumOver(descending: bool, replies: seq<TargetReply>, preferred: int, t: string): int
    requires forall r :: r in replies ==> r.Scanned?
  {
    if replies == [] then 0
    else
      var last := replies[|replies| - 1];
      var (k, n) := (InFront(last, preferred), |last.entries|);
      SumOver(descending, replies[..|replies| - 1], preferred, t)
      + if descending then Reported(last.entries, k, t) else Reported(last.entries, n, t) - Reported(last.entries, k, t)
  }

  lemma OwnTotal(entry: Entry, t: string)
    ensures Total(Own(entry), t) == if Names(entry, t) && entry.occurrences.Some? then entry.occurrences.value else 0
    ensures Mentions(Own(entry), t) <==> Names(entry, t)
  {
    hide Total;
    if Own(entry) == [] { TotalNothing(t); } else { TotalOne(Own(entry)[0], t); }
  }

  lemma UsableLast(entries: seq<Entry>)
    requires entries != []
    ensures Usable(entries) == Usable(entries[..|entries| - 1]) + Own(entries[|entries| - 1])
  {
  }

  ghost predicate Named(entries: seq<Entry>, t: string) {
    exists i :: 0 <= i < |entries| && Names(entries[i], t)
  }

  lemma NamedLast(entries: seq<Entry>, t: string)
    requires entries != []
    ensures Named(entries, t) <==> Named(entries[..|entries| - 1], t) || Names(entries[|entries| - 1], t)
  {
    hide Names;
    var init := entries[..|entries| - 1];
    if i :| 0 <= i < |init| && Names(init[i], t) { assert Names(entries[i], t); }
    if i :| 0 <= i < |entries| && Names(entries[i], t) {
      if i < |init| { assert Names(init[i], t); }
    }
  }

  lemma {:induction false} UsableTotal(entries: seq<Entry>, t: string)
    ensures Total(Usable(entries), t) == Reported(entries, |entries|, t)
    ensures Mentions(Usable(entries), t) <==> Named(entries, t)
  {
    hide Total, Own, Names, Mentions, Named;
    if entries == [] {
      TotalNothing(t);
      assert !Named([], t) by { NamedNone(t); }
    } else {
      var (init, last) := (entries[..|entries| - 1], entries[|entries| - 1]);
      UsableTotal(init, t);
      UsableLast(entries);
      hide Usable;
      ReportedPrefix(entries, |init|, |init|, t);
      TotalConcat(Usable(init), Own(last), t);
      OwnTotal(last, t);
      NamedLast(entries, t);
    }
  }

  lemma NamedNone(t: string)
    ensures !Named([], t)
  {
  }

  lemma {:induction false} ReportedPrefix(entries: seq<Entry>, k: nat, n: nat, t: string)
    requires n <= k <= |entries|
    ensures Reported(entries[..k], n, t) == Reported(entries, n, t)
  {
    if n > 0 { ReportedPrefix(entries, k, n - 1, t); }
  }

  lemma {:induction false} ReportedSuffix(entries: seq<Entry>, k: nat, n: nat, t: string)
    requires k <= n <= |entries|
    ensures Reported(entries[k..], n - k, t) == Reported(entries, n, t) - Reported(entries, k, t)
  {
    if k < n {
      ReportedSuffix(entries, k, n - 1, t);
      assert entries[k..][n - k - 1] == entries[n - 1];
    }
  }

  lemma SideLast(d: bool, replies: seq<TargetReply>, preferred: int)
    requires replies != [] && forall r :: r in replies ==> r.Scanned?
    ensures var (init, last) := (replies[..|replies| - 1], replies[|replies| - 1]);
            var k := InFront(last, preferred);
            Side(d, replies, preferred) == Side(d, init, preferred) + Usable(if d then last.entries[..k] else last.entries[k..])
  {
    hide Usable;
  }

  /** What a side adds up to is counted over the targets' own entries. */
  lemma {:induction false} SideTotal(d: bool, replies: seq<TargetReply>, preferred: int, t: string)
    requires forall r :: r in replies ==> r.Scanned?
    ensures Total(Side(d, replies, preferred), t) == SumOver(d, replies, preferred, t)
  {
    hide Usable, Total, Reported;
    if replies == [] {
      TotalNothing(t);
    } else {
      var (init, last) := (replies[..|replies| - 1], replies[|replies| - 1]);
      SideTotal(d, init, preferred, t);
      SideLast(d, replies, preferred);
      hide Side;
      var k := InFront(last, preferred);
      hide InFront;
      var own := if d then last.entries[..k] else last.entries[k..];
      UsableTotal(own, t);
      if d { ReportedPrefix(last.entries, k, k, t); } else { ReportedSuffix(last.entries, k, |last.entries|, t); }
      TotalConcat(Side(d, init, preferred), Usable(own), t);
    }
  }

  /** Term t is named in front of the requested term, or from it on, by some target. */
  ghost predicate NamedOver(d: bool, replies: seq<TargetReply>, preferred: int, t: string)
    requires forall r :: r in replies ==> r.Scanned?
  {
    exists i :: 0 <= i < |replies| && NamedIn(d, replies[i], preferred, t)
  }

  ghost predicate NamedIn(d: bool, reply: TargetReply, preferred: int, t: string)
    requires reply.Scanned?
  {
    Named(if d then reply.entries[..InFront(reply, preferred)] else reply.entries[InFront(reply, preferred)..], t)
  }

  /** And a side lists exactly the terms that are named there. */
  lemma {:induction false} SideMentions(d: bool, replies: seq<TargetReply>, preferred: int, t: string)
    requires forall r :: r in replies ==> r.Scanned?
    ensures Mentions(Side(d, replies, preferred), t) <==> NamedOver(d, replies, preferred, t)
  {
    hide Usable, Total, Reported, Mentions, Named, InFront;
    if replies == [] {
      TotalNothing(t);
    } else {
      var (init, last) := (replies[..|replies| - 1], replies[|replies| - 1]);
      SideMentions(d, init, preferred, t);
      SideLast(d, replies, preferred);
      hide Side;
      var k := InFront(last, preferred);
      var own := if d then last.entries[..k] else last.entries[k..];
      UsableTotal(own, t);
      TotalConcat(Side(d, init, preferred), Usable(own), t);
      hide NamedIn;
      if i :| 0 <= i < |init| && NamedIn(d, init[i], preferred, t) { assert replies[i] == init[i]; }
      if i :| 0 <= i < |replies| && NamedIn(d, replies[i], preferred, t) {
        if i < |init| { assert init[i] == replies[i]; }
      }
      assert replies[|init|] == last;
      assert NamedIn(d, last, preferred, t) <==> Named(own, t) by { NamedInIs(d, last, preferred, t); }
    }
  }

  lemma NamedInIs(d: bool, reply: TargetReply, preferred: int, t: string)
    requires reply.Scanned?
    ensures NamedIn(d, reply, preferred, t)
            <==> Named(if d then reply.entries[..InFront(reply, preferred)] else reply.entries[InFront(reply, preferred)..], t)
  {
  }

  lemma TotalNothing(t: string)
    ensures Total([], t) == 0 && !Mentions([], t)
  {
  }

  /** list is the merge of raw: sorted, with each term of raw once and its counts summed up. */
  ghost predicate IsMerge(descending: bool, list: seq<ScanTermInfo>, raw: seq<ScanTermInfo>) {
    && Sorted(descending, list)
    && (forall t :: Total(list, t) == Total(raw, t))
    && (forall t :: Mentions(list, t) <==> Mentions(raw, t))
  }

  /** A term stands once in a sorted list, with the whole of its count. */
  lemma {:induction false} CountIsTotal(descending: bool, list: seq<ScanTermInfo>, i: nat)
    requires Sorted(descending, list) && i < |list|
    ensures list[i].count == Total(list, list[i].term)
  {
    var init, last := list[..|list| - 1], list[|list| - 1];
    if i < |list| - 1 {
      CountIsTotal(descending, init, i);
      BeforeFacts(descending, list[i], last);
    } else {
      forall k | 0 <= k < |init| ensures init[k].term != last.term {
        BeforeFacts(descending, init[k], last);
      }
      TotalAbsent(init, last.term);
    }
  }

  lemma {:induction false} TotalAbsent(list: seq<ScanTermInfo>, t: string)
    requires forall k :: 0 <= k < |list| ==> list[k].term != t
    ensures Total(list, t) == 0
  {
    if list != [] { TotalAbsent(list[..|list| - 1], t); }
  }

  ghost predicate Same(a: seq<ScanTermInfo>, b: seq<ScanTermInfo>, t: string) {
    Total(a, t) == Total(b, t) && (Mentions(a, t) <==> Mentions(b, t))
  }

  /** A merge is determined by what it merges. */
  lemma {:induction false} MergeIsUnique(d: bool, a: seq<ScanTermInfo>, b: seq<ScanTermInfo>)
    requires Sorted(d, a) && Sorted(d, b)
    requires forall t :: Same(a, b, t)
    ensures a == b
  {
    FirstIsMentioned(a);
    FirstIsMentioned(b);
    assert a != [] ==> Same(a, b, a[0].term);
    assert b != [] ==> Same(a, b, b[0].term);
    if a != [] && b != [] {
      var a', b', x, y := a[..|a| - 1], b[..|b| - 1], a[|a| - 1], b[|b| - 1];
      assert Same(a, b, x.term) && Same(a, b, y.term) && Mentions(a, x.term) && Mentions(b, y.term);
      var i :| 0 <= i < |a| && a[i].term == y.term;
      var j :| 0 <= j < |b| && b[j].term == x.term;
      hide Total, Mentions;
      LastIsLast(d, a, i, b, j);
      CountIsTotal(d, a, |a| - 1);
      CountIsTotal(d, b, |b| - 1);
      forall t ensures Same(a', b', t) {
        assert Same(a, b, t);
        WithoutLast(d, a, t);
        WithoutLast(d, b, t);
      }
      MergeIsUnique(d, a', b');
    }
  }

  lemma FirstIsMentioned(a: seq<ScanTermInfo>)
    ensures a != [] ==> Mentions(a, a[0].term)
    ensures forall t :: !Mentions([], t)
  {
  }

  lemma LastIsLast(d: bool, a: seq<ScanTermInfo>, i: nat, b: seq<ScanTermInfo>, j: nat)
    requires Sorted(d, a) && Sorted(d, b) && i < |a| && j < |b|
    requires a[i].term == b[|b| - 1].term && b[j].term == a[|a| - 1].term
    ensures a[|a| - 1].term == b[|b| - 1].term
  {
    BeforeFacts(d, a[i], a[|a| - 1]);
    BeforeFacts(d, b[j], b[|b| - 1]);
    BeforeFacts(d, a[|a| - 1], b[|b| - 1]);
  }

  lemma WithoutLast(d: bool, a: seq<ScanTermInfo>, t: string)
    requires Sorted(d, a) && a != []
    ensures Total(a[..|a| - 1], t) == Total(a, t) - if t == a[|a| - 1].term then a[|a| - 1].count else 0
    ensures Mentions(a[..|a| - 1], t) <==> Mentions(a, t) && t != a[|a| - 1].term
  {
    var init, last := a[..|a| - 1], a[|a| - 1];
    assert a == init + [last];
    TotalConcat(init, [last], t);
    TotalOne(last, t);
    if Mentions(init, t) {
      var k :| 0 <= k < |init| && init[k].term == t;
      BeforeFacts(d, a[k], last);
    }
  }

  lemma UsableNone(raw: seq<ScanTermInfo>, entries: seq<Entry>)
    ensures raw + Usable(entries[..0]) == raw
  {
  }

  lemma UsableNext(raw: seq<ScanTermInfo>, entries: seq<Entry>, i: nat)
    requires i < |entries|
    ensures var soFar, ent := raw + Usable(entries[..i]), entries[i];
            raw + Usable(entries[..i + 1]) ==
            if ent.TermInfo? && ent.general.Some? && ent.general.value != ""
            then soFar + [ScanTermInfo(ent.general.value, if ent.occurrences.Some? then ent.occurrences.value else 0)]
            else soFar
  {
    assert entries[..i + 1][..i] == entries[..i];
  }

  lemma IsMergeSorted(d: bool, list: seq<ScanTermInfo>, raw: seq<ScanTermInfo>)
    requires IsMerge(d, list, raw)
    ensures Sorted(d, list)
  {
  }

  lemma MergeOneMore(d: bool, list: seq<ScanTermInfo>, raw: seq<ScanTermInfo>, my: ScanTermInfo, r: seq<ScanTermInfo>)
    requires IsMerge(d, list, raw) && Sorted(d, r)
    requires forall t :: Total(r, t) == Total(list, t) + if t == my.term then my.count else 0
    requires forall t :: Mentions(r, t) <==> Mentions(list, t) || t == my.term
    ensures IsMerge(d, r, raw + [my])
  {
    hide Total, Mentions, Sorted;
    forall t ensures Total(r, t) == Total(raw + [my], t) && (Mentions(r, t) <==> Mentions(raw + [my], t)) {
      TotalConcat(raw, [my], t);
      TotalOne(my, t);
    }
  }

  /** Adds a stretch of a response's entries to one side. */
  method AddEntries(descending: bool, list: seq<ScanTermInfo>, ghost raw: seq<ScanTermInfo>, entries: seq<Entry>)
    returns (r: seq<ScanTermInfo>)
    requires IsMerge(descending, list, raw)
    ensures IsMerge(descending, r, raw + Usable(entries))
  {
    hide IsMerge, Total, Mentions, Usable, Sorted;
    IsMergeSorted(descending, list, raw);
    r := list;
    UsableNone(raw, entries);
    for i := 0 to |entries|
      invariant Sorted(descending, r) && IsMerge(descending, r, raw + Usable(entries[..i]))
    {
      var ent := entries[i];
      ghost var soFar := raw + Usable(entries[..i]);
      assert entries[..i + 1][..i] == entries[..i];
      UsableNext(raw, entries, i);
      if ent.TermInfo? {
        var term := if ent.general.Some? then ent.general.value else "";
        if |term| > 0 {
          var my := ScanTermInfo(term, if ent.occurrences.Some? then ent.occurrences.value else 0);
          ghost var before := r;
          r := Insert(descending, r, my);
          MergeOneMore(descending, before, soFar, my, r);
        }
      }
    }
    assert entries[..|entries|] == entries;
  }

  /** The different terms of a list. */
  function TermsOf(list: seq<ScanTermInfo>): set<string> {
    set i | 0 <= i < |list| :: list[i].term
  }

  /** A merge has an entry for each different term. */
  lemma MergeLength(d: bool, list: seq<ScanTermInfo>, raw: seq<ScanTermInfo>)
    requires IsMerge(d, list, raw)
    ensures |list| == |TermsOf(raw)|
  {
    hide Total, Before;
    forall t ensures t in TermsOf(raw) <==> t in TermsOf(list) {
      assert Mentions(raw, t) <==> t in TermsOf(raw);
      assert Mentions(list, t) <==> t in TermsOf(list);
    }
    assert TermsOf(raw) == TermsOf(list);
    SortedLength(d, list);
  }

  lemma {:induction false} SortedLength(d: bool, list: seq<ScanTermInfo>)
    requires Sorted(d, list)
    ensures |list| == |TermsOf(list)|
  {
    if list != [] {
      var init, last := list[..|list| - 1], list[|list| - 1];
      SortedLength(d, init);
      assert TermsOf(list) == TermsOf(init) + {last.term};
      forall i | 0 <= i < |init| ensures init[i].term != last.term {
        assert Before(d, list[i], last);
        BeforeFacts(d, list[i], last);
      }
    }
  }

  /** The response assembled from the two sides. */
  function Assembled(before: seq<ScanTermInfo>, after: seq<ScanTermInfo>, number: int, preferred: int): (r: (seq<ScanTermInfo>, int))
  {
    var position := if |before| < preferred - 1 then |before| + 1 else preferred;
    var b := if position >= 1 then position - 1 else 0;
    var a := if number - b <= 0 then 0 else if number - b > |after| then |after| else number - b;
    (Reversed(before[..b]) + after[..a], position)
  }

  function Reversed<T>(s: seq<T>): (r: seq<T>)
    ensures |r| == |s| && forall i :: 0 <= i < |r| ==> r[i] == s[|s| - 1 - i]
  {
    if s == [] then [] else Reversed(s[1..]) + [s[0]]
  }

  /** How many terms of either side the reply lists. */
  function ListedBefore(before: seq<ScanTermInfo>, preferred: int): (b: nat)
    ensures b <= |before|
  {
    if preferred <= 1 then 0 else if |before| < preferred - 1 then |before| else preferred - 1
  }

  function ListedAfter(before: seq<ScanTermInfo>, after: seq<ScanTermInfo>, number: nat, preferred: int): (a: nat)
    ensures a <= |after|
  {
    var room := number - ListedBefore(before, preferred);
    if room <= 0 then 0 else if room > |after| then |after| else room
  }

  /** Lines 1155-1191. The array has room for the terms asked for; the terms before the requested
      one are written from its position downwards, the greatest index first. */
  method Assemble(before: seq<ScanTermInfo>, after: seq<ScanTermInfo>, number: nat, preferred: int) returns (outcome: Outcome)
    ensures outcome == if ListedBefore(before, preferred) > number then Overrun
                       else var (entries, position) := Assembled(before, after, number, preferred); Terms(entries, position)
  {
    hide Assembled;
    var a := new ScanTermInfo[number](i => ScanTermInfo("", 0));
    var position := preferred;
    if |before| < position - 1 {
      position := |before| + 1;
    }
    var i := 0;
    while i < position - 1 && i < |before|
      invariant 0 <= i <= |before| && (i == 0 || i <= position - 1) && (i > 0 ==> position - 1 <= number)
      invariant forall k :: position - 1 - i <= k < position - 1 ==> a[k] == before[position - 2 - k]
    {
      if position - 2 - i >= number {
        return Overrun;
      }
      a[position - 2 - i] := before[i];
      i := i + 1;
    }
    ghost var b := i;
    i := if position <= 0 then 0 else position - 1;
    var it := 0;
    while i < number && it < |after|
      invariant 0 <= it <= |after| && i == b + it <= number
      invariant forall k :: 0 <= k < b ==> a[k] == before[b - 1 - k]
      invariant forall k :: b <= k < i ==> a[k] == after[k - b]
    {
      a[i] := after[it];
      i, it := i + 1, it + 1;
    }
    outcome := Terms(a[..i], position);
    AssembledIs(before, after, number, preferred, a[..i], position, b, it);
  }

  lemma AssembledIs(before: seq<ScanTermInfo>, after: seq<ScanTermInfo>, number: nat, preferred: int,
                    entries: seq<ScanTermInfo>, position: int, b: nat, n: nat)
    requires position == if |before| < preferred - 1 then |before| + 1 else preferred
    requires b == (if position <= 0 then 0 else position - 1) <= |before| && n <= |after| && |entries| == b + n
    requires n == |after| || b + n >= number
    requires b <= number && b + n <= number
    requires forall k :: 0 <= k < b ==> entries[k] == before[b - 1 - k]
    requires forall k :: b <= k < b + n ==> entries[k] == after[k - b]
    ensures (entries, position) == Assembled(before, after, number, preferred)
  {
    assert entries[..b] == Reversed(before[..b]);
    assert entries[b..] == after[..n];
    assert entries == entries[..b] + entries[b..];
  }

  ghost predicate AllScanned(replies: seq<TargetReply>) {
    forall r :: r in replies ==> r.Scanned?
  }

  lemma SideNext(d: bool, replies: seq<TargetReply>, preferred: int, i: nat)
    requires i < |replies| && AllScanned(replies[..i + 1])
    ensures AllScanned(replies[..i])
    ensures var k := SplitAt(replies[i], preferred);
            Side(d, replies[..i + 1], preferred) ==
            Side(d, replies[..i], preferred) + Usable(if d then replies[i].entries[..k] else replies[i].entries[k..])
  {
    assert replies[..i + 1][..i] == replies[..i];
    assert forall r :: r in replies[..i] ==> r in replies[..i + 1];
  }

  /** The answer when target i is the first that does not return terms. */
  predicate Stops(reply: TargetReply, i: nat, outcome: Outcome) {
    match reply
    case Scanned(_, _) => false
    case Diagnostic(condition) => outcome == Failed(condition)
    case NotScan => outcome == Relayed(i)
  }

  /** Reply i is the first that does not return terms. */
  ghost predicate FirstStop(replies: seq<TargetReply>, i: nat, outcome: Outcome) {
    i < |replies| && AllScanned(replies[..i]) && Stops(replies[i], i, outcome)
  }

  /** Scan over several targets: the first target that does not return terms decides the answer;
      otherwise it is assembled from the merge of what they report on either side. */
  method Scan(replies: seq<TargetReply>, number: nat, preferred: int)
    returns (outcome: Outcome, ghost before: seq<ScanTermInfo>, ghost after: seq<ScanTermInfo>)
    ensures outcome.Terms? || outcome.Overrun? <==> AllScanned(replies)
    ensures AllScanned(replies) ==>
            && IsMerge(true, before, Side(true, replies, preferred))
            && IsMerge(false, after, Side(false, replies, preferred))
            && (outcome.Terms? ==> (outcome.entries, outcome.position) == Assembled(before, after, number, preferred))
            && (outcome.Overrun? <==> number < preferred - 1 && number < |TermsOf(Side(true, replies, preferred))|)
    ensures !AllScanned(replies) ==> exists i: nat :: FirstStop(replies, i, outcome)
  {
    hide IsMerge, Side, Usable, Assembled, SplitAt;
    var entriesBefore: seq<ScanTermInfo>, entriesAfter: seq<ScanTermInfo> := [], [];
    before, after := [], [];
    NothingMerged(replies, preferred);
    for i := 0 to |replies|
      invariant AllScanned(replies[..i])
      invariant IsMerge(true, entriesBefore, Side(true, replies[..i], preferred))
      invariant IsMerge(false, entriesAfter, Side(false, replies[..i], preferred))
    {
      var res := replies[i];
      if res.Diagnostic? {
        assert res in replies;
        assert FirstStop(replies, i, Failed(res.condition));
        return Failed(res.condition), before, after;
      }
      if res.NotScan? {
        assert res in replies;
        assert FirstStop(replies, i, Relayed(i));
        return Relayed(i), before, after;
      }
      assert replies[..i + 1] == replies[..i] + [res];
      var k := SplitAt(res, preferred);
      entriesBefore := AddEntries(true, entriesBefore, Side(true, replies[..i], preferred), res.entries[..k]);
      entriesAfter := AddEntries(false, entriesAfter, Side(false, replies[..i], preferred), res.entries[k..]);
      SideNext(true, replies, preferred, i);
      SideNext(false, replies, preferred, i);
    }
    assert replies[..|replies|] == replies;
    outcome := Assemble(entriesBefore, entriesAfter, number, preferred);
    before, after := entriesBefore, entriesAfter;
    MergeLength(true, before, Side(true, replies, preferred));
  }

  /** One target with the terms a and b in front of the third position, and one term asked for: the
      source writes b at index 1 of an array of one entry. */
  lemma ScanOverruns(preferred: int)
    requires preferred >= 3
    ensures var reply := Scanned([TermInfo(Some("a"), Some(1)), TermInfo(Some("b"), Some(1))], Some(3));
            AllScanned([reply]) && 1 < preferred - 1 && 1 < |TermsOf(Side(true, [reply], preferred))|
  {
    var a, b := TermInfo(Some("a"), Some(1)), TermInfo(Some("b"), Some(1));
    var reply := Scanned([a, b], Some(3));
    var side := Side(true, [reply], preferred);
    assert Side(true, [], preferred) == [] && [reply][..0] == [];
    assert SplitAt(reply, preferred) == 2 && reply.entries[..2] == [a, b];
    assert side == Usable([a, b]);
    assert Usable([]) == [] && [a][..0] == [] && [a, b][..1] == [a];
    assert Usable([a]) == [ScanTermInfo("a", 1)];
    assert side == [ScanTermInfo("a", 1), ScanTermInfo("b", 1)];
    TwoTerms(side);
  }

  lemma TwoTerms(side: seq<ScanTermInfo>)
    requires side == [ScanTermInfo("a", 1), ScanTermInfo("b", 1)]
    ensures |TermsOf(side)| == 2
  {
    assert side[0].term == "a" && side[1].term == "b" && "a"[0] != "b"[0];
    assert TermsOf(side) == {"a", "b"};
  }

  lemma NothingMerged(replies: seq<TargetReply>, preferred: int)
    ensures AllScanned(replies[..0])
    ensures IsMerge(true, [], Side(true, replies[..0], preferred)) && IsMerge(false, [], Side(false, replies[..0], preferred))
  {
  }

  // ---------- the reply ----------

  lemma ReversedSorted(list: seq<ScanTermInfo>)
    requires Sorted(true, list)
    ensures Sorted(false, Reversed(list))
  {
    hide Reversed;
  }

  lemma SortedConcat(x: seq<ScanTermInfo>, y: seq<ScanTermInfo>)
    requires Sorted(false, x) && Sorted(false, y)
    ensures Sorted(false, x + y) <==> (x != [] && y != [] ==> Before(false, x[|x| - 1], y[0]))
  {
    hide Before;
    var e := x + y;
    if x != [] && y != [] {
      assert e[|x| - 1] == x[|x| - 1] && e[|x|] == y[0];
      if Before(false, x[|x| - 1], y[0]) {
        forall i, j | 0 <= i < |x| <= j < |e| ensures Before(false, e[i], e[j]) {
          if i < |x| - 1 { BeforeTransitive(false, x[i], x[|x| - 1], y[0]); }
          if j > |x| { BeforeTransitive(false, x[i], y[0], y[j - |x|]); }
        }
      }
    }
  }

  /** The reply ascends strictly if and only if the nearest listed terms of the two sides do. */
  lemma ReplyAscends(before: seq<ScanTermInfo>, after: seq<ScanTermInfo>, number: nat, preferred: int)
    requires Sorted(true, before) && Sorted(false, after)
    ensures Sorted(false, Assembled(before, after, number, preferred).0) <==>
            (ListedBefore(before, preferred) > 0 && ListedAfter(before, after, number, preferred) > 0 ==>
               Less(before[0].term, after[0].term))
  {
    var b, a := ListedBefore(before, preferred), ListedAfter(before, after, number, preferred);
    assert Assembled(before, after, number, preferred).0 == Reversed(before[..b]) + after[..a];
    ReversedSorted(before[..b]);
    SortedConcat(Reversed(before[..b]), after[..a]);
  }

  lemma AcrossSides(before: seq<ScanTermInfo>, after: seq<ScanTermInfo>, i: nat, j: nat)
    requires Sorted(true, before) && Sorted(false, after) && i < |before| && j < |after|
    requires Less(before[0].term, after[0].term)
    ensures Less(before[i].term, after[j].term)
  {
    hide Less;
    if j > 0 { LessTransitive(before[0].term, after[0].term, after[j].term); }
    if i > 0 {
      assert Before(true, before[0], before[i]);
      LessTransitive(before[i].term, before[0].term, after[j].term);
    }
  }

  /** The reply lists the terms nearest to the requested one: whatever it leaves out lies beyond
      every term it lists. The terms before the returned position come from the before side. */
  lemma ReplyIsNearest(before: seq<ScanTermInfo>, after: seq<ScanTermInfo>, number: nat, preferred: int)
    requires Sorted(true, before) && Sorted(false, after) && ListedBefore(before, preferred) <= number
    requires before != [] && after != [] ==> Less(before[0].term, after[0].term)
    ensures var (e, position) := Assembled(before, after, number, preferred);
            var b, a := ListedBefore(before, preferred), ListedAfter(before, after, number, preferred);
            && |e| == b + a <= number && (preferred >= 1 ==> position == b + 1)
            && (forall k :: 0 <= k < b ==> e[k] in before) && (forall k :: b <= k < |e| ==> e[k] in after)
            && (forall i, k :: b <= i < |before| && 0 <= k < |e| ==> Less(before[i].term, e[k].term))
            && (forall i, k :: a <= i < |after| && 0 <= k < |e| ==> Less(e[k].term, after[i].term))
  {
    var b, a := ListedBefore(before, preferred), ListedAfter(before, after, number, preferred);
    var e := Assembled(before, after, number, preferred).0;
    assert e == Reversed(before[..b]) + after[..a];
    forall i, k | b <= i < |before| && 0 <= k < |e| ensures Less(before[i].term, e[k].term) {
      if k < b {
        assert Before(true, before[b - 1 - k], before[i]);
      } else {
        AcrossSides(before, after, i, k - b);
      }
    }
    forall i, k | a <= i < |after| && 0 <= k < |e| ensures Less(e[k].term, after[i].term) {
      if k < b {
        AcrossSides(before, after, b - 1 - k, i);
      } else {
        assert Before(false, after[k - b], after[i]);
      }
    }
  }
}
