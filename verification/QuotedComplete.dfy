/** Which literals are found: scanning is described by the first thing that matters in the input, and what
    follows from there, without the scanner's own steps. src/filter_http_rewrite.cpp:481-547. */
module QuotedComplete {
  import opened QuotedLiteral
  import opened QuotedRewrite

  /** What EmbedQuotedLiteral returns. */
  function Embedded<V>(rule: Rule<V>, s: string, html: bool, v: V): (string, bool, V) {
    Rewrite(rule, Pieces(s, html), v)
  }

  /** A quote, a comment or, in html, a quote written as an entity begins at s[k]. */
  predicate Marks(s: string, html: bool, k: nat)
    requires k < |s|
  {
    s[k] == '\"' || s[k] == '\'' || "//" <= s[k..] || (html && "&quot;" <= s[k..])
  }

  /** Nothing of the kind begins in front of position n. */
  ghost predicate UnmarkedTo(s: string, html: bool, n: nat)
    requires n <= |s|
  {
    forall k :: 0 <= k < n ==> !Marks(s, html, k)
  }

  // ---------- in front of the first mark ----------

  lemma UnmarkedFirst<V>(rule: Rule<V>, s: string, html: bool, v: V)
    requires s != "" && !Marks(s, html, 0)
    ensures var (out, replaced, v') := Embedded(rule, s[1..], html, v);
            Embedded(rule, s, html, v) == ([s[0]] + out, replaced, v')
  {
    assert s[0..] == s;
    assert Opener(s, html) == 0 && PlainLength(s) == 1 && s[..1] == [s[0]];
    PiecesPlain(s, html);
    hide Pieces, Rewrite;
    RewriteKeep(rule, s[..1], Pieces(s[1..], html), v);
  }

  lemma MarksRest(s: string, html: bool, k: nat)
    requires k + 1 < |s|
    ensures Marks(s[1..], html, k) <==> Marks(s, html, k + 1)
  {
    assert s[1..][k..] == s[k + 1..];
  }

  /** What comes before the first mark is kept, and the rest is as by itself. */
  lemma {:induction false} UnmarkedKept<V>(rule: Rule<V>, s: string, html: bool, v: V, n: nat)
    requires n <= |s| && UnmarkedTo(s, html, n)
    ensures var (out, replaced, v') := Embedded(rule, s[n..], html, v);
            Embedded(rule, s, html, v) == (s[..n] + out, replaced, v')
    decreases n
  {
    hide Embedded, Marks;
    if n == 0 {
      var out := Embedded(rule, s, html, v).0;
      assert s[0..] == s && s[..0] + out == out;
    } else {
      UnmarkedFirst(rule, s, html, v);
      forall k | 0 <= k < n - 1 ensures !Marks(s[1..], html, k) { MarksRest(s, html, k); }
      UnmarkedKept(rule, s[1..], html, v, n - 1);
      var out := Embedded(rule, s[n..], html, v).0;
      assert s[1..][n - 1..] == s[n..];
      assert [s[0]] + (s[1..][..n - 1] + out) == s[..n] + out;
    }
  }

  // ---------- literals in quotes ----------

  lemma {:induction false} QuoteEndStops(w: string, t: string, prev: char, q: char)
    requires forall k :: 0 <= k < |w| ==> w[k] != '\n' && (w[k] == q ==> Before(w, prev, k) == '\\')
    requires t == "" || t[0] == '\n' || (t[0] == q && Before(w, prev, |w|) != '\\')
    ensures QuoteEnd(w + t, prev, q) == |w|
  {
    var x := w + t;
    if w == "" {
      assert x == t;
    } else {
      var r := w[1..];
      assert x[0] == w[0] && x[1..] == r + t;
      forall k | 0 <= k < |r| ensures r[k] != '\n' && (r[k] == q ==> Before(r, w[0], k) == '\\') {
        assert r[k] == w[k + 1] && Before(r, w[0], k) == Before(w, prev, k + 1);
      }
      assert Before(r, w[0], |r|) == Before(w, prev, |w|);
      QuoteEndStops(r, t, w[0], q);
    }
  }

  /** The first mark is a quote, closed at e by the first unescaped quote of its kind or newline behind it. */
  ghost predicate QuotedAt(s: string, html: bool, n: nat, e: nat) {
    && n < e <= |s| && UnmarkedTo(s, html, n) && (s[n] == '\"' || s[n] == '\'')
    && (forall k :: n < k < e ==> s[k] != '\n' && (s[k] == s[n] ==> s[k - 1] == '\\'))
    && (e < |s| ==> s[e] == '\n' || (s[e] == s[n] && s[e - 1] != '\\'))
  }

  lemma QuotedCloses(s: string, html: bool, n: nat, e: nat)
    requires QuotedAt(s, html, n, e)
    ensures Opener(s[n..], html) == 1 && CloseAt(s[n..], html) == e - n
  {
    var x := s[n..];
    var (w, t) := (x[1..e - n], x[e - n..]);
    var q := s[n];
    assert x[0] == q && !(QUOT <= x);
    assert x[1..] == w + t;
    forall k | 0 <= k < |w| ensures w[k] != '\n' && (w[k] == q ==> Before(w, q, k) == '\\') {
      assert w[k] == s[n + 1 + k] && Before(w, q, k) == s[n + k];
    }
    assert t != "" ==> t[0] == s[e];
    assert Before(w, q, |w|) == s[e - 1];
    QuoteEndStops(w, t, q, q);
  }

  /** A literal in quotes is found, handed to the rule, and replaced by what the rule makes of it; the
      scan goes on behind the character that closes it. */
  lemma QuotedIsRewritten<V>(rule: Rule<V>, s: string, html: bool, v: V, n: nat, e: nat)
    requires QuotedAt(s, html, n, e) && e < |s|
    ensures var (text, matched, v1) := rule(v, s[n + 1..e]);
            var (out, replaced, v') := Embedded(rule, s[e + 1..], html, v1);
            Embedded(rule, s, html, v) == (s[..n + 1] + text + [s[e]] + out, matched || replaced, v')
  {
    hide QuotedAt, UnmarkedTo, Marks, Opener, CloseAt;
    QuotedCloses(s, html, n, e);
    QuotedFacts(s, html, n, e);
    ClosedIsRewritten(rule, s, html, v, n, n + 1, e);
  }

  lemma QuotedFacts(s: string, html: bool, n: nat, e: nat)
    requires QuotedAt(s, html, n, e)
    ensures n < e <= |s| && UnmarkedTo(s, html, n)
  {
  }

  lemma Shift(s: string, n: nat, l: nat, text: string, c: string, out: string)
    requires n <= l <= |s|
    ensures s[..n] + (s[n..l] + text + c + out) == s[..l] + text + c + out
  {
    assert s[..n] + s[n..l] == s[..l];
  }

  lemma ClosedFirst<V>(rule: Rule<V>, x: string, html: bool, v: V)
    requires Opener(x, html) > 0 && CloseAt(x, html) < |x|
    ensures Opener(x, html) <= CloseAt(x, html)
    ensures var (l, e) := (Opener(x, html), CloseAt(x, html));
            var (text, matched, v1) := rule(v, x[l..e]);
            var (out, replaced, v') := Embedded(rule, x[e + 1..], html, v1);
            Embedded(rule, x, html, v) == (x[..l] + text + [x[e]] + out, matched || replaced, v')
  {
    hide Pieces, Rewrite, Opener, CloseAt;
    PiecesClosed(x, html);
    var (l, e) := (Opener(x, html), CloseAt(x, html));
    assert x[e..e + 1] == [x[e]];
    RewriteThree(rule, x[..l], x[l..e], x[e..e + 1], Pieces(x[e + 1..], html), v);
    var (text, matched, v1) := rule(v, x[l..e]);
    var out := Embedded(rule, x[e + 1..], html, v1).0;
    assert x[..l] + (text + ([x[e]] + out)) == x[..l] + text + [x[e]] + out;
  }

  /** The same for any literal that the scanner opens at n, and whose inside reaches from l to e. */
  lemma ClosedIsRewritten<V>(rule: Rule<V>, s: string, html: bool, v: V, n: nat, l: nat, e: nat)
    requires n < l <= e < |s| && UnmarkedTo(s, html, n)
    requires Opener(s[n..], html) == l - n && CloseAt(s[n..], html) == e - n
    ensures var (text, matched, v1) := rule(v, s[l..e]);
            var (out, replaced, v') := Embedded(rule, s[e + 1..], html, v1);
            Embedded(rule, s, html, v) == (s[..l] + text + [s[e]] + out, matched || replaced, v')
  {
    hide Pieces, Rewrite, Opener, CloseAt, UnmarkedTo, Embedded;
    UnmarkedKept(rule, s, html, v, n);
    var (text, matched, v1) := rule(v, s[l..e]);
    var out := Embedded(rule, s[e + 1..], html, v1).0;
    assert s[n..][l - n..e - n] == s[l..e] && s[n..][..l - n] == s[n..l] && s[n..][e - n] == s[e] && s[n..][e - n + 1..] == s[e + 1..];
    ClosedFirst(rule, s[n..], html, v);
    Shift(s, n, l, text, [s[e]], out);
  }

  /** An unclosed literal ends the scan: the rule never sees it, and the rest is kept. */
  lemma UnclosedIsKept<V>(rule: Rule<V>, s: string, html: bool, v: V, n: nat)
    requires n < |s| && UnmarkedTo(s, html, n) && Opener(s[n..], html) > 0 && CloseAt(s[n..], html) == |s| - n
    ensures Embedded(rule, s, html, v) == (s, false, v)
  {
    UnmarkedKept(rule, s, html, v, n);
    hide Pieces, Opener, CloseAt, UnmarkedTo;
    PiecesOpen(s[n..], html);
    RewriteKeep(rule, s[n..], [], v);
    assert [Keep(s[n..])] + [] == [Keep(s[n..])];
    assert s[..n] + (s[n..] + "") == s;
  }

  lemma UnclosedQuoteIsKept<V>(rule: Rule<V>, s: string, html: bool, v: V, n: nat)
    requires QuotedAt(s, html, n, |s|)
    ensures Embedded(rule, s, html, v) == (s, false, v)
  {
    hide Opener, CloseAt, UnmarkedTo, Embedded;
    QuotedCloses(s, html, n, |s|);
    UnclosedIsKept(rule, s, html, v, n);
  }

  // ---------- literals between entities ----------

  /** The first mark is "&quot;", closed at e by the next or by a newline. */
  ghost predicate EntityAt(s: string, n: nat, e: nat) {
    && n + 6 <= e <= |s| && UnmarkedTo(s, true, n) && "&quot;" <= s[n..]
    && (forall k :: n + 6 <= k < e ==> s[k] != '\n' && !("&quot;" <= s[k..]))
    && (e < |s| ==> s[e] == '\n' || "&quot;" <= s[e..])
  }

  lemma {:induction false} EntityEndStops(s: string, lo: nat, e: nat)
    requires lo <= e <= |s| && forall k :: lo <= k < e ==> s[k] != '\n' && !("&quot;" <= s[k..])
    requires e < |s| ==> s[e] == '\n' || "&quot;" <= s[e..]
    ensures EntityEnd(s[lo..]) == e - lo
    decreases e - lo
  {
    var x := s[lo..];
    if lo < e {
      assert x[0] == s[lo] && x[1..] == s[lo + 1..];
      EntityEndStops(s, lo + 1, e);
    } else if x != "" {
      assert x[0] == s[lo];
    }
  }

  lemma EntityCloses(s: string, n: nat, e: nat)
    requires EntityAt(s, n, e)
    ensures Opener(s[n..], true) == 6 && CloseAt(s[n..], true) == e - n
  {
    hide EntityEnd;
    EntityEndStops(s, n + 6, e);
    assert s[n..][6..] == s[n + 6..];
  }

  /** In html a literal between entities, or up to a line end, is found and rewritten in the same way. */
  lemma EntityIsRewritten<V>(rule: Rule<V>, s: string, v: V, n: nat, e: nat)
    requires EntityAt(s, n, e) && e < |s|
    ensures var (text, matched, v1) := rule(v, s[n + 6..e]);
            var (out, replaced, v') := Embedded(rule, s[e + 1..], true, v1);
            Embedded(rule, s, true, v) == (s[..n + 6] + text + [s[e]] + out, matched || replaced, v')
  {
    hide Opener, CloseAt, UnmarkedTo, Embedded;
    EntityCloses(s, n, e);
    ClosedIsRewritten(rule, s, true, v, n, n + 6, e);
  }

  /** An entity that has closed a literal opens no other: what follows its first character is plain. */
  lemma ClosingEntityIsPlain<V>(rule: Rule<V>, rest: string, v: V)
    ensures var (out, replaced, v') := Embedded(rule, rest, true, v);
            Embedded(rule, "quot;" + rest, true, v) == ("quot;" + out, replaced, v')
  {
    var s := "quot;" + rest;
    forall k | 0 <= k < 5 ensures !Marks(s, true, k) {
      assert s[k] == "quot;"[k] && s[k..][0] == s[k];
    }
    UnmarkedKept(rule, s, true, v, 5);
    assert s[..5] == "quot;" && s[5..] == rest;
  }

  /** A literal that an entity opens and nothing closes stays unread. */
  lemma UnclosedEntityIsKept<V>(rule: Rule<V>, s: string, v: V, n: nat)
    requires EntityAt(s, n, |s|)
    ensures Embedded(rule, s, true, v) == (s, false, v)
  {
    hide Opener, CloseAt, UnmarkedTo, Embedded;
    EntityCloses(s, n, |s|);
    UnclosedIsKept(rule, s, true, v, n);
  }

  // ---------- comments ----------

  /** The first mark is "//", and its line ends at e. */
  ghost predicate CommentAt(s: string, html: bool, n: nat, e: nat) {
    && n + 2 <= e <= |s| && UnmarkedTo(s, html, n) && s[n] == '/' && s[n + 1] == '/'
    && (forall k :: n < k < e ==> s[k] != '\n') && (e < |s| ==> s[e] == '\n')
  }

  lemma {:induction false} LineStops(s: string, n: nat, e: nat)
    requires n < e <= |s| && (forall k :: n < k < e ==> s[k] != '\n') && (e < |s| ==> s[e] == '\n')
    ensures LineLength(s[n..]) == e - n
    decreases e - n
  {
    var x := s[n..];
    if n + 1 < e {
      assert x[1] == s[n + 1] && x[1..] == s[n + 1..];
      LineStops(s, n + 1, e);
    } else if e < |s| {
      assert x[1] == s[e];
    }
  }

  lemma CommentFacts(s: string, html: bool, n: nat, e: nat)
    requires CommentAt(s, html, n, e)
    ensures n < e <= |s| && UnmarkedTo(s, html, n) && Opener(s[n..], html) == 0 && PlainLength(s[n..]) == e - n
  {
    var x := s[n..];
    assert x[0] == '/' && x[1] == '/' && "//" <= x && !(QUOT <= x);
    LineStops(s, n, e);
    hide LineLength, UnmarkedTo;
  }

  lemma PlainFirst<V>(rule: Rule<V>, x: string, html: bool, v: V)
    requires x != "" && Opener(x, html) == 0
    ensures var n := PlainLength(x);
            var (out, replaced, v') := Embedded(rule, x[n..], html, v);
            Embedded(rule, x, html, v) == (x[..n] + out, replaced, v')
  {
    hide Pieces, Rewrite, Opener, PlainLength;
    PiecesPlain(x, html);
    RewriteKeep(rule, x[..PlainLength(x)], Pieces(x[PlainLength(x)..], html), v);
  }

  /** A comment outside literals is kept to the end of its line, whatever it holds. */
  lemma CommentIsKept<V>(rule: Rule<V>, s: string, html: bool, v: V, n: nat, e: nat)
    requires CommentAt(s, html, n, e)
    ensures var (out, replaced, v') := Embedded(rule, s[e..], html, v);
            Embedded(rule, s, html, v) == (s[..e] + out, replaced, v')
  {
    hide Pieces, Rewrite, Embedded;
    CommentFacts(s, html, n, e);
    UnmarkedKept(rule, s, html, v, n);
    hide CommentAt, UnmarkedTo, Marks;
    PlainFirst(rule, s[n..], html, v);
    assert s[n..][..e - n] == s[n..e] && s[n..][e - n..] == s[e..];
    var out := Embedded(rule, s[e..], html, v).0;
    assert s[..n] + s[n..e] == s[..e];
    assert s[..n] + (s[n..e] + out) == s[..e] + out;
  }

  /** Without a mark everything is kept. */
  lemma NothingToRewrite<V>(rule: Rule<V>, s: string, html: bool, v: V)
    requires UnmarkedTo(s, html, |s|)
    ensures Embedded(rule, s, html, v) == (s, false, v)
  {
    hide UnmarkedTo;
    UnmarkedKept(rule, s, html, v, |s|);
    assert s[|s|..] == "" && s[..|s|] + "" == s;
    assert Embedded(rule, "", html, v) == ("", false, v);
  }

  // ---------- there is nothing else ----------

  lemma {:induction false} FirstMark(s: string, html: bool, n: nat) returns (m: nat)
    requires n <= |s| && UnmarkedTo(s, html, n)
    ensures m <= |s| && UnmarkedTo(s, html, m) && (m < |s| ==> Marks(s, html, m))
    decreases |s| - n
  {
    hide Marks;
    if n == |s| || Marks(s, html, n) { m := n; } else { m := FirstMark(s, html, n + 1); }
  }

  /** Every input is one of the above, so that they say what becomes of it from the left to the right. */
  lemma Forms(s: string, html: bool) returns (n: nat, e: nat)
    ensures UnmarkedTo(s, html, |s|) || QuotedAt(s, html, n, e) || (html && EntityAt(s, n, e)) || CommentAt(s, html, n, e)
  {
    n := FirstMark(s, html, 0);
    e := 0;
    hide UnmarkedTo;
    if n < |s| {
      if s[n] == '\"' || s[n] == '\'' {
        e := QuoteClose(s, n, n + 1);
      } else if html && "&quot;" <= s[n..] {
        e := EntityClose(s, n + 6, n + 6);
      } else {
        assert s[n..][0] == s[n] && s[n..][1] == s[n + 1];
        e := LineClose(s, n, n + 1);
      }
    }
  }

  lemma {:induction false} QuoteClose(s: string, n: nat, k: nat) returns (e: nat)
    requires n < k <= |s| && forall j :: n < j < k ==> s[j] != '\n' && (s[j] == s[n] ==> s[j - 1] == '\\')
    ensures k <= e <= |s| && (forall j :: n < j < e ==> s[j] != '\n' && (s[j] == s[n] ==> s[j - 1] == '\\'))
    ensures e < |s| ==> s[e] == '\n' || (s[e] == s[n] && s[e - 1] != '\\')
    decreases |s| - k
  {
    if k == |s| || s[k] == '\n' || (s[k] == s[n] && s[k - 1] != '\\') { e := k; } else { e := QuoteClose(s, n, k + 1); }
  }

  lemma {:induction false} EntityClose(s: string, lo: nat, k: nat) returns (e: nat)
    requires lo <= k <= |s| && forall j :: lo <= j < k ==> s[j] != '\n' && !("&quot;" <= s[j..])
    ensures k <= e <= |s| && (forall j :: lo <= j < e ==> s[j] != '\n' && !("&quot;" <= s[j..]))
    ensures e < |s| ==> s[e] == '\n' || "&quot;" <= s[e..]
    decreases |s| - k
  {
    if k == |s| || s[k] == '\n' || "&quot;" <= s[k..] { e := k; } else { e := EntityClose(s, lo, k + 1); }
  }

  lemma {:induction false} LineClose(s: string, n: nat, k: nat) returns (e: nat)
    requires n < k <= |s| && forall j :: n < j < k ==> s[j] != '\n'
    ensures k <= e <= |s| && (forall j :: n < j < e ==> s[j] != '\n') && (e < |s| ==> s[e] == '\n')
    decreases |s| - k
  {
    if k == |s| || s[k] == '\n' { e := k; } else { e := LineClose(s, n, k + 1); }
  }
}
