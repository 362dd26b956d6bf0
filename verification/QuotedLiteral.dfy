/** Rewriting the quoted literals of a script or of an HTML fragment,
    src/filter_http_rewrite.cpp:481-547. */
module QuotedLiteral {

  /** A piece of the input: kept as it is, or the inside of a quoted literal. */
  datatype Piece = Keep(text: string) | Literal(text: string)

  const QUOT := "&quot;"

  predicate IsQuoteChar(c: char) { c == '\"' || c == '\'' }

  // ---------- the pieces of an input ----------

  /** How far a literal in q reaches when prev stands before s: to an unescaped q, a newline, or the end. */
  function QuoteEnd(s: string, prev: char, q: char): (e: nat)
    ensures e <= |s|
  {
    if s == "" || (prev != '\\' && s[0] == q) || s[0] == '\n' then 0 else 1 + QuoteEnd(s[1..], s[0], q)
  }

  /** How far a literal between two "&quot;" reaches. */
  function EntityEnd(s: string): (e: nat)
    ensures e <= |s|
  {
    if s == "" || QUOT <= s || s[0] == '\n' then 0 else 1 + EntityEnd(s[1..])
  }

  /** The rest of the line that begins with s. */
  function LineLength(s: string): (n: nat)
    requires s != ""
    ensures 1 <= n <= |s|
  {
    if |s| > 1 && s[1] != '\n' then 1 + LineLength(s[1..]) else 1
  }

  /** The length of what opens a literal here; 0 when nothing does. */
  function Opener(s: string, html: bool): (n: nat)
    ensures n <= |s|
  {
    if html && QUOT <= s then 6
    else if s != "" && IsQuoteChar(s[0]) then 1
    else 0
  }

  function LiteralEnd(s: string, html: bool): (e: nat)
    requires Opener(s, html) > 0
    ensures e + Opener(s, html) <= |s|
  {
    var n := Opener(s, html);
    if html && QUOT <= s then EntityEnd(s[n..]) else QuoteEnd(s[n..], s[0], s[0])
  }

  /** How much is kept at once outside literals: a comment to the end of its line, or one character. */
  function PlainLength(s: string): (n: nat)
    requires s != ""
    ensures 1 <= n <= |s|
  {
    if "//" <= s then LineLength(s) else 1
  }

  /** A literal is closed by one character, which is not looked at again; an open one is no literal. */
  function Pieces(s: string, html: bool): (pieces: seq<Piece>) {
    if s == "" then []
    else if Opener(s, html) > 0 then
      var n := Opener(s, html);
      var e := n + LiteralEnd(s, html);
      if e == |s| then [Keep(s)]
      else [Keep(s[..n]), Literal(s[n..e]), Keep(s[e..e + 1])] + Pieces(s[e + 1..], html)
    else [Keep(s[..PlainLength(s)])] + Pieces(s[PlainLength(s)..], html)
  }

  function Join(pieces: seq<Piece>): string {
    if pieces == [] then "" else pieces[0].text + Join(pieces[1..])
  }

  /** A rule may remember what it has seen, in a V; it returns the new text and whether it matched. */
  type Rule<!V> = (V, string) -> (string, bool, V)

  /** The output, whether any literal matched, and what the rule remembers. */
  function Rewrite<V>(rule: Rule<V>, pieces: seq<Piece>, v: V): (string, bool, V)
    decreases |pieces|
  {
    if pieces == [] then ("", false, v)
    else if pieces[0].Keep? then
      var (out, replaced, v') := Rewrite(rule, pieces[1..], v);
      (pieces[0].text + out, replaced, v')
    else
      var (text, matched, v1) := rule(v, pieces[0].text);
      var (out, replaced, v') := Rewrite(rule, pieces[1..], v1);
      (text + out, matched || replaced, v')
  }

  // ---------- conservation ----------

  lemma JoinThree(a: Piece, b: Piece, c: Piece, rest: seq<Piece>)
    ensures Join([a, b, c] + rest) == a.text + (b.text + (c.text + Join(rest)))
  {
    assert [a, b, c] + rest == [a] + ([b] + ([c] + rest));
    JoinOne(a, [b] + ([c] + rest)); JoinOne(b, [c] + rest); JoinOne(c, rest);
  }

  lemma JoinOne(a: Piece, rest: seq<Piece>)
    ensures Join([a] + rest) == a.text + Join(rest)
  {
    assert ([a] + rest)[1..] == rest;
  }

  lemma Cut(s: string, n: nat)
    requires n <= |s|
    ensures s[..n] + s[n..] == s
  {
  }

  lemma CutThree(s: string, n: nat, e: nat)
    requires n <= e < |s|
    ensures s[..n] + (s[n..e] + (s[e..e + 1] + s[e + 1..])) == s
  {
    assert s[e..e + 1] + s[e + 1..] == s[e..];
    assert s[n..e] + s[e..] == s[n..];
  }

  /** Nothing is lost between the pieces. */
  lemma {:induction false} PiecesJoin(s: string, html: bool)
    ensures Join(Pieces(s, html)) == s
    decreases |s|
  {
    hide LiteralEnd, PlainLength, Join, Opener;
    EmptyJoin();
    if s != "" {
      if Opener(s, html) > 0 {
        var n := Opener(s, html);
        var e := n + LiteralEnd(s, html);
        if e == |s| {
          JoinOne(Keep(s), []);
          assert [Keep(s)] + [] == [Keep(s)] && s + "" == s;
        } else {
          PiecesJoin(s[e + 1..], html);
          JoinThree(Keep(s[..n]), Literal(s[n..e]), Keep(s[e..e + 1]), Pieces(s[e + 1..], html));
          CutThree(s, n, e);
        }
      } else {
        var n := PlainLength(s);
        PiecesJoin(s[n..], html);
        JoinOne(Keep(s[..n]), Pieces(s[n..], html));
        Cut(s, n);
      }
    }
  }

  lemma EmptyJoin()
    ensures Join([]) == ""
  {
  }

  /** A rule that did not match has not changed the text. */
  ghost predicate LeavesUnmatched<V(!new)>(rule: Rule<V>) {
    forall v, text :: !rule(v, text).1 ==> rule(v, text).0 == text
  }

  lemma {:induction false} UnmatchedJoin<V(!new)>(rule: Rule<V>, pieces: seq<Piece>, v: V)
    requires LeavesUnmatched(rule) && !Rewrite(rule, pieces, v).1
    ensures Rewrite(rule, pieces, v).0 == Join(pieces)
    decreases |pieces|
  {
    if pieces != [] {
      UnmatchedJoin(rule, pieces[1..], if pieces[0].Keep? then v else rule(v, pieces[0].text).2);
    }
  }

  /** When no literal matched, the content is unchanged. */
  lemma NoMatchNoChange<V(!new)>(rule: Rule<V>, s: string, html: bool, v: V)
    requires LeavesUnmatched(rule) && !Rewrite(rule, Pieces(s, html), v).1
    ensures Rewrite(rule, Pieces(s, html), v).0 == s
  {
    UnmatchedJoin(rule, Pieces(s, html), v);
    PiecesJoin(s, html);
  }

  // ---------- what the literals are ----------

  /** text stands in s at lo, between an opening quote of its kind and the first thing that can close it. */
  ghost predicate Quoted(s: string, html: bool, lo: nat, text: string) {
    && lo + |text| < |s| && s[lo..lo + |text|] == text
    && (forall k :: 0 <= k < |text| ==> text[k] != '\n')
    && ((html && lo >= 6 && s[lo - 6..lo] == QUOT && (s[lo + |text|] == '\n' || QUOT <= s[lo + |text|..]))
        || (lo >= 1 && IsQuoteChar(s[lo - 1])
            && Inside(text, s[lo - 1])
            && (s[lo + |text|] == '\n' || s[lo + |text|] == s[lo - 1])))
  }

  /** The character in front of s[k], when prev stands before s. */
  function Before(s: string, prev: char, k: nat): char
    requires k <= |s|
  {
    if k == 0 then prev else s[k - 1]
  }

  lemma {:induction false} QuoteEndIs(s: string, prev: char, q: char)
    ensures var e := QuoteEnd(s, prev, q);
            && (forall k :: 0 <= k < e ==> s[k] != '\n')
            && (forall k :: 0 <= k < e && s[k] == q ==> Before(s, prev, k) == '\\')
            && (e < |s| ==> s[e] == '\n' || (s[e] == q && Before(s, prev, e) != '\\'))
  {
    var e := QuoteEnd(s, prev, q);
    if e > 0 {
      QuoteEndIs(s[1..], s[0], q);
      forall k | 0 <= k < e ensures s[k] != '\n' && (s[k] == q ==> Before(s, prev, k) == '\\') {
        if k > 0 { assert s[k] == s[1..][k - 1] && Before(s[1..], s[0], k - 1) == Before(s, prev, k); }
      }
      if e < |s| {
        assert s[e] == s[1..][e - 1] && Before(s[1..], s[0], e - 1) == Before(s, prev, e);
      }
    }
  }

  lemma {:induction false} EntityEndIs(s: string)
    ensures var e := EntityEnd(s);
            && (forall k :: 0 <= k < e ==> s[k] != '\n')
            && (e < |s| ==> s[e] == '\n' || QUOT <= s[e..])
  {
    var e := EntityEnd(s);
    if e > 0 {
      EntityEndIs(s[1..]);
      forall k | 0 <= k < e ensures s[k] != '\n' {
        if k > 0 { assert s[k] == s[1..][k - 1]; }
      }
      if e < |s| {
        assert s[e] == s[1..][e - 1] && s[1..][e - 1..] == s[e..];
      }
    } else if s != "" {
      assert s[0..] == s;
    }
  }

  lemma SliceOfSlice(s: string, n: nat, e: nat)
    requires n + e < |s|
    ensures s[n..n + e] == s[n..][..e] && s[n..][e..] == s[n + e..] && s[n..][e] == s[n + e]
  {
  }

  /** The inside of a literal in q: no newline, and no q that is not escaped. */
  ghost predicate Inside(text: string, q: char) {
    forall k :: 0 <= k < |text| ==> text[k] != '\n' && (text[k] == q ==> Before(text, q, k) == '\\')
  }

  lemma QuoteInside(s: string, q: char)
    ensures Inside(s[..QuoteEnd(s, q, q)], q)
  {
    hide QuoteEnd;
    QuoteEndIs(s, q, q);
    var text := s[..QuoteEnd(s, q, q)];
    forall k | 0 <= k < |text| ensures text[k] != '\n' && (text[k] == q ==> Before(text, q, k) == '\\') {
      assert text[k] == s[k] && Before(text, q, k) == Before(s, q, k);
    }
  }

  lemma LiteralQuoted(s: string, html: bool)
    requires Opener(s, html) > 0 && Opener(s, html) + LiteralEnd(s, html) < |s|
    ensures var n := Opener(s, html); Quoted(s, html, n, s[n..n + LiteralEnd(s, html)])
  {
    hide QuoteEnd, EntityEnd;
    var n := Opener(s, html);
    var e := LiteralEnd(s, html);
    SliceOfSlice(s, n, e);
    if html && QUOT <= s {
      EntityEndIs(s[n..]);
      assert s[0..6] == QUOT;
    } else {
      QuoteEndIs(s[n..], s[0], s[0]);
      QuoteInside(s[n..], s[0]);
    }
  }

  /** Where piece i begins. */
  function Offset(pieces: seq<Piece>, i: nat): nat
    requires i <= |pieces|
  {
    if i == 0 then 0 else |pieces[0].text| + Offset(pieces[1..], i - 1)
  }

  lemma QuotedBehind(s: string, html: bool, from: nat, lo: nat, text: string)
    requires from <= |s| && Quoted(s[from..], html, lo, text)
    ensures Quoted(s, html, from + lo, text)
  {
    var t := s[from..];
    assert t[lo..lo + |text|] == s[from + lo..from + lo + |text|] && t[lo + |text|] == s[from + lo + |text|];
    assert t[lo + |text|..] == s[from + lo + |text|..];
    if lo >= 1 { assert t[lo - 1] == s[from + lo - 1]; }
    if lo >= 6 { assert t[lo - 6..lo] == s[from + lo - 6..from + lo]; }
  }

  lemma OffsetOfOne(a: Piece, rest: seq<Piece>, i: nat)
    requires 1 <= i <= 1 + |rest|
    ensures Offset([a] + rest, i) == |a.text| + Offset(rest, i - 1) && (i < 1 + |rest| ==> ([a] + rest)[i] == rest[i - 1])
  {
    assert ([a] + rest)[1..] == rest;
  }

  lemma OffsetOfThree(a: Piece, b: Piece, c: Piece, rest: seq<Piece>, i: nat)
    requires i < 3 + |rest|
    ensures Offset([a, b, c] + rest, 1) == |a.text|
    ensures i >= 3 ==> Offset([a, b, c] + rest, i) == |a.text| + |b.text| + |c.text| + Offset(rest, i - 3)
    ensures i >= 3 ==> ([a, b, c] + rest)[i] == rest[i - 3]
  {
    hide Offset;
    assert [a, b, c] + rest == [a] + ([b] + ([c] + rest));
    OffsetOfOne(a, [b] + ([c] + rest), 1);
    assert Offset([b] + ([c] + rest), 0) == 0 by { OffsetZero([b] + ([c] + rest)); }
    if i >= 3 {
      OffsetOfOne(a, [b] + ([c] + rest), i);
      OffsetOfOne(b, [c] + rest, i - 1);
      OffsetOfOne(c, rest, i - 2);
    }
  }

  lemma OffsetZero(pieces: seq<Piece>)
    ensures Offset(pieces, 0) == 0
  {
  }

  /** The position where the literal that is opened at the start of s ends. */
  function CloseAt(s: string, html: bool): nat
    requires Opener(s, html) > 0
  {
    Opener(s, html) + LiteralEnd(s, html)
  }

  lemma PiecesClosed(s: string, html: bool)
    requires Opener(s, html) > 0 && CloseAt(s, html) < |s|
    ensures var e := CloseAt(s, html);
            Opener(s, html) <= e && Pieces(s, html) == [Keep(s[..Opener(s, html)]), Literal(s[Opener(s, html)..e]), Keep(s[e..e + 1])] + Pieces(s[e + 1..], html)
  {
    hide LiteralEnd, Opener, PlainLength;
  }

  lemma PiecesOpen(s: string, html: bool)
    requires Opener(s, html) > 0 && CloseAt(s, html) >= |s|
    ensures Pieces(s, html) == [Keep(s)]
  {
    hide LiteralEnd;
  }

  lemma PiecesPlain(s: string, html: bool)
    requires s != "" && Opener(s, html) == 0
    ensures Pieces(s, html) == [Keep(s[..PlainLength(s)])] + Pieces(s[PlainLength(s)..], html)
  {
    hide Opener, PlainLength;
  }

  ghost predicate PieceQuoted(s: string, html: bool, pieces: seq<Piece>, i: nat)
    requires i < |pieces|
  {
    Quoted(s, html, Offset(pieces, i), pieces[i].text)
  }

  lemma QuotedAfterOne(s: string, html: bool, a: Piece, rest: seq<Piece>, i: nat)
    requires i < |rest| && |a.text| <= |s| && PieceQuoted(s[|a.text|..], html, rest, i)
    ensures PieceQuoted(s, html, [a] + rest, i + 1)
  {
    hide Quoted, Offset;
    OffsetOfOne(a, rest, i + 1);
    QuotedBehind(s, html, |a.text|, Offset(rest, i), rest[i].text);
  }

  lemma QuotedAfterThree(s: string, html: bool, a: Piece, b: Piece, c: Piece, rest: seq<Piece>, i: nat)
    requires i < |rest|
    requires var n := |a.text| + |b.text| + |c.text|; n <= |s| && PieceQuoted(s[n..], html, rest, i)
    ensures PieceQuoted(s, html, [a, b, c] + rest, i + 3)
  {
    hide Quoted, Offset;
    OffsetOfThree(a, b, c, rest, i + 3);
    QuotedBehind(s, html, |a.text| + |b.text| + |c.text|, Offset(rest, i), rest[i].text);
  }

  lemma QuotedFirst(s: string, html: bool, rest: seq<Piece>)
    requires Opener(s, html) > 0 && CloseAt(s, html) < |s|
    ensures Opener(s, html) <= CloseAt(s, html)
    ensures var (n, e) := (Opener(s, html), CloseAt(s, html));
            PieceQuoted(s, html, [Keep(s[..n]), Literal(s[n..e]), Keep(s[e..e + 1])] + rest, 1)
  {
    hide Quoted, Offset, Opener, LiteralEnd;
    LiteralQuoted(s, html);
    var (n, e) := (Opener(s, html), CloseAt(s, html));
    OffsetOfThree(Keep(s[..n]), Literal(s[n..e]), Keep(s[e..e + 1]), rest, 1);
  }

  /** The literals among the pieces stand in quotes. */
  ghost predicate AllQuoted(s: string, html: bool, pieces: seq<Piece>) {
    forall i :: 0 <= i < |pieces| && pieces[i].Literal? ==> PieceQuoted(s, html, pieces, i)
  }

  lemma AllQuotedPlain(s: string, html: bool, n: nat, rest: seq<Piece>)
    requires n <= |s| && AllQuoted(s[n..], html, rest)
    ensures AllQuoted(s, html, [Keep(s[..n])] + rest)
  {
    hide PieceQuoted;
    var a := Keep(s[..n]);
    forall i | 0 <= i < |[a] + rest| && ([a] + rest)[i].Literal? ensures PieceQuoted(s, html, [a] + rest, i) {
      assert ([a] + rest)[i] == rest[i - 1];
      QuotedAfterOne(s, html, a, rest, i - 1);
    }
  }

  lemma AllQuotedClosed(s: string, html: bool, rest: seq<Piece>)
    requires Opener(s, html) > 0 && CloseAt(s, html) < |s|
    requires AllQuoted(s[CloseAt(s, html) + 1..], html, rest)
    ensures Opener(s, html) <= CloseAt(s, html)
    ensures var (n, e) := (Opener(s, html), CloseAt(s, html));
            AllQuoted(s, html, [Keep(s[..n]), Literal(s[n..e]), Keep(s[e..e + 1])] + rest)
  {
    hide PieceQuoted, Opener, LiteralEnd;
    QuotedFirst(s, html, rest);
    var (n, e) := (Opener(s, html), CloseAt(s, html));
    hide CloseAt;
    var (a, b, c) := (Keep(s[..n]), Literal(s[n..e]), Keep(s[e..e + 1]));
    var pieces := [a, b, c] + rest;
    assert pieces[0] == a && pieces[1] == b && pieces[2] == c;
    forall i | 0 <= i < |pieces| && pieces[i].Literal? ensures PieceQuoted(s, html, pieces, i) {
      if i >= 3 {
        assert pieces[i] == rest[i - 3];
        QuotedAfterThree(s, html, a, b, c, rest, i - 3);
      }
    }
  }

  /** Every piece handed to the rule is the inside of a quoted literal of the input. */
  lemma {:induction false} LiteralsAreQuoted(s: string, html: bool)
    ensures AllQuoted(s, html, Pieces(s, html))
    decreases |s|
  {
    hide CloseAt, PlainLength, AllQuoted, Opener, Pieces;
    if s == "" {
      NoLiterals(s, html, []);
      assert Pieces(s, html) == [] by { PiecesEmpty(html); }
    } else if Opener(s, html) == 0 {
      PiecesPlain(s, html);
      LiteralsAreQuoted(s[PlainLength(s)..], html);
      AllQuotedPlain(s, html, PlainLength(s), Pieces(s[PlainLength(s)..], html));
    } else if CloseAt(s, html) < |s| {
      PiecesClosed(s, html);
      LiteralsAreQuoted(s[CloseAt(s, html) + 1..], html);
      AllQuotedClosed(s, html, Pieces(s[CloseAt(s, html) + 1..], html));
    } else {
      PiecesOpen(s, html);
      NoLiterals(s, html, [Keep(s)]);
    }
  }

  lemma PiecesEmpty(html: bool)
    ensures Pieces("", html) == []
  {
  }

  lemma NoLiterals(s: string, html: bool, pieces: seq<Piece>)
    requires forall i :: 0 <= i < |pieces| ==> pieces[i].Keep?
    ensures AllQuoted(s, html, pieces)
  {
  }
}
