/** What rewriting quoted literals keeps of the input's structure, and the method itself,
    src/filter_http_rewrite.cpp:481-547. */
module QuotedRewrite {
  import opened QuotedLiteral

  // ---------- scanning the output again ----------

  /** A replacement that can stand inside a literal of any kind. */
  ghost predicate Safe(w: string, html: bool) {
    && (forall k :: 0 <= k < |w| ==> w[k] != '\n' && !IsQuoteChar(w[k]))
    && (w != "" ==> w[|w| - 1] != '\\')
    && (html ==> forall k :: 0 <= k < |w| ==> !(QUOT <= w[k..]))
  }

  /** b is a with other, safe, texts in its literals. */
  ghost predicate Replaces(a: seq<Piece>, b: seq<Piece>, html: bool) {
    && |a| == |b|
    && forall i :: 0 <= i < |a| ==> if a[i].Keep? then b[i] == a[i] else b[i].Literal? && Safe(b[i].text, html)
  }

  lemma ReplacesOne(x: Piece, a: seq<Piece>, b: seq<Piece>, html: bool)
    requires Replaces([x] + a, b, html) && x.Keep?
    ensures b != [] && b == [x] + b[1..] && Replaces(a, b[1..], html)
  {
    hide Safe;
    assert ([x] + a)[0] == x;
    forall i | 0 <= i < |a| ensures if a[i].Keep? then b[1..][i] == a[i] else b[1..][i].Literal? && Safe(b[1..][i].text, html) {
      assert ([x] + a)[i + 1] == a[i];
    }
  }

  lemma ReplacesThree(x: Piece, y: Piece, z: Piece, a: seq<Piece>, b: seq<Piece>, html: bool)
    requires Replaces([x, y, z] + a, b, html) && x.Keep? && y.Literal? && z.Keep?
    ensures |b| >= 3 && b[1].Literal? && Safe(b[1].text, html) && b == [x, b[1], z] + b[3..] && Replaces(a, b[3..], html)
  {
    hide Safe;
    var all := [x, y, z] + a;
    assert all[0] == x && all[1] == y && all[2] == z;
    forall i | 0 <= i < |a| ensures if a[i].Keep? then b[3..][i] == a[i] else b[3..][i].Literal? && Safe(b[3..][i].text, html) {
      assert all[i + 3] == a[i];
    }
  }

  lemma FirstPiece(s: string, html: bool)
    requires s != ""
    ensures Pieces(s, html) != [] && Pieces(s, html)[0].Keep?
    ensures Pieces(s, html)[0].text != "" && Pieces(s, html)[0].text[0] == s[0]
  {
    hide LiteralEnd;
  }

  /** Replacing literals keeps the first character, and whether there is one. */
  lemma HeadKept(s: string, html: bool, b: seq<Piece>)
    requires Replaces(Pieces(s, html), b, html)
    ensures Join(b) == "" <==> s == ""
    ensures s != "" ==> Join(b)[0] == s[0]
  {
    hide Safe, LiteralEnd, Opener, PlainLength;
    if s != "" {
      FirstPiece(s, html);
      hide Pieces;
      assert b[0] == Pieces(s, html)[0];
    }
  }

  ghost predicate Letters(p: string) {
    forall k :: 0 <= k < |p| ==> p[k] != '&' && p[k] != '/' && !IsQuoteChar(p[k])
  }

  lemma LetterPlain(s: string, html: bool)
    requires s != "" && Letters(s[..1])
    ensures Opener(s, html) == 0 && PlainLength(s) == 1
  {
    assert s[..1][0] == s[0];
  }

  /** Replacing literals keeps the letters in front of anything that could open one. */
  lemma {:induction false} LettersKept(s: string, html: bool, b: seq<Piece>, p: string)
    requires Replaces(Pieces(s, html), b, html) && Letters(p)
    ensures p <= s <==> p <= Join(b)
    decreases |p|
  {
    hide Pieces, Safe, Opener, PlainLength, Replaces;
    HeadKept(s, html, b);
    if p != "" && s != "" && s[0] == p[0] {
      assert s[..1] == p[..1];
      assert Letters(s[..1]) && Letters(p[1..]);
      hide Letters;
      LetterPlain(s, html);
      PiecesPlain(s, html);
      ReplacesOne(Keep(s[..1]), Pieces(s[1..], html), b, html);
      LettersKept(s[1..], html, b[1..], p[1..]);
      JoinOne(Keep(s[..1]), b[1..]);
      hide Join;
      PrefixStep(p, s);
      PrefixStep(p, Join(b));
      assert Join(b)[1..] == Join(b[1..]);
    }
  }

  lemma PrefixStep(p: string, s: string)
    requires p != ""
    ensures p <= s <==> s != "" && s[0] == p[0] && p[1..] <= s[1..]
  {
    if p <= s {
      assert p == s[..|p|];
      assert p[1..] == s[1..][..|p| - 1];
    }
    if s != "" && s[0] == p[0] && p[1..] <= s[1..] {
      assert s == [s[0]] + s[1..] && p == [p[0]] + p[1..];
      assert s[1..][..|p| - 1] == p[1..];
      assert s[..|p|] == [s[0]] + s[1..][..|p| - 1];
    }
  }

  lemma EntityStep(s: string)
    ensures QUOT <= s <==> s != "" && s[0] == '&' && "quot;" <= s[1..]
  {
    PrefixStep(QUOT, s);
    assert QUOT[1..] == "quot;";
  }

  lemma {:induction false} LineEnds(s: string)
    requires s != ""
    ensures LineLength(s) < |s| ==> s[LineLength(s)] == '\n'
  {
    if |s| > 1 && s[1] != '\n' {
      LineEnds(s[1..]);
      var n := LineLength(s);
      assert n < |s| ==> s[n] == s[1..][n - 1];
    }
  }

  lemma {:induction false} LineLengthKept(s: string, t: string)
    requires s != "" && (t == "" || t[0] == '\n')
    ensures LineLength(s[..LineLength(s)] + t) == LineLength(s)
  {
    var n := LineLength(s);
    var x := s[..n] + t;
    if |s| > 1 && s[1] != '\n' {
      LineLengthKept(s[1..], t);
      assert x[1..] == s[1..][..n - 1] + t && x[1] == s[1];
    }
  }

  lemma PlainKept(s: string, html: bool, b: seq<Piece>)
    requires s != "" && Opener(s, html) == 0 && Replaces(Pieces(s[PlainLength(s)..], html), b, html)
    ensures var n := PlainLength(s);
            var x := s[..n] + Join(b);
            Opener(x, html) == 0 && PlainLength(x) == n
  {
    hide Pieces, Replaces, Join;
    var n := PlainLength(s);
    var x := s[..n] + Join(b);
    HeadKept(s[n..], html, b);
    assert x[0] == s[0];
    if "//" <= s {
      LineEnds(s);
      LineLengthKept(s, Join(b));
      assert x[1] == s[1] by { TwoOf(s, n, Join(b)); }
    } else {
      assert n == 1 && x[1..] == Join(b);
      EntityStep(s);
      EntityStep(x);
      LettersKept(s[1..], html, b, "quot;");
      hide LineLength;
      SlashStep(s);
      SlashStep(x);
    }
  }

  lemma TwoOf(s: string, n: nat, t: string)
    requires "//" <= s && n == LineLength(s)
    ensures n >= 2 && (s[..n] + t)[1] == s[1]
  {
    assert s[1] == '/';
  }

  lemma SlashStep(s: string)
    ensures "//" <= s <==> s != "" && s[0] == '/' && s[1..] != "" && s[1..][0] == '/'
  {
    if s != "" && s[1..] != "" { assert s[1..][0] == s[1]; }
  }

  lemma {:induction false} QuoteEndAt(w: string, t: string, prev: char, q: char)
    requires forall k :: 0 <= k < |w| ==> w[k] != '\n' && w[k] != q
    requires t != "" && (t[0] == '\n' || (t[0] == q && Before(w, prev, |w|) != '\\'))
    ensures QuoteEnd(w + t, prev, q) == |w|
  {
    var x := w + t;
    if w == "" {
      assert x == t;
    } else {
      assert x[0] == w[0] && x[1..] == w[1..] + t;
      assert Before(w[1..], w[0], |w| - 1) == Before(w, prev, |w|);
      QuoteEndAt(w[1..], t, w[0], q);
    }
  }

  lemma NoEntityHead(w: string, t: string)
    requires w != "" && !(QUOT <= w) && t != "" && (t[0] == '\n' || t[0] == '&')
    ensures !(QUOT <= w + t)
  {
    var x := w + t;
    if |w| >= 6 {
      assert x[..6] == w[..6];
    } else {
      assert x[|w|] == t[0] && QUOT[|w|] != t[0];
    }
  }

  lemma {:induction false} EntityEndAt(w: string, t: string)
    requires forall k :: 0 <= k < |w| ==> w[k] != '\n' && !(QUOT <= w[k..])
    requires t != "" && (t[0] == '\n' || QUOT <= t)
    ensures EntityEnd(w + t) == |w|
  {
    var x := w + t;
    if w == "" {
      assert x == t;
    } else {
      assert w[0..] == w;
      assert x[0] == w[0] && x[1..] == w[1..] + t;
      NoEntityHead(w, t);
      forall k | 0 <= k < |w[1..]| ensures w[1..][k] != '\n' && !(QUOT <= w[1..][k..]) {
        assert w[1..][k] == w[k + 1] && w[1..][k..] == w[k + 1..];
      }
      EntityEndAt(w[1..], t);
    }
  }

  /** What closes a literal, and what follows it, is still there behind a safe replacement. */
  lemma CloserKept(s: string, html: bool, b: seq<Piece>)
    requires Opener(s, html) > 0 && CloseAt(s, html) < |s| && Replaces(Pieces(s[CloseAt(s, html) + 1..], html), b, html)
    ensures var (e, t) := (CloseAt(s, html), s[CloseAt(s, html)..CloseAt(s, html) + 1] + Join(b));
            && t != ""
            && (html && QUOT <= s ==> t[0] == '\n' || QUOT <= t)
            && (!(html && QUOT <= s) ==> t[0] == '\n' || t[0] == s[0])
  {
    hide Pieces, Replaces, Join, QuoteEnd, EntityEnd;
    var (n, e) := (Opener(s, html), CloseAt(s, html));
    var t := s[e..e + 1] + Join(b);
    assert t[0] == s[e] && t[1..] == Join(b);
    if html && QUOT <= s {
      EntityEndIs(s[n..]);
      assert s[n..][e - n] == s[e] && s[n..][e - n..] == s[e..];
      EntityStep(s[e..]);
      assert s[e..][1..] == s[e + 1..];
      LettersKept(s[e + 1..], html, b, "quot;");
      EntityStep(t);
    } else {
      QuoteEndIs(s[n..], s[0], s[0]);
      assert s[n..][e - n] == s[e];
    }
  }

  lemma SafeBefore(w: string, html: bool, q: char)
    requires Safe(w, html) && IsQuoteChar(q)
    ensures Before(w, q, |w|) != '\\'
  {
  }

  lemma LiteralKept(s: string, html: bool, w: string, t: string)
    requires Opener(s, html) > 0 && Safe(w, html) && t != ""
    requires if html && QUOT <= s then t[0] == '\n' || QUOT <= t else t[0] == '\n' || t[0] == s[0]
    ensures var x := s[..Opener(s, html)] + (w + t);
            Opener(x, html) == Opener(s, html) && CloseAt(x, html) == Opener(s, html) + |w|
  {
    hide QuoteEnd, EntityEnd;
    var n := Opener(s, html);
    var x := s[..n] + (w + t);
    assert x[n..] == w + t && x[0] == s[0];
    if html && QUOT <= s {
      assert s[..6] == QUOT && x[..6] == QUOT;
      EntityEndAt(w, t);
    } else {
      assert IsQuoteChar(s[0]);
      EntityStep(x);
      SafeBefore(w, html, s[0]);
      assert forall k :: 0 <= k < |w| ==> w[k] != '\n' && w[k] != s[0];
      QuoteEndAt(w, t, s[0], s[0]);
    }
  }

  lemma ClosedSame(s: string, html: bool, b: seq<Piece>, w: string)
    requires Opener(s, html) > 0 && CloseAt(s, html) < |s| && Safe(w, html)
    requires Replaces(Pieces(s[CloseAt(s, html) + 1..], html), b, html) && Pieces(Join(b), html) == b
    ensures var (n, e) := (Opener(s, html), CloseAt(s, html));
            var pieces := [Keep(s[..n]), Literal(w), Keep(s[e..e + 1])] + b;
            Pieces(Join(pieces), html) == pieces
  {
    hide Pieces, Replaces, Safe, Opener, CloseAt, Join;
    var (n, e) := (Opener(s, html), CloseAt(s, html));
    JoinThree(Keep(s[..n]), Literal(w), Keep(s[e..e + 1]), b);
    var t := s[e..e + 1] + Join(b);
    CloserKept(s, html, b);
    LiteralKept(s, html, w, t);
    var x := s[..n] + (w + t);
    PiecesClosed(x, html);
    CutOut(s[..n], w, s[e..e + 1], Join(b));
  }

  lemma CutOut(a: string, w: string, c: string, r: string)
    requires |c| == 1
    ensures var x := a + (w + (c + r));
            var (n, e) := (|a|, |a| + |w|);
            e < |x| && x[..n] == a && x[n..e] == w && x[e..e + 1] == c && x[e + 1..] == r
  {
  }

  lemma PlainSame(s: string, html: bool, b: seq<Piece>)
    requires s != "" && Opener(s, html) == 0
    requires Replaces(Pieces(s[PlainLength(s)..], html), b, html) && Pieces(Join(b), html) == b
    ensures var pieces := [Keep(s[..PlainLength(s)])] + b;
            Pieces(Join(pieces), html) == pieces
  {
    hide Pieces, Replaces, Opener, PlainLength, Join;
    var n := PlainLength(s);
    JoinOne(Keep(s[..n]), b);
    PlainKept(s, html, b);
    var x := s[..n] + Join(b);
    PiecesPlain(x, html);
    assert x[..n] == s[..n] && x[n..] == Join(b);
  }

  /** Scanning an output whose literals were replaced by safe texts finds the same pieces, with the
      new texts in the places of the old: nothing else has become, or stopped being, a literal. */
  lemma {:induction false} Rescan(s: string, html: bool, b: seq<Piece>)
    requires Replaces(Pieces(s, html), b, html)
    ensures Pieces(Join(b), html) == b
    decreases |s|
  {
    hide Pieces, CloseAt, PlainLength, Opener, Replaces, Join, Safe;
    if s == "" {
      PiecesEmpty(html);
      RescanKept(s, html, b, []);
      EmptyJoin();
    } else if Opener(s, html) == 0 {
      PiecesPlain(s, html);
      var n := PlainLength(s);
      ReplacesOne(Keep(s[..n]), Pieces(s[n..], html), b, html);
      Rescan(s[n..], html, b[1..]);
      PlainSame(s, html, b[1..]);
    } else if CloseAt(s, html) < |s| {
      PiecesClosed(s, html);
      var (n, e) := (Opener(s, html), CloseAt(s, html));
      ReplacesThree(Keep(s[..n]), Literal(s[n..e]), Keep(s[e..e + 1]), Pieces(s[e + 1..], html), b, html);
      Rescan(s[e + 1..], html, b[3..]);
      ClosedSame(s, html, b[3..], b[1].text);
    } else {
      PiecesOpen(s, html);
      RescanKept(s, html, b, [Keep(s)]);
      JoinOne(Keep(s), []);
      EmptyJoin();
      assert [Keep(s)] + [] == [Keep(s)] && s + "" == s;
    }
  }

  lemma RescanKept(s: string, html: bool, b: seq<Piece>, a: seq<Piece>)
    requires Replaces(a, b, html) && forall i :: 0 <= i < |a| ==> a[i].Keep?
    ensures a == b
  {
  }

  // ---------- the rewritten pieces ----------

  /** The pieces with the texts the rule makes of the literals. */
  function Rewritten<V>(rule: Rule<V>, pieces: seq<Piece>, v: V): (r: seq<Piece>)
    decreases |pieces|
  {
    if pieces == [] then []
    else if pieces[0].Keep? then [pieces[0]] + Rewritten(rule, pieces[1..], v)
    else
      var (text, matched, v1) := rule(v, pieces[0].text);
      [Literal(text)] + Rewritten(rule, pieces[1..], v1)
  }

  lemma {:induction false} RewriteJoins<V>(rule: Rule<V>, pieces: seq<Piece>, v: V)
    ensures Rewrite(rule, pieces, v).0 == Join(Rewritten(rule, pieces, v))
    decreases |pieces|
  {
    hide Join;
    EmptyJoin();
    if pieces != [] {
      if pieces[0].Keep? {
        RewriteJoins(rule, pieces[1..], v);
        JoinOne(pieces[0], Rewritten(rule, pieces[1..], v));
      } else {
        var (text, matched, v1) := rule(v, pieces[0].text);
        RewriteJoins(rule, pieces[1..], v1);
        JoinOne(Literal(text), Rewritten(rule, pieces[1..], v1));
      }
    }
  }

  ghost predicate SafeRule<V(!new)>(rule: Rule<V>, html: bool) {
    forall v, text :: Safe(rule(v, text).0, html)
  }

  lemma {:induction false} RewrittenReplaces<V(!new)>(rule: Rule<V>, pieces: seq<Piece>, v: V, html: bool)
    requires SafeRule(rule, html)
    ensures Replaces(pieces, Rewritten(rule, pieces, v), html)
    decreases |pieces|
  {
    hide Safe;
    if pieces != [] {
      var v1 := if pieces[0].Keep? then v else rule(v, pieces[0].text).2;
      RewrittenReplaces(rule, pieces[1..], v1, html);
      var r := Rewritten(rule, pieces[1..], v1);
      forall i | 0 < i < |pieces| ensures pieces[i] == pieces[1..][i - 1] && Rewritten(rule, pieces, v)[i] == r[i - 1] {
      }
    }
  }

  /** With such a rule the output has the literals of the input, rewritten, and no others. */
  lemma RewriteKeepsStructure<V(!new)>(rule: Rule<V>, s: string, html: bool, v: V)
    requires SafeRule(rule, html)
    ensures var pieces := Pieces(s, html);
            Pieces(Rewrite(rule, pieces, v).0, html) == Rewritten(rule, pieces, v)
  {
    hide Pieces, SafeRule;
    RewriteJoins(rule, Pieces(s, html), v);
    RewrittenReplaces(rule, Pieces(s, html), v, html);
    Rescan(s, html, Rewritten(rule, Pieces(s, html), v));
  }

  // ---------- the method ----------

  lemma Slide(s: string, i: nat)
    requires i < |s|
    ensures s[i..] != "" && s[i..][0] == s[i] && s[i..][1..] == s[i + 1..]
  {
  }

  /** The scan for the closing "&quot;" of a literal that begins at cp0. */
  method EndOfEntity(content: string, cp0: nat) returns (cp: nat)
    requires cp0 <= |content|
    ensures cp0 <= cp && cp == cp0 + EntityEnd(content[cp0..])
  {
    cp := cp0;
    while cp < |content|
      invariant cp0 <= cp <= |content| && EntityEnd(content[cp0..]) == (cp - cp0) + EntityEnd(content[cp..])
    {
      Slide(content, cp);
      if QUOT <= content[cp..] {
        break;
      }
      if content[cp] == '\n' {
        break;
      }
      cp := cp + 1;
    }
  }

  /** The scan for the closing m of a literal that begins at cp0, behind its opening quote. */
  method EndOfQuoted(content: string, cp0: nat, m: char) returns (cp: nat)
    requires 0 < cp0 <= |content|
    ensures cp0 <= cp && cp == cp0 + QuoteEnd(content[cp0..], content[cp0 - 1], m)
  {
    cp := cp0;
    while cp < |content|
      invariant cp0 <= cp <= |content|
      invariant QuoteEnd(content[cp0..], content[cp0 - 1], m) == (cp - cp0) + QuoteEnd(content[cp..], content[cp - 1], m)
    {
      Slide(content, cp);
      if content[cp - 1] != '\\' && content[cp] == m {
        break;
      }
      if content[cp] == '\n' {
        break;
      }
      cp := cp + 1;
    }
  }

  method EndOfLine(content: string, cp0: nat) returns (cp: nat)
    requires cp0 < |content|
    ensures cp0 <= cp && cp + 1 == cp0 + LineLength(content[cp0..])
  {
    cp := cp0;
    while cp + 1 < |content| && content[cp + 1] != '\n'
      invariant cp0 <= cp < |content| && LineLength(content[cp0..]) == (cp - cp0) + LineLength(content[cp..])
    {
      Slide(content, cp);
      assert content[cp..][1] == content[cp + 1];
      cp := cp + 1;
    }
    if cp + 1 < |content| { assert content[cp..][1] == content[cp + 1]; }
  }

  /** What is still to be returned at cp, when content from cp0 on has not been copied yet. */
  function Remaining<V>(rule: Rule<V>, content: string, html: bool, cp0: nat, cp: nat, res: string, replace: bool, v: V): (string, bool, V)
    requires cp0 <= cp <= |content|
  {
    var (out, more, v') := Rewrite(rule, Pieces(content[cp..], html), v);
    (res + content[cp0..cp] + out, replace || more, v')
  }

  lemma RewritePlain<V>(rule: Rule<V>, content: string, html: bool, cp0: nat, cp: nat, res: string, replace: bool, v: V)
    requires cp0 <= cp < |content| && Opener(content[cp..], html) == 0
    ensures cp + PlainLength(content[cp..]) <= |content|
    ensures Remaining(rule, content, html, cp0, cp, res, replace, v)
         == Remaining(rule, content, html, cp0, cp + PlainLength(content[cp..]), res, replace, v)
  {
    hide Opener, PlainLength, Pieces;
    var s := content[cp..];
    var n := PlainLength(s);
    PiecesPlain(s, html);
    assert s[n..] == content[cp + n..];
    var rest := Rewrite(rule, Pieces(s[n..], html), v);
    assert Pieces(s, html)[1..] == Pieces(s[n..], html);
    assert content[cp0..cp] + s[..n] == content[cp0..cp + n];
    assert res + content[cp0..cp] + (s[..n] + rest.0) == res + content[cp0..cp + n] + rest.0;
  }

  lemma RewriteKeep<V>(rule: Rule<V>, text: string, rest: seq<Piece>, v: V)
    ensures var (out, more, v') := Rewrite(rule, rest, v);
            Rewrite(rule, [Keep(text)] + rest, v) == (text + out, more, v')
  {
    assert ([Keep(text)] + rest)[1..] == rest;
  }

  lemma RewriteLiteral<V>(rule: Rule<V>, w: string, rest: seq<Piece>, v: V)
    ensures var (text, matched, v1) := rule(v, w);
            var (out, more, v') := Rewrite(rule, rest, v1);
            Rewrite(rule, [Literal(w)] + rest, v) == (text + out, matched || more, v')
  {
    assert ([Literal(w)] + rest)[1..] == rest;
  }

  lemma RewriteThree<V>(rule: Rule<V>, a: string, w: string, c: string, rest: seq<Piece>, v: V)
    ensures var (text, matched, v1) := rule(v, w);
            var (out, more, v') := Rewrite(rule, rest, v1);
            Rewrite(rule, [Keep(a), Literal(w), Keep(c)] + rest, v) == (a + (text + (c + out)), matched || more, v')
  {
    hide Rewrite;
    assert [Keep(a), Literal(w), Keep(c)] + rest == [Keep(a)] + ([Literal(w)] + ([Keep(c)] + rest));
    RewriteKeep(rule, a, [Literal(w)] + ([Keep(c)] + rest), v);
    RewriteLiteral(rule, w, [Keep(c)] + rest, v);
    RewriteKeep(rule, c, rest, rule(v, w).2);
  }

  lemma RewriteClosed<V>(rule: Rule<V>, content: string, html: bool, cp0: nat, cp: nat, res: string, replace: bool, v: V)
    requires cp0 <= cp < |content| && Opener(content[cp..], html) > 0 && cp + CloseAt(content[cp..], html) < |content|
    ensures Opener(content[cp..], html) <= CloseAt(content[cp..], html)
    ensures var (l, e) := (cp + Opener(content[cp..], html), cp + CloseAt(content[cp..], html));
            var (text, matched, v1) := rule(v, content[l..e]);
            Remaining(rule, content, html, cp0, cp, res, replace, v)
            == Remaining(rule, content, html, e, e + 1, res + content[cp0..l] + text, replace || matched, v1)
  {
    hide Opener, CloseAt, Pieces, Rewrite;
    var s := content[cp..];
    var (n, k) := (Opener(s, html), CloseAt(s, html));
    var (l, e) := (cp + n, cp + k);
    PiecesClosed(s, html);
    assert s[n..k] == content[l..e] && s[k..k + 1] == content[e..e + 1] && s[k + 1..] == content[e + 1..];
    RewriteThree(rule, s[..n], s[n..k], s[k..k + 1], Pieces(s[k + 1..], html), v);
    var (text, matched, v1) := rule(v, content[l..e]);
    var out := Rewrite(rule, Pieces(content[e + 1..], html), v1).0;
    Regroup(res, content[cp0..cp], s[..n], text, content[e..e + 1], out);
    assert content[cp0..cp] + s[..n] == content[cp0..l];
  }

  lemma Regroup(a: string, b: string, c: string, d: string, e: string, f: string)
    ensures a + b + (c + (d + (e + f))) == a + (b + c) + d + e + f
  {
  }

  lemma RewriteOpen<V>(rule: Rule<V>, content: string, html: bool, cp0: nat, cp: nat, res: string, replace: bool, v: V)
    requires cp0 <= cp < |content| && Opener(content[cp..], html) > 0 && cp + CloseAt(content[cp..], html) >= |content|
    ensures cp + Opener(content[cp..], html) <= |content|
    ensures var l := cp + Opener(content[cp..], html);
            Remaining(rule, content, html, cp0, cp, res, replace, v) == (res + content[cp0..l] + content[l..], replace, v)
  {
    hide Opener, CloseAt, Pieces;
    var s := content[cp..];
    PiecesOpen(s, html);
    var l := cp + Opener(s, html);
    RewriteKeep(rule, s, [], v);
    assert [Keep(s)] + [] == [Keep(s)];
    var (a, b, c) := (content[cp0..l], content[l..], content[cp0..cp]);
    assert a + b == content[cp0..] && c + s == content[cp0..];
    assert res + a + b == res + (a + b) && res + c + (s + "") == res + (c + s);
  }

  lemma RewriteNothing<V>(rule: Rule<V>, content: string, html: bool, cp0: nat, res: string, replace: bool, v: V)
    requires cp0 <= |content|
    ensures Remaining(rule, content, html, cp0, |content|, res, replace, v) == (res + content[cp0..], replace, v)
  {
    assert content[|content|..] == "" && content[cp0..|content|] == content[cp0..];
    assert Rewrite(rule, Pieces("", html), v) == ("", false, v);
    assert res + content[cp0..] + "" == res + content[cp0..];
  }

  lemma RewriteStart<V>(rule: Rule<V>, content: string, html: bool, v: V)
    ensures Remaining(rule, content, html, 0, 0, "", false, v) == Rewrite(rule, Pieces(content, html), v)
  {
    hide Rewrite, Pieces;
    assert content[0..] == content && content[0..0] == "";
    var out := Rewrite(rule, Pieces(content, html), v).0;
    assert "" + "" + out == out;
  }

  method EmbedQuotedLiteral<V>(content: string, rule: Rule<V>, html: bool, vars: V)
      returns (res: string, replace: bool, vars': V)
    ensures (res, replace, vars') == Rewrite(rule, Pieces(content, html), vars)
  {
    hide Remaining, Rewrite, Pieces, QuoteEnd, EntityEnd, LineLength;
    replace, res, vars' := false, "", vars;
    var cp: nat, cp0: nat := 0, 0;
    ghost var all := Rewrite(rule, Pieces(content, html), vars);
    RewriteStart(rule, content, html, vars);
    while cp < |content|
      invariant cp0 <= cp <= |content|
      invariant Remaining(rule, content, html, cp0, cp, res, replace, vars') == all
    {
      var at := content[cp..];
      Slide(content, cp);
      ghost var (res0, old0) := (res, cp0);
      if html && QUOT <= at {
        assert Opener(at, html) == 6 && at[6..] == content[cp + 6..];
        ghost var start := cp;
        cp := cp + 6;
        res := res + content[cp0..cp];
        cp0 := cp;
        cp := EndOfEntity(content, cp);
        if cp == |content| {
          RewriteOpen(rule, content, html, old0, start, res0, replace, vars');
          break;
        }
        RewriteClosed(rule, content, html, old0, start, res0, replace, vars');
        var (s, matched, v) := rule(vars', content[cp0..cp]);
        vars' := v;
        if matched { replace := true; }
        cp0 := cp;
        res := res + s;
      } else if content[cp] == '\"' || content[cp] == '\'' {
        assert Opener(at, html) == 1 && at[1..] == content[cp + 1..];
        ghost var start := cp;
        var m := content[cp];
        cp := cp + 1;
        res := res + content[cp0..cp];
        cp0 := cp;
        cp := EndOfQuoted(content, cp, m);
        if cp == |content| {
          RewriteOpen(rule, content, html, old0, start, res0, replace, vars');
          break;
        }
        RewriteClosed(rule, content, html, old0, start, res0, replace, vars');
        var (s, matched, v) := rule(vars', content[cp0..cp]);
        vars' := v;
        if matched { replace := true; }
        cp0 := cp;
        res := res + s;
      } else {
        RewritePlain(rule, content, html, cp0, cp, res, replace, vars');
        SlashStep(at);
        if content[cp] == '/' && cp + 1 < |content| && content[cp + 1] == '/' {
          cp := EndOfLine(content, cp);
        }
      }
      cp := cp + 1;
    }
    RewriteNothing(rule, content, html, cp0, res, replace, vars');
    assert content[cp0..cp] == content[cp0..];
    res := res + content[cp0..cp];
  }
}
