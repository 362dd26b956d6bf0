/** What the tokenizer makes of each form of markup, well formed or not, by the characters of the input alone.
    src/html_parser.cpp:91-312. */
module HtmlForms {
  import opened HtmlParser
  import opened Options

  /** The characters from i to j - 1 are of the kind, and the one at j, if there is one, is not. */
  ghost predicate Run(s: string, i: nat, j: nat, p: char -> bool) {
    i <= j <= |s| && (forall k :: i <= k < j ==> p(s[k])) && (j < |s| ==> !p(s[j]))
  }

  lemma RunIs(s: string, i: nat, j: nat, p: char -> bool)
    requires Run(s, i, j, p)
    ensures i <= |s| && Span(s, i, p) == j
  {
    SpanIs(s, i, j, p);
  }

  // ---------- attributes ----------

  /** A name, spaces, '=', spaces, and a value in quotes, which ends at the next such quote or with the
      input; spaces behind it belong to it. */
  lemma QuotedAttribute(s: string, cp: nat, n: nat, e: nat, v: nat, v1: nat, w: nat)
    requires cp < n && Run(s, cp, n, IsNameChar) && Run(s, n, e, IsSpace) && e < |s| && s[e] == '='
    requires Run(s, e + 1, v, IsSpace) && v < |s| && (s[v] == '\"' || s[v] == '\'') && Run(s, v + 1, v1, Other(s[v]))
    requires Run(s, if v1 < |s| then v1 + 1 else v1, w, IsSpace)
    ensures SkipAttribute(s, cp) == AttributeScan(Slice(cp, n), Some(Slice(v + 1, v1)), [s[v]], w)
  {
    hide Run, Span;
    RunFacts(s, cp, n, IsNameChar);
    RunIs(s, cp, n, IsNameChar); RunIs(s, n, e, IsSpace); RunIs(s, e + 1, v, IsSpace);
    RunIs(s, v + 1, v1, Other(s[v]));
    RunIs(s, if v1 < |s| then v1 + 1 else v1, w, IsSpace);
  }

  lemma RunFacts(s: string, i: nat, j: nat, p: char -> bool)
    requires Run(s, i, j, p)
    ensures i <= j <= |s|
  {
  }

  /** The same without quotes: the value ends at a space, a '>' or with the input. */
  lemma BareAttribute(s: string, cp: nat, n: nat, e: nat, v: nat, v1: nat, w: nat)
    requires cp < n && Run(s, cp, n, IsNameChar) && Run(s, n, e, IsSpace) && e < |s| && s[e] == '='
    requires Run(s, e + 1, v, IsSpace) && (v < |s| ==> s[v] != '\"' && s[v] != '\'') && Run(s, v, v1, IsBare)
    requires Run(s, v1, w, IsSpace)
    ensures SkipAttribute(s, cp) == AttributeScan(Slice(cp, n), Some(Slice(v, v1)), "", w)
  {
    hide Run, Span;
    RunFacts(s, cp, n, IsNameChar); RunFacts(s, e + 1, v, IsSpace);
    RunIs(s, cp, n, IsNameChar); RunIs(s, n, e, IsSpace); RunIs(s, e + 1, v, IsSpace);
    RunIs(s, v, v1, IsBare); RunIs(s, v1, w, IsSpace);
  }

  /** A name without '=' behind it is an attribute without a value. */
  lemma PlainAttribute(s: string, cp: nat, n: nat, e: nat)
    requires cp < n && Run(s, cp, n, IsNameChar) && Run(s, n, e, IsSpace) && (e < |s| ==> s[e] != '=')
    ensures SkipAttribute(s, cp) == AttributeScan(Slice(cp, n), None, "", e)
  {
    hide Run, Span;
    RunFacts(s, cp, n, IsNameChar); RunFacts(s, n, e, IsSpace);
    RunIs(s, cp, n, IsNameChar); RunIs(s, n, e, IsSpace);
  }

  /** Where no name begins there is an empty attribute at most, over the spaces there; the list of
      attributes goes on behind them, and ends where nothing is skipped. */
  lemma NoName(s: string, tag: Slice, cp: nat, w: nat)
    requires Run(s, cp, cp, IsNameChar) && Run(s, cp, w, IsSpace)
    ensures SkipAttribute(s, cp) == AttributeScan(Slice(cp, cp), None, "", w)
    ensures cp == w ==> Attributes(s, tag, cp) == ([], cp)
  {
    hide Run, Span;
    RunFacts(s, cp, w, IsSpace);
    RunIs(s, cp, cp, IsNameChar); RunIs(s, cp, w, IsSpace);
  }

  /** One attribute after the other, up to '/', '<', '>' or the end of the input. */
  lemma AttributesStep(s: string, tag: Slice, i: nat)
    requires i <= |s|
    ensures (i == |s| || s[i] == '/' || s[i] == '<' || s[i] == '>') ==> Attributes(s, tag, i) == ([], i)
    ensures i < |s| && s[i] != '/' && s[i] != '<' && s[i] != '>' && SkipAttribute(s, i).end > i ==>
              var a := SkipAttribute(s, i);
              var (events, end) := Attributes(s, tag, a.end);
              Attributes(s, tag, i) == ([Attribute(tag, a.attr, a.value, a.sep)] + events, end)
  {
    hide SkipAttribute;
  }

  // ---------- the end of a tag ----------

  /** What stands in front of '/', '<' or '>' is reported as text; only '>' or "/>" ends the tag. */
  lemma TagEndForms(s: string, tag: Slice, cp: nat, i: nat)
    requires Run(s, cp, i, IsPlain)
    ensures cp <= |s|
    ensures var text := if cp < i then [Text(Slice(cp, i))] else [];
            TagEnd(s, tag, cp) ==
              if i < |s| && s[i] == '>' then (text + [AnyTagEnd(tag, false)], i + 1)
              else if i < |s| && s[i] == '/' then
                if i + 1 < |s| && s[i + 1] == '>' then (text + [AnyTagEnd(tag, true)], i + 2) else (text, i + 1)
              else (text, i)
  {
    hide Run, Span;
    RunFacts(s, cp, i, IsPlain);
    RunIs(s, cp, i, IsPlain);
  }

  // ---------- comments, declarations, instructions ----------

  /** "-->" at k. */
  predicate Arrow(s: string, k: nat) {
    k + 2 < |s| && s[k] == '-' && s[k + 1] == '-' && s[k + 2] == '>'
  }

  lemma {:induction false} CommentEndIs(s: string, i: nat)
    requires i <= |s|
    ensures match CommentEnd(s, i)
            case Some(k) => i <= k && Arrow(s, k) && forall j: nat :: i <= j < k ==> !Arrow(s, j)
            case None => forall j: nat :: i <= j ==> !Arrow(s, j)
    decreases |s| - i
  {
    if i < |s| { CommentEndIs(s, i + 1); }
  }

  lemma {:induction false} CommentEndAt(s: string, i: nat, k: nat)
    requires i <= k && Arrow(s, k) && forall j: nat :: i <= j < k ==> !Arrow(s, j)
    ensures CommentEnd(s, i) == Some(k)
    decreases k - i
  {
    if i < k {
      assert !Arrow(s, i);
      CommentEndAt(s, i + 1, k);
    }
  }

  predicate BeginsComment(s: string, cp: nat) {
    cp + 3 < |s| && s[cp] == '<' && s[cp + 1] == '!' && s[cp + 2] == '-' && s[cp + 3] == '-'
  }

  /** A comment reaches to its first "-->" behind "<!--". */
  lemma ClosedComment(s: string, cp: nat, k: nat)
    requires BeginsComment(s, cp) && cp + 4 <= k && Arrow(s, k) && forall j: nat :: cp + 4 <= j < k ==> !Arrow(s, j)
    ensures MarkupAt(s, cp, true) == Declaration
    ensures var tag := Slice(cp + 1, k + 2); Tag(s, cp, true) == ([OpenTagStart(tag), AnyTagEnd(tag, false)], k + 3, true)
  {
    CommentEndAt(s, cp + 4, k);
    var tag := Slice(cp + 1, k + 2);
    assert Run(s, k + 2, k + 2, IsPlain);
    TagEndForms(s, tag, k + 2, k + 2);
    hide CommentEnd, Span, TagEnd, Arrow, Run;
    assert [OpenTagStart(tag)] + ([] + [AnyTagEnd(tag, false)]) == [OpenTagStart(tag), AnyTagEnd(tag, false)];
  }

  /** One that is not closed is not reported, nor anything behind it. */
  lemma OpenComment(s: string, cp: nat)
    requires BeginsComment(s, cp) && forall k: nat :: cp + 4 <= k ==> !Arrow(s, k)
    ensures MarkupAt(s, cp, true) == Declaration
    ensures Tag(s, cp, true) == ([], |s|, true)
  {
    CommentEndIs(s, cp + 4);
    assert Run(s, |s|, |s|, IsPlain);
    TagEndForms(s, Slice(cp + 1, |s|), |s|, |s|);
    hide CommentEnd, Span, TagEnd, Run;
  }

  /** Any other declaration, and an instruction, reaches to the next '>', or to the end of the input. */
  lemma OtherDeclarations(s: string, cp: nat, i: nat)
    requires cp + 1 < |s| && s[cp] == '<' && (s[cp + 1] == '!' || s[cp + 1] == '?')
    requires !BeginsComment(s, cp)
    requires Run(s, cp + 2, i, Other('>'))
    ensures Tag(s, cp, true) ==
              (var tag := Slice(cp + 1, i);
               if i < |s| then ([OpenTagStart(tag), AnyTagEnd(tag, false)], i + 1, true) else ([OpenTagStart(tag)], i, true))
  {
    RunFacts(s, cp + 2, i, Other('>'));
    RunIs(s, cp + 2, i, Other('>'));
    assert Run(s, i, i, IsPlain);
    TagEndForms(s, Slice(cp + 1, i), i, i);
    hide Span, TagEnd, CommentEnd;
    var tag := Slice(cp + 1, i);
    assert MarkupAt(s, cp, true) == if s[cp + 1] == '!' then Declaration else Instruction;
    assert TagEnd(s, tag, i) == if i < |s| then ([AnyTagEnd(tag, false)], i + 1) else ([], i) by {
      assert [] + [AnyTagEnd(tag, false)] == [AnyTagEnd(tag, false)];
    }
    assert [OpenTagStart(tag)] + [AnyTagEnd(tag, false)] == [OpenTagStart(tag), AnyTagEnd(tag, false)];
    assert [OpenTagStart(tag)] + [] == [OpenTagStart(tag)];
  }

  // ---------- scripts ----------

  /** "</script" in any case, spaces and '>'. */
  ghost predicate EndsScript(s: string, cp: nat, e: nat) {
    && cp + 8 <= e < |s| && s[cp] == '<' && s[cp + 1] == '/' && s[e] == '>'
    && CaseOf(s[cp + 2], 's', 'S') && CaseOf(s[cp + 3], 'c', 'C') && CaseOf(s[cp + 4], 'r', 'R')
    && CaseOf(s[cp + 5], 'i', 'I') && CaseOf(s[cp + 6], 'p', 'P') && CaseOf(s[cp + 7], 't', 'T')
    && (forall k :: cp + 8 <= k < e ==> IsSpace(s[k]))
  }

  predicate CaseOf(c: char, lower: char, upper: char) { c == lower || c == upper }

  /** Inside a script nothing but its closing tag is markup. */
  lemma ScriptForms(s: string, cp: nat)
    requires cp < |s|
    ensures if exists e :: EndsScript(s, cp, e) then MarkupAt(s, cp, false) == Closing else MarkupAt(s, cp, false) == NoMarkup
  {
    if e :| EndsScript(s, cp, e) {
      SpanIs(s, cp + 2, cp + 8, IsNameChar);
      SpanIs(s, cp + 8, e, IsSpace);
    } else if MarkupAt(s, cp, false) == Closing {
      var n := Span(s, cp + 2, IsNameChar);
      assert EndsScript(s, cp, Span(s, n, IsSpace));
    }
  }

  /** Outside scripts the character behind '<' decides. */
  lemma MarkupForms(s: string, cp: nat)
    requires cp < |s|
    ensures var c := if cp + 1 < |s| then s[cp + 1] else '\0';
            MarkupAt(s, cp, true) ==
              if s[cp] != '<' then NoMarkup
              else if c == '!' then Declaration
              else if c == '?' then Instruction
              else if c == '/' && cp + 2 < |s| && IsAlpha(s[cp + 2]) then Closing
              else if IsAlpha(c) then Opening
              else NoMarkup
  {
    hide Span;
  }
}
