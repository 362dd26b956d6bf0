/** The HTML tokenizer, src/html_parser.cpp:91-312. */
module HtmlParser {
  import opened Options

  /** A stretch of the input: the characters lo .. hi - 1. */
  datatype Slice = Slice(lo: nat, hi: nat)

  /** The callbacks; the separator of an attribute is its quote, or empty. */
  datatype Event =
    | OpenTagStart(tag: Slice)
    | AnyTagEnd(tag: Slice, close: bool)
    | Attribute(tag: Slice, attr: Slice, value: Option<Slice>, sep: string)
    | CloseTag(tag: Slice)
    | Text(text: Slice)

  // ---------- reading the input ----------

  /** A C string holds no NUL before its terminator. */
  ghost predicate Terminated(s: string) {
    forall i :: 0 <= i < |s| ==> s[i] != '\0'
  }

  /** cp[i], which may be read up to the terminator and no further. */
  function At(s: string, i: nat): (c: char)
    requires i <= |s|
    ensures c == '\0' || i < |s|
  {
    if i < |s| then s[i] else '\0'
  }

  predicate IsSpace(c: char) { c == ' ' || c == '\t' || c == '\r' || c == '\n' || c == '\U{000C}' }

  predicate IsDelimiter(c: char) { c == '/' || c == '>' || c == '<' }

  predicate IsNameChar(c: char) { !IsSpace(c) && !IsDelimiter(c) && c != '=' }

  predicate IsAlpha(c: char) { 'a' <= c <= 'z' || 'A' <= c <= 'Z' }

  predicate IsPlain(c: char) { !IsDelimiter(c) }

  predicate IsBare(c: char) { !IsSpace(c) && c != '>' }

  /** All characters but q. */
  function Other(q: char): char -> bool { c => c != q }

  predicate IsQuote(c: char) { c == '\"' || c == '\'' }

  /** The first position from i on, at most the terminator, whose character is not in p. */
  function Span(s: string, i: nat, p: char -> bool): (j: nat)
    requires i <= |s|
    ensures i <= j <= |s|
    ensures forall k :: i <= k < j ==> p(s[k])
    ensures j < |s| ==> !p(s[j])
    decreases |s| - i
  {
    if i < |s| && p(s[i]) then Span(s, i + 1, p) else i
  }

  lemma {:induction false} SpanIs(s: string, i: nat, j: nat, p: char -> bool)
    requires i <= j <= |s| && (forall k :: i <= k < j ==> p(s[k])) && (j < |s| ==> !p(s[j]))
    ensures Span(s, i, p) == j
    decreases j - i
  {
    if i < j { SpanIs(s, i + 1, j, p); }
  }

  // ---------- attributes and tag ends ----------

  datatype AttributeScan = AttributeScan(attr: Slice, value: Option<Slice>, sep: string, end: nat)

  /** The value that begins at v, its separator, and the position behind it. */
  function ScanValue(s: string, v: nat): (r: (Slice, string, nat))
    requires v <= |s|
    ensures v <= r.0.lo <= r.0.hi <= r.2 <= |s|
  {
    var q := At(s, v);
    if IsQuote(q) then
      var v1 := Span(s, v + 1, Other(q));
      (Slice(v + 1, v1), [q], if v1 < |s| then v1 + 1 else v1)
    else
      var v1 := Span(s, v, IsBare);
      (Slice(v, v1), "", v1)
  }

  function SkipAttribute(s: string, cp: nat): (r: AttributeScan)
    requires cp <= |s|
    ensures cp <= r.end <= |s|
    ensures r.attr.lo == cp <= r.attr.hi <= r.end
    ensures r.value.Some? ==> r.attr.hi <= r.value.value.lo <= r.value.value.hi <= r.end
  {
    var n := Span(s, cp, IsNameChar);
    if n == cp then AttributeScan(Slice(cp, cp), None, "", Span(s, cp, IsSpace))
    else
      var e := Span(s, n, IsSpace);
      if At(s, e) != '=' then AttributeScan(Slice(cp, n), None, "", e)
      else
        var (value, sep, after) := ScanValue(s, Span(s, e + 1, IsSpace));
        AttributeScan(Slice(cp, n), Some(value), sep, Span(s, after, IsSpace))
  }

  function Attributes(s: string, tag: Slice, i: nat): (r: (seq<Event>, nat))
    requires i <= |s|
    ensures i <= r.1 <= |s|
    decreases |s| - i
  {
    if i < |s| && !IsDelimiter(s[i]) then
      var a := SkipAttribute(s, i);
      if a.end == i then ([], i)
      else
        var (events, end) := Attributes(s, tag, a.end);
        ([Attribute(tag, a.attr, a.value, a.sep)] + events, end)
    else ([], i)
  }

  function TagAttrs(s: string, tag: Slice, cp: nat): (r: (seq<Event>, nat))
    requires cp <= |s|
    ensures cp <= r.1 <= |s|
  {
    Attributes(s, tag, Span(s, cp, IsSpace))
  }

  function TextEvent(lo: nat, hi: nat): (events: seq<Event>) {
    if lo < hi then [Text(Slice(lo, hi))] else []
  }

  function TagEnd(s: string, tag: Slice, cp: nat): (r: (seq<Event>, nat))
    requires cp <= |s|
    ensures cp <= r.1 <= |s|
  {
    var i := Span(s, cp, IsPlain);
    var close := At(s, i) == '/';
    var j := if close then i + 1 else i;
    if At(s, j) == '>' then (TextEvent(cp, i) + [AnyTagEnd(tag, close)], j + 1) else (TextEvent(cp, i), j)
  }

  // ---------- the tokenizer ----------

  /** The first "-->" from i on. */
  function CommentEnd(s: string, i: nat): (k: Option<nat>)
    requires i <= |s|
    ensures k.Some? ==> i <= k.value && k.value + 2 < |s|
    decreases |s| - i
  {
    if i == |s| then None
    else if s[i] == '-' && At(s, i + 1) == '-' && At(s, i + 2) == '>' then Some(i)
    else CommentEnd(s, i + 1)
  }

  function Lower(c: char): char { if 'A' <= c <= 'Z' then c - 'A' + 'a' else c }

  predicate IsScript(s: string, lo: nat, hi: nat)
    requires lo <= hi <= |s|
  {
    && hi - lo == 6
    && Lower(s[lo]) == 's' && Lower(s[lo + 1]) == 'c' && Lower(s[lo + 2]) == 'r'
    && Lower(s[lo + 3]) == 'i' && Lower(s[lo + 4]) == 'p' && Lower(s[lo + 5]) == 't'
  }

  datatype Markup = NoMarkup | Declaration | Instruction | Closing | Opening

  /** What the '<' at cp begins. Inside a script only its closing tag counts. */
  function MarkupAt(s: string, cp: nat, nest: bool): (m: Markup)
    requires cp < |s|
    ensures !m.NoMarkup? ==> s[cp] == '<' && cp + 1 < |s|
  {
    if s[cp] != '<' then NoMarkup
    else
      var c := At(s, cp + 1);
      if nest && c == '!' then Declaration
      else if nest && c == '?' then Instruction
      else if c == '/' && IsAlpha(At(s, cp + 2)) then
        var n := Span(s, cp + 2, IsNameChar);
        if nest || (IsScript(s, cp + 2, n) && At(s, Span(s, n, IsSpace)) == '>') then Closing else NoMarkup
      else if nest && IsAlpha(c) then Opening
      else NoMarkup
  }

  /** The events of the markup at cp, the position behind it, and whether tags are looked for there. */
  function Tag(s: string, cp: nat, nest: bool): (r: (seq<Event>, nat, bool))
    requires cp < |s| && !MarkupAt(s, cp, nest).NoMarkup?
    ensures cp + 1 <= r.1 <= |s|
  {
    var c := cp + 1;
    match MarkupAt(s, cp, nest)
    case Declaration =>
      if At(s, c + 1) == '-' && At(s, c + 2) == '-' then
        var k := CommentEnd(s, c + 3);
        if k.Some? then
          var (events, end) := TagEnd(s, Slice(c, k.value + 2), k.value + 2);
          ([OpenTagStart(Slice(c, k.value + 2))] + events, end, nest)
        else
          var (events, end) := TagEnd(s, Slice(c, |s|), |s|);
          (events, end, nest)
      else
        var i := Span(s, c + 1, Other('>'));
        var (events, end) := TagEnd(s, Slice(c, i), i);
        ([OpenTagStart(Slice(c, i))] + events, end, nest)
    case Instruction =>
      var i := Span(s, c + 1, Other('>'));
      var (events, end) := TagEnd(s, Slice(c, i), i);
      ([OpenTagStart(Slice(c, i))] + events, end, nest)
    case Closing =>
      var n := Span(s, c + 1, IsNameChar);
      var (events, end) := TagEnd(s, Slice(c + 1, n), n);
      ([CloseTag(Slice(c + 1, n))] + events, end, true)
    case Opening =>
      var n := Span(s, c, IsNameChar);
      var (attrs, a) := TagAttrs(s, Slice(c, n), n);
      var (events, end) := TagEnd(s, Slice(c, n), a);
      ([OpenTagStart(Slice(c, n))] + attrs + events, end, !IsScript(s, c, n))
  }

  /** All events from cp on, when the text since textStart is still to be reported. */
  function Parse(s: string, textStart: nat, cp: nat, nest: bool): (r: (seq<Event>, bool))
    requires textStart <= cp <= |s|
    decreases |s| - cp
  {
    if cp == |s| then (TextEvent(textStart, cp), nest)
    else if MarkupAt(s, cp, nest).NoMarkup? then Parse(s, textStart, cp + 1, nest)
    else
      var (tag, end, nest') := Tag(s, cp, nest);
      var (rest, nest'') := Parse(s, end, end, nest');
      (TextEvent(textStart, cp) + tag + rest, nest'')
  }
}
