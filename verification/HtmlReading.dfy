/** Tokenizing what one token prints, src/html_parser.cpp:91-312. */
module HtmlReading {
  import opened HtmlParser
  import opened HtmlPrinter
  import opened HtmlDocument
  import opened Options

  // ---------- one token ----------

  /** From position i on the input reads x, then y. */
  ghost predicate Reads(s: string, i: nat, x: string, y: string) {
    i <= |s| && s[i..] == x + y
  }

  lemma ReadsFacts(s: string, i: nat, x: string, y: string)
    requires Reads(s, i, x, y)
    ensures i + |x| + |y| == |s| && s[i + |x|..] == y && s[i..i + |x|] == x
    ensures forall k :: 0 <= k < |x| ==> s[i + k] == x[k]
    ensures y != "" ==> s[i + |x|] == y[0]
  {
    assert s[i..][..|x|] == x && s[i..][|x|..] == y;
    forall k | 0 <= k < |x| ensures s[i + k] == x[k] {
      assert s[i..][k] == x[k];
    }
  }

  lemma ReadsSplit(s: string, i: nat, x: string, y: string, z: string)
    requires Reads(s, i, x + y, z)
    ensures Reads(s, i, x, y + z) && Reads(s, i + |x|, y, z)
  {
    assert (x + y) + z == x + (y + z);
    ReadsFacts(s, i, x, y + z);
  }

  lemma ReadsHead(s: string, i: nat, x: string, y: string)
    requires Reads(s, i, x, y) && x + y != ""
    ensures i < |s| && s[i] == (x + y)[0]
  {
    assert s[i..][0] == s[i];
  }

  lemma ReadsSub(s: string, i: nat, x: string, y: string)
    requires Reads(s, i, x, y)
    ensures i + |x| <= |s| && s[i..i + |x|] == x && |s| == i + |x| + |y|
  {
    ReadsFacts(s, i, x, y);
  }

  lemma ReadsSame(s: string, i: nat, x: string, y: string, x': string, y': string)
    requires Reads(s, i, x, y) && x + y == x' + y'
    ensures Reads(s, i, x', y')
  {
  }

  lemma ReadsJoin(s: string, i: nat, x: string, y: string)
    requires Reads(s, i, "", x + y)
    ensures Reads(s, i, x, y)
  {
    assert "" + (x + y) == x + y;
  }

  /** The end of a tag: its '>' or "/>" stands at i. */
  lemma TagEndAt(s: string, tag: Slice, i: nat, close: bool, rest: string)
    requires Reads(s, i, if close then "/>" else ">", rest)
    ensures TagEnd(s, tag, i) == ([AnyTagEnd(tag, close)], i + if close then 2 else 1)
  {
    if close {
      ReadsFacts(s, i, "/>", rest);
      assert s[i + 0] == '/' && s[i + 1] == '>';
    } else {
      ReadsFacts(s, i, ">", rest);
      assert s[i + 0] == '>';
    }
    SpanIs(s, i, i, IsPlain);
    assert TextEvent(i, i) + [AnyTagEnd(tag, close)] == [AnyTagEnd(tag, close)];
  }

  lemma NameAt(s: string, i: nat, n: string, y: string)
    requires Reads(s, i, n, y) && (forall k :: 0 <= k < |n| ==> IsNameChar(n[k])) && (y != "" ==> !IsNameChar(y[0]))
    ensures Span(s, i, IsNameChar) == i + |n|
  {
    ReadsFacts(s, i, n, y);
    forall k | i <= k < i + |n| ensures IsNameChar(s[k]) { assert s[i + (k - i)] == n[k - i]; }
    SpanIs(s, i, i + |n|, IsNameChar);
  }

  lemma ScriptAt(s: string, i: nat, n: string, y: string)
    requires Reads(s, i, n, y)
    ensures i + |n| <= |s| && (IsScript(s, i, i + |n|) <==> ScriptName(n))
  {
    ReadsFacts(s, i, n, y);
  }

  lemma CloseParts(s: string, i: nat, name: string, rest: string)
    requires Reads(s, i, "</" + (name + ">"), rest) && IsName(name)
    ensures i + 2 + |name| < |s| && s[i] == '<' && s[i + 1] == '/' && s[i + 2] == name[0] && s[i + 2 + |name|] == '>'
    ensures Reads(s, i + 2, name, ">" + rest) && Reads(s, i + 2 + |name|, ">", rest)
    ensures s[i + 2..i + 2 + |name|] == name
  {
    hide Reads, IsNameChar;
    ReadsSplit(s, i, "</", name + ">", rest);
    ReadsSplit(s, i + 2, name, ">", rest);
    ReadsFacts(s, i, "</", (name + ">") + rest);
    assert s[i + 0] == '<' && s[i + 1] == '/';
    ReadsSub(s, i + 2, name, ">" + rest);
    ReadsHead(s, i + 2 + |name|, ">", rest);
    ReadsHead(s, i + 2, name, ">" + rest);
  }

  lemma CloseMarkup(s: string, i: nat, name: string, rest: string, nest: bool)
    requires Reads(s, i, "</" + (name + ">"), rest) && IsTagName(name) && (nest || ScriptName(name))
    ensures i < |s| && MarkupAt(s, i, nest) == Closing
    ensures i + 2 + |name| < |s| && Span(s, i + 2, IsNameChar) == i + 2 + |name|
    ensures s[i + 2..i + 2 + |name|] == name && Reads(s, i + 2 + |name|, ">", rest)
  {
    hide Span, IsScript, Reads;
    CloseParts(s, i, name, rest);
    NameAt(s, i + 2, name, ">" + rest);
    ScriptAt(s, i + 2, name, ">" + rest);
    SpanIs(s, i + 2 + |name|, i + 2 + |name|, IsSpace);
  }

  lemma ShowsTwo(s: string, x: Event, y: Event, c: Call, d: Call)
    requires EventIn(s, x) && Shown(s, x) == c && EventIn(s, y) && Shown(s, y) == d
    ensures Shows(s, [x] + [y], [c, d])
  {
    hide EventIn, Shown;
    assert ([x] + [y])[0] == x && ([x] + [y])[1] == y;
  }

  lemma CloseTokenRead(s: string, i: nat, name: string, rest: string, nest: bool)
    requires Reads(s, i, TokenText(CloseToken(name)), rest) && IsTagName(name) && (nest || ScriptName(name))
    ensures i < |s| && MarkupAt(s, i, nest) == Closing
    ensures var (events, end, nest') := Tag(s, i, nest);
            end == i + |TokenText(CloseToken(name))| && nest' && Shows(s, events, Calls(CloseToken(name)))
  {
    hide Span, MarkupAt, HtmlParser.TagEnd, IsTagName, ScriptName, Reads, Shows, IsScript;
    assert TokenText(CloseToken(name)) == "</" + (name + ">");
    CloseMarkup(s, i, name, rest, nest);
    var tag := Slice(i + 2, i + 2 + |name|);
    TagEndAt(s, tag, i + 2 + |name|, false, rest);
    ShowsTwo(s, CloseTag(tag), AnyTagEnd(tag, false), CloseCall(name), EndCall(name, false));
  }

  // ---------- declarations ----------

  lemma {:induction false} CommentEndAt(s: string, c: nat, t: string, y: string, j: nat)
    requires Reads(s, c, t, y) && j <= |t| && CommentEnd(t, j).Some?
    ensures c + j <= |s| && CommentEnd(s, c + j) == Some(c + CommentEnd(t, j).value)
    decreases |t| - j
  {
    ReadsFacts(s, c, t, y);
    var k := CommentEnd(t, j).value;
    assert s[c + j] == t[j] && s[c + (j + 1)] == t[j + 1] && s[c + (j + 2)] == t[j + 2];
    if j < k { CommentEndAt(s, c, t, y, j + 1); }
  }

  lemma DeclMarkup(s: string, i: nat, b: string, rest: string)
    requires Reads(s, i, "<" + (b + ">"), rest) && DeclOk(b)
    ensures i + 1 + |b| < |s| && s[i + 1..i + 1 + |b|] == b && Reads(s, i + 1, b + ">", rest) && Reads(s, i + 1 + |b|, ">", rest)
    ensures MarkupAt(s, i, true) == if b[0] == '!' then Declaration else Instruction
    ensures forall k :: 0 <= k < |b| ==> s[i + 1 + k] == b[k]
    ensures s[i + 1 + |b|] == '>'
  {
    ReadsSplit(s, i, "<", b + ">", rest);
    ReadsSplit(s, i + 1, b, ">", rest);
    ReadsFacts(s, i, "<", (b + ">") + rest);
    ReadsFacts(s, i + 1, b, ">" + rest);
    assert s[i + 0] == '<' && s[i + 1 + 0] == b[0];
  }

  lemma CommentParts(s: string, i: nat, b: string, rest: string)
    requires Reads(s, i, "<" + (b + ">"), rest) && DeclOk(b) && b[0] == '!'
    ensures i + 2 <= |s|
    ensures (At(s, i + 2) == '-' && At(s, i + 3) == '-') <==> (|b| >= 3 && b[1] == '-' && b[2] == '-')
  {
    hide MarkupAt, Reads, CommentEnd;
    DeclMarkup(s, i, b, rest);
    if |b| >= 3 {
      assert s[i + 1 + 1] == b[1] && s[i + 1 + 2] == b[2];
    } else if |b| == 2 {
      assert s[i + 3] == '>';
    } else {
      assert s[i + 2] == '>';
    }
  }

  lemma DeclEnd(s: string, i: nat, b: string, rest: string)
    requires Reads(s, i, "<" + (b + ">"), rest) && DeclOk(b)
    ensures i + 1 + |b| < |s|
    ensures var c := i + 1;
            if b[0] == '!' && At(s, c + 1) == '-' && At(s, c + 2) == '-' then CommentEnd(s, c + 3) == Some(c + |b| - 2)
            else Span(s, c + 1, Other('>')) == c + |b|
  {
    hide MarkupAt, Span, Reads, CommentEnd;
    DeclMarkup(s, i, b, rest);
    var c := i + 1;
    if b[0] == '!' { CommentParts(s, i, b, rest); }
    if b[0] == '!' && At(s, c + 1) == '-' && At(s, c + 2) == '-' {
      CommentEndAt(s, c, b + ">", rest, 3);
    } else {
      forall k | c + 1 <= k < c + |b| ensures s[k] != '>' { assert s[c + (k - c)] == b[k - c]; }
      SpanIs(s, c + 1, c + |b|, Other('>'));
    }
  }

  lemma DeclTag(s: string, i: nat, b: string, rest: string)
    requires Reads(s, i, "<" + (b + ">"), rest) && DeclOk(b)
    ensures i + 1 + |b| < |s| && s[i + 1..i + 1 + |b|] == b && !MarkupAt(s, i, true).NoMarkup?
    ensures var tag := Slice(i + 1, i + 1 + |b|);
            Tag(s, i, true) == ([OpenTagStart(tag)] + [AnyTagEnd(tag, false)], i + 2 + |b|, true)
  {
    hide Span, MarkupAt, HtmlParser.TagEnd, CommentEnd, Reads, IsScript;
    DeclMarkup(s, i, b, rest);
    DeclEnd(s, i, b, rest);
    TagEndAt(s, Slice(i + 1, i + 1 + |b|), i + 1 + |b|, false, rest);
  }

  lemma DeclTokenRead(s: string, i: nat, b: string, rest: string)
    requires Reads(s, i, TokenText(DeclToken(b)), rest) && DeclOk(b)
    ensures i < |s| && !MarkupAt(s, i, true).NoMarkup?
    ensures var (events, end, nest) := Tag(s, i, true);
            end == i + |TokenText(DeclToken(b))| && nest && Shows(s, events, Calls(DeclToken(b)))
  {
    hide MarkupAt, Reads, Shows, Tag, DeclOk;
    assert TokenText(DeclToken(b)) == "<" + (b + ">");
    DeclTag(s, i, b, rest);
    var tag := Slice(i + 1, i + 1 + |b|);
    ShowsTwo(s, OpenTagStart(tag), AnyTagEnd(tag, false), OpenCall(b), EndCall(b, false));
  }

  // ---------- attributes ----------

  /** What may follow an attribute: the end of the tag, or a blank and the next name. */
  ghost predicate Ends(y: string) {
    && y != ""
    && (y[0] == '/' || y[0] == '>' || (y[0] == ' ' && |y| > 1 && IsNameChar(y[1])))
  }

  /** What follows ends the attribute's value where it was printed to end. */
  ghost predicate EndsSafely(a: Attr, y: string) {
    Bare(a) ==> y != "" && y[0] != '/' && (a.value.value == "" ==> y[0] == '>')
  }

  lemma NoEqualsAfter(s: string, e: nat, y: string)
    requires Reads(s, e, "", y) && Ends(y)
    ensures At(s, Span(s, e, IsSpace)) != '='
  {
    ReadsFacts(s, e, "", y);
    if y[0] == ' ' {
      assert s[e..][1] == y[1];
      SpanIs(s, e, e + 1, IsSpace);
    } else {
      SpanIs(s, e, e, IsSpace);
    }
  }

  /** An attribute with an equals sign: where its value starts to be scanned. */
  lemma ValueStart(s: string, i: nat, name: string, y: string)
    requires Reads(s, i, name, "=" + y) && IsName(name) && y != "" && !IsSpace(y[0])
    ensures var n := i + |name|;
            n < |s| && Reads(s, n + 1, "", y) && s[i..n] == name &&
            Span(s, i, IsNameChar) == n && Span(s, n, IsSpace) == n && s[n] == '=' && Span(s, n + 1, IsSpace) == n + 1
  {
    hide Span;
    NameAt(s, i, name, "=" + y);
    ReadsFacts(s, i, name, "=" + y);
    var n := i + |name|;
    assert s[n..] == "=" + y;
    assert s[n + 1..] == y by { assert s[n..][1..] == s[n + 1..]; }
    assert s[n + 1] == s[n + 1..][0];
    SpanIs(s, n, n, IsSpace);
    SpanIs(s, n + 1, n + 1, IsSpace);
  }

  lemma QuotedValue(s: string, v: nat, q: char, value: string, y: string)
    requires Reads(s, v, [q] + (value + [q]), y) && IsQuote(q) && forall k :: 0 <= k < |value| ==> value[k] != q
    ensures v + 2 + |value| <= |s| && s[v + 1..v + 1 + |value|] == value
    ensures ScanValue(s, v) == (Slice(v + 1, v + 1 + |value|), [q], v + 2 + |value|)
  {
    hide Span;
    ReadsFacts(s, v, [q] + (value + [q]), y);
    ReadsSplit(s, v, [q], value + [q], y);
    ReadsSplit(s, v + 1, value, [q], y);
    ReadsFacts(s, v + 1, value, [q] + y);
    forall k | v + 1 <= k < v + 1 + |value| ensures Other(q)(s[k]) { assert s[v + 1 + (k - (v + 1))] == value[k - (v + 1)]; }
    assert s[v + 0] == q;
    SpanIs(s, v + 1, v + 1 + |value|, Other(q));
  }

  lemma BareValue(s: string, v: nat, value: string, y: string)
    requires Reads(s, v, value, y) && (forall k :: 0 <= k < |value| ==> IsBare(value[k])) && (value != "" ==> !IsQuote(value[0]))
    requires y != "" && (y[0] == ' ' || y[0] == '>')
    ensures v + |value| <= |s| && s[v..v + |value|] == value
    ensures ScanValue(s, v) == (Slice(v, v + |value|), "", v + |value|)
  {
    hide Span;
    ReadsFacts(s, v, value, y);
    forall k | v <= k < v + |value| ensures IsBare(s[k]) { assert s[v + (k - v)] == value[k - v]; }
    assert value != "" ==> s[v + 0] == value[0];
    SpanIs(s, v, v + |value|, IsBare);
  }

  /** An unquoted value runs on into what follows it. */
  lemma BareOverrun(s: string, v: nat, value: string, y: string)
    requires Reads(s, v, value, y) && (forall k :: 0 <= k < |value| ==> IsBare(value[k]))
    requires y != "" && IsBare(y[0])
    ensures v + |value| < |s| && Span(s, v, IsBare) > v + |value|
  {
    hide IsBare;
    ReadsFacts(s, v, value, y);
    forall k | v <= k < v + |value| ensures IsBare(s[k]) { assert s[v + (k - v)] == value[k - v]; }
    assert IsBare(s[v + |value|]);
  }

  /** The value of an attribute with its quotes. */
  function Quoted(a: Attr): string
    requires a.value.Some?
  {
    a.quote + (a.value.value + a.quote)
  }

  /** The text of an attribute with a value: its name, the equals sign, and the rest. */
  lemma ValueText(s: string, i: nat, a: Attr, y: string)
    requires Reads(s, i, AttrText(a), y) && a.value.Some?
    ensures Reads(s, i, a.name, "=" + (Quoted(a) + y))
  {
    var x := Quoted(a);
    assert AttrText(a) + y == a.name + ("=" + (x + y));
  }

  lemma AttrWithValue(s: string, i: nat, a: Attr, y: string)
    requires Reads(s, i, AttrText(a), y) && AttrOk(a) && a.value.Some? && Ends(y) && EndsSafely(a, y)
    ensures var n := i + |a.name|;
            && n < |s| && Reads(s, n + 1, Quoted(a), y) && s[i..n] == a.name
            && Span(s, i, IsNameChar) == n && Span(s, n, IsSpace) == n && s[n] == '=' && Span(s, n + 1, IsSpace) == n + 1
  {
    hide Span, AttrText, Reads, IsName, Quoted, Ends, EndsSafely, IsSpace;
    ValueText(s, i, a, y);
    NotSpaced(a, y);
    ValueStart(s, i, a.name, Quoted(a) + y);
    ReadsJoin(s, i + |a.name| + 1, Quoted(a), y);
  }

  lemma ValueAt(s: string, v: nat, a: Attr, y: string)
    requires a.value.Some? && Reads(s, v, Quoted(a), y) && AttrOk(a) && Ends(y) && EndsSafely(a, y)
    ensures v + |a.value.value| + 2 * |a.quote| <= |s|
    ensures var (slice, sep, after) := ScanValue(s, v);
            SliceIn(s, slice) && Sub(s, slice) == a.value.value && sep == a.quote && after == v + |a.value.value| + 2 * |a.quote|
  {
    hide Span, ScanValue, Reads;
    if a.quote == "" {
      assert Quoted(a) == a.value.value;
      BareValue(s, v, a.value.value, y);
    } else {
      assert a.quote == [a.quote[0]];
      QuotedValue(s, v, a.quote[0], a.value.value, y);
    }
  }

  lemma BareName(s: string, i: nat, a: Attr, y: string)
    requires Reads(s, i, AttrText(a), y) && AttrOk(a) && a.value.None? && Ends(y)
    ensures i + |a.name| <= |s| && |AttrText(a)| == |a.name|
    ensures s[i..i + |a.name|] == a.name && Span(s, i, IsNameChar) == i + |a.name| && At(s, Span(s, i + |a.name|, IsSpace)) != '='
  {
    hide Span, Reads, Ends;
    ReadsSame(s, i, AttrText(a), y, a.name, y);
    AfterName(s, i, a.name, y);
    NoEqualsAfter(s, i + |a.name|, y);
  }

  lemma QuotedLength(a: Attr)
    requires a.value.Some?
    ensures |Quoted(a)| == |a.value.value| + 2 * |a.quote| && |AttrText(a)| == |a.name| + 1 + |Quoted(a)|
  {
  }

  lemma AttrAt(s: string, i: nat, a: Attr, y: string)
    requires Reads(s, i, AttrText(a), y) && AttrOk(a) && Ends(y) && EndsSafely(a, y)
    ensures i + |AttrText(a)| <= |s|
    ensures var r := SkipAttribute(s, i);
            && r.end == Span(s, i + |AttrText(a)|, IsSpace)
            && Sub(s, r.attr) == a.name && r.sep == a.quote
            && r.value.Some? == a.value.Some? && (r.value.Some? ==> Sub(s, r.value.value) == a.value.value)
  {
    hide Span, ScanValue, IsSpace, IsNameChar, Reads, EndsSafely, Ends, IsQuote, IsBare, AttrText, Quoted;
    ReadsSub(s, i, AttrText(a), y);
    assert a.name != "" && (a.value.None? ==> a.quote == "");
    hide AttrOk;
    if a.value.None? {
      BareName(s, i, a, y);
    } else {
      QuotedLength(a);
      AttrWithValue(s, i, a, y);
      ValueAt(s, i + |a.name| + 1, a, y);
    }
  }

  lemma NotSpaced(a: Attr, y: string)
    requires AttrOk(a) && a.value.Some? && Ends(y) && EndsSafely(a, y)
    ensures Quoted(a) + y != "" && !IsSpace((Quoted(a) + y)[0])
  {
    if a.quote == "" { assert Quoted(a) == a.value.value; }
  }

  lemma AfterName(s: string, i: nat, name: string, y: string)
    requires Reads(s, i, name, y) && IsName(name) && Ends(y)
    ensures i + |name| <= |s| && Span(s, i, IsNameChar) == i + |name| && Reads(s, i + |name|, "", y) && s[i..i + |name|] == name
  {
    NameAt(s, i, name, y);
    ReadsFacts(s, i, name, y);
  }

  /** An unquoted value that is not ended safely is read back differently. */
  lemma AttrMisread(s: string, i: nat, a: Attr, y: string)
    requires Reads(s, i, AttrText(a), y) && AttrOk(a) && Ends(y) && !EndsSafely(a, y)
    ensures i <= |s|
    ensures var r := SkipAttribute(s, i);
            r.end > i && r.value.Some? && (r.sep != "" || r.value.value.hi - r.value.value.lo > |a.value.value|)
  {
    hide Span, Reads, AttrText, IsSpace;
    var v := a.value.value;
    ValueText(s, i, a, y);
    assert Quoted(a) == v;
    if y[0] == '/' {
      SlashOverrun(s, i, a.name, v, y);
    } else {
      assert v + y == y;
      SpaceThenName(s, i, a.name, y);
    }
  }

  lemma SlashOverrun(s: string, i: nat, name: string, v: string, y: string)
    requires Reads(s, i, name, "=" + (v + y)) && IsName(name) && (forall k :: 0 <= k < |v| ==> IsBare(v[k])) && (v != "" ==> !IsQuote(v[0]))
    requires y != "" && y[0] == '/'
    ensures var n := i + |name|;
            && n < |s| && Span(s, i, IsNameChar) == n && Span(s, n, IsSpace) == n && s[n] == '=' && Span(s, n + 1, IsSpace) == n + 1
            && n + 1 < |s| && !IsQuote(s[n + 1]) && Span(s, n + 1, IsBare) > n + 1 + |v|
  {
    hide Span, Reads;
    ValueStart(s, i, name, v + y);
    var n := i + |name|;
    ReadsHead(s, n + 1, "", v + y);
    ReadsJoin(s, n + 1, v, y);
    BareOverrun(s, n + 1, v, y);
  }

  lemma SpaceThenName(s: string, i: nat, name: string, y: string)
    requires Reads(s, i, name, "=" + y) && IsName(name) && |y| > 1 && y[0] == ' ' && IsNameChar(y[1])
    ensures var n := i + |name|;
            n + 2 < |s| && Span(s, i, IsNameChar) == n && Span(s, n, IsSpace) == n && s[n] == '='
            && Span(s, n + 1, IsSpace) == n + 2 && IsNameChar(s[n + 2]) && Span(s, n + 2, IsBare) > n + 2
  {
    NameAt(s, i, name, "=" + y);
    ReadsFacts(s, i, name, "=" + y);
    var n := i + |name|;
    assert s[n..] == "=" + y;
    assert s[n..][0] == '=' && s[n..][1] == y[0] && s[n..][2] == y[1];
    SpanIs(s, n, n, IsSpace);
    SpanIs(s, n + 1, n + 2, IsSpace);
  }

  // ---------- opening tags ----------

  /** The rest of a tag that is all printed attributes end with. */
  function EndText(close: bool): string { if close then "/>" else ">" }

  /** The attributes printed at p, behind a name or another attribute's value. */
  lemma FirstAttr(s: string, p: nat, attrs: seq<Attr>, y: string)
    requires Reads(s, p, AttrsText(attrs), y) && attrs != [] && AttrOk(attrs[0])
    ensures p + 1 < |s| && Span(s, p, IsSpace) == p + 1 && !IsDelimiter(s[p + 1])
    ensures Reads(s, p + 1, AttrText(attrs[0]), AttrsText(attrs[1..]) + y)
    ensures p + 1 + |AttrText(attrs[0])| <= |s| && Reads(s, p + 1 + |AttrText(attrs[0])|, AttrsText(attrs[1..]), y)
  {
    hide Span, Reads;
    var (text, more) := (AttrText(attrs[0]), AttrsText(attrs[1..]));
    assert AttrsText(attrs) == " " + (text + more);
    ReadsSplit(s, p, " ", text + more, y);
    ReadsHead(s, p, " ", (text + more) + y);
    ReadsSplit(s, p + 1, text, more, y);
    ReadsSub(s, p + 1, text, more + y);
    assert text != "" && text[0] == attrs[0].name[0] && IsNameChar(text[0]);
    assert (text + (more + y))[0] == text[0];
    ReadsHead(s, p + 1, text, more + y);
    SpanIs(s, p, p + 1, IsSpace);
  }

  lemma AfterAttr(attrs: seq<Attr>, close: bool, rest: string)
    requires attrs != [] ==> AttrOk(attrs[0])
    ensures Ends(AttrsText(attrs) + (EndText(close) + rest))
    ensures (AttrsText(attrs) + (EndText(close) + rest))[0] == if attrs != [] then ' ' else EndText(close)[0]
  {
    if attrs != [] {
      var text := AttrText(attrs[0]);
      assert text != "" && text[0] == attrs[0].name[0];
      assert AttrsText(attrs) + (EndText(close) + rest) == " " + (text + (AttrsText(attrs[1..]) + (EndText(close) + rest)));
    }
  }

  ghost predicate AttrsOk(attrs: seq<Attr>) { forall i :: 0 <= i < |attrs| ==> AttrOk(attrs[i]) }

  /** The first attribute is read back. */
  predicate FirstSafe(attrs: seq<Attr>, close: bool)
    requires attrs != []
  {
    Bare(attrs[0]) ==> (|attrs| == 1 ==> !close) && (attrs[0].value.value == "" ==> |attrs| == 1)
  }

  lemma SafeSteps(attrs: seq<Attr>, close: bool)
    requires attrs != []
    ensures AttrsSafe(attrs, close) <==> FirstSafe(attrs, close) && AttrsSafe(attrs[1..], close)
  {
    var more := attrs[1..];
    if AttrsSafe(attrs, close) {
      forall i | 0 <= i < |more| && Bare(more[i])
        ensures (i == |more| - 1 ==> !close) && (more[i].value.value == "" ==> i == |more| - 1)
      {
        assert more[i] == attrs[i + 1];
      }
    }
    if FirstSafe(attrs, close) && AttrsSafe(more, close) {
      forall i | 0 <= i < |attrs| && Bare(attrs[i])
        ensures (i == |attrs| - 1 ==> !close) && (attrs[i].value.value == "" ==> i == |attrs| - 1)
      {
        if i > 0 { assert attrs[i] == more[i - 1]; }
      }
    }
  }

  lemma FirstEndsSafely(attrs: seq<Attr>, close: bool, rest: string)
    requires attrs != [] && AttrsOk(attrs)
    ensures Ends(AttrsText(attrs[1..]) + (EndText(close) + rest))
    ensures EndsSafely(attrs[0], AttrsText(attrs[1..]) + (EndText(close) + rest)) <==> FirstSafe(attrs, close)
  {
    hide AttrOk, AttrsText, IsNameChar;
    AfterAttr(attrs[1..], close, rest);
  }

  /** One step of the loop over the attributes. */
  lemma AttributesStep(s: string, tag: Slice, p: nat)
    requires p <= |s| && Span(s, p, IsSpace) < |s| && !IsDelimiter(s[Span(s, p, IsSpace)])
    requires SkipAttribute(s, Span(s, p, IsSpace)).end > Span(s, p, IsSpace)
    ensures var a := SkipAttribute(s, Span(s, p, IsSpace));
            var (events, end) := Attributes(s, tag, a.end);
            TagAttrs(s, tag, p) == ([Attribute(tag, a.attr, a.value, a.sep)] + events, end)
  {
    hide Span, SkipAttribute;
  }

  lemma ShownAttribute(s: string, tag: Slice, name: string, r: AttributeScan, a: Attr)
    requires SliceIn(s, tag) && Sub(s, tag) == name
    requires SliceIn(s, r.attr) && Sub(s, r.attr) == a.name && r.sep == a.quote && r.value.Some? == a.value.Some?
    requires r.value.Some? ==> SliceIn(s, r.value.value) && Sub(s, r.value.value) == a.value.value
    ensures Shows(s, [Attribute(tag, r.attr, r.value, r.sep)], [AttributeCall(name, a.name, a.value, a.quote)])
  {
  }

  lemma NoAttributes(s: string, tag: Slice, p: nat, close: bool, rest: string)
    requires Reads(s, p, "", EndText(close) + rest)
    ensures p <= |s| && TagAttrs(s, tag, p) == ([], p)
  {
    ReadsHead(s, p, "", EndText(close) + rest);
    SpanIs(s, p, p, IsSpace);
  }

  lemma {:induction false} AttributesAt(s: string, tag: Slice, name: string, p: nat, attrs: seq<Attr>, close: bool, rest: string)
    requires Reads(s, p, AttrsText(attrs), EndText(close) + rest) && AttrsOk(attrs) && AttrsSafe(attrs, close)
    requires SliceIn(s, tag) && Sub(s, tag) == name
    ensures p <= |s|
    ensures var (events, end) := TagAttrs(s, tag, p);
            end == p + |AttrsText(attrs)| && Shows(s, events, AttrCalls(name, attrs))
    decreases |attrs|
  {
    hide Span, SkipAttribute, Attributes, Reads, AttrsSafe, AttrText, Shows, FirstSafe, Ends, EndsSafely, IsDelimiter;
    if attrs == [] {
      NoAttributes(s, tag, p, close, rest);
      assert Shows(s, [], []) by { ShowsNothing(s); }
    } else {
      var more := AttrsText(attrs[1..]) + (EndText(close) + rest);
      FirstAttr(s, p, attrs, EndText(close) + rest);
      FirstEndsSafely(attrs, close, rest);
      SafeSteps(attrs, close);
      AttrAt(s, p + 1, attrs[0], more);
      var p' := p + 1 + |AttrText(attrs[0])|;
      var r := SkipAttribute(s, p + 1);
      AttributesAt(s, tag, name, p', attrs[1..], close, rest);
      AttributesStep(s, tag, p);
      ShownAttribute(s, tag, name, r, attrs[0]);
      ShowsConcat(s, [Attribute(tag, r.attr, r.value, r.sep)], [AttributeCall(name, attrs[0].name, attrs[0].value, attrs[0].quote)],
        TagAttrs(s, tag, p').0, AttrCalls(name, attrs[1..]));
    }
  }

  lemma ShowsNothing(s: string)
    ensures Shows(s, [], [])
  {
  }

  /** The callback at j is not the one that was printed. */
  ghost predicate Differs(s: string, events: seq<Event>, calls: seq<Call>, j: nat) {
    j < |events| && j < |calls| && (EventIn(s, events[j]) ==> Shown(s, events[j]) != calls[j])
  }

  lemma MisreadDiffers(s: string, tag: Slice, name: string, r: AttributeScan, a: Attr, events: seq<Event>, calls: seq<Call>)
    requires Bare(a) && r.value.Some? && (r.sep != "" || r.value.value.hi - r.value.value.lo > |a.value.value|)
    ensures Differs(s, [Attribute(tag, r.attr, r.value, r.sep)] + events, [AttributeCall(name, a.name, a.value, a.quote)] + calls, 0)
  {
  }

  lemma DiffersLater(s: string, x: Event, events: seq<Event>, c: Call, calls: seq<Call>, j: nat)
    requires Differs(s, events, calls, j)
    ensures Differs(s, [x] + events, [c] + calls, j + 1)
  {
    hide EventIn, Shown;
    assert ([x] + events)[j + 1] == events[j] && ([c] + calls)[j + 1] == calls[j];
  }

  lemma {:induction false} AttributesMisread(s: string, tag: Slice, name: string, p: nat, attrs: seq<Attr>, close: bool, rest: string)
      returns (j: nat)
    requires Reads(s, p, AttrsText(attrs), EndText(close) + rest) && AttrsOk(attrs) && !AttrsSafe(attrs, close)
    ensures p <= |s| && Differs(s, TagAttrs(s, tag, p).0, AttrCalls(name, attrs), j)
    decreases |attrs|
  {
    hide Span, SkipAttribute, Attributes, Reads, AttrText, Shows, FirstSafe, Ends, EndsSafely, IsDelimiter, Differs, TagAttrs;
    assert attrs != [];
    hide AttrsSafe;
    var more := AttrsText(attrs[1..]) + (EndText(close) + rest);
    FirstAttr(s, p, attrs, EndText(close) + rest);
    FirstEndsSafely(attrs, close, rest);
    SafeSteps(attrs, close);
    var r := SkipAttribute(s, p + 1);
    if FirstSafe(attrs, close) {
      AttrAt(s, p + 1, attrs[0], more);
      var p' := p + 1 + |AttrText(attrs[0])|;
      j := AttributesMisread(s, tag, name, p', attrs[1..], close, rest);
      AttributesStep(s, tag, p);
      SameAttributes(s, tag, p', r.end);
      DiffersLater(s, Attribute(tag, r.attr, r.value, r.sep), TagAttrs(s, tag, p').0,
        AttributeCall(name, attrs[0].name, attrs[0].value, attrs[0].quote), AttrCalls(name, attrs[1..]), j);
      j := j + 1;
    } else {
      AttrMisread(s, p + 1, attrs[0], more);
      AttributesStep(s, tag, p);
      UnsafeIsBare(attrs, close);
      MisreadDiffers(s, tag, name, r, attrs[0], Attributes(s, tag, r.end).0, AttrCalls(name, attrs[1..]));
      j := 0;
    }
  }

  lemma SameAttributes(s: string, tag: Slice, p: nat, end: nat)
    requires p <= |s| && end == Span(s, p, IsSpace)
    ensures Attributes(s, tag, end) == TagAttrs(s, tag, p)
  {
  }

  lemma UnsafeIsBare(attrs: seq<Attr>, close: bool)
    requires attrs != [] && !FirstSafe(attrs, close)
    ensures Bare(attrs[0])
  {
  }

  lemma OpenParts(s: string, i: nat, name: string, attrs: seq<Attr>, close: bool, rest: string)
    requires Reads(s, i, TokenText(OpenToken(name, attrs, close)), rest) && IsTagName(name) && AttrsOk(attrs)
    ensures var (n, t) := (i + 1 + |name|, |AttrsText(attrs)|);
            && n + t < |s| && s[i] == '<' && s[i + 1] == name[0] && s[i + 1..n] == name && Span(s, i + 1, IsNameChar) == n
            && (IsScript(s, i + 1, n) <==> ScriptName(name))
            && Reads(s, n, AttrsText(attrs), EndText(close) + rest) && Reads(s, n + t, EndText(close), rest)
            && i + |TokenText(OpenToken(name, attrs, close))| == n + t + |EndText(close)|
  {
    hide Reads, AttrsText, IsNameChar, AttrOk, AttrsOk, IsScript, ScriptName, EndText;
    var (middle, end) := (AttrsText(attrs), EndText(close));
    OpenText(name, attrs, close);
    var y := middle + (end + rest);
    ReadsSplit(s, i, "<", name + (middle + end), rest);
    ReadsHead(s, i, "<", (name + (middle + end)) + rest);
    ReadsSplit(s, i + 1, name, middle + end, rest);
    assert (middle + end) + rest == y;
    ReadsSub(s, i + 1, name, y);
    ReadsHead(s, i + 1, name, y);
    ReadsSplit(s, i + 1 + |name|, middle, end, rest);
    ReadsSub(s, i + 1 + |name|, middle, end + rest);
    ScriptAt(s, i + 1, name, y);
    NameEnds(attrs, close, rest);
    NameAt(s, i + 1, name, y);
  }

  lemma OpenText(name: string, attrs: seq<Attr>, close: bool)
    ensures TokenText(OpenToken(name, attrs, close)) == "<" + (name + (AttrsText(attrs) + EndText(close)))
    ensures EndText(close) != ""
  {
  }

  lemma NameEnds(attrs: seq<Attr>, close: bool, rest: string)
    requires AttrsOk(attrs)
    ensures var y := AttrsText(attrs) + (EndText(close) + rest);
            y != "" && !IsNameChar(y[0])
  {
    hide AttrsText, AttrOk, Ends;
    AfterAttr(attrs, close, rest);
    assert AttrsText(attrs) + (EndText(close) + rest) != "";
  }

  lemma OpenMarkup(s: string, i: nat)
    requires i + 1 < |s| && s[i] == '<' && IsAlpha(s[i + 1])
    ensures MarkupAt(s, i, true) == Opening
  {
  }

  lemma OpenTag(s: string, i: nat, n: nat)
    requires i + 1 < |s| && MarkupAt(s, i, true) == Opening && Span(s, i + 1, IsNameChar) == n
    ensures var (attrs, a) := TagAttrs(s, Slice(i + 1, n), n);
            var (events, end) := HtmlParser.TagEnd(s, Slice(i + 1, n), a);
            Tag(s, i, true) == ([OpenTagStart(Slice(i + 1, n))] + attrs + events, end, !IsScript(s, i + 1, n))
  {
    hide Span, TagAttrs, HtmlParser.TagEnd, IsScript, MarkupAt;
  }

  lemma OpenTokenRead(s: string, i: nat, name: string, attrs: seq<Attr>, close: bool, rest: string)
    requires Reads(s, i, TokenText(OpenToken(name, attrs, close)), rest) && IsTagName(name) && AttrsOk(attrs) && AttrsSafe(attrs, close)
    ensures i < |s| && MarkupAt(s, i, true) == Opening
    ensures var (events, end, nest) := Tag(s, i, true);
            && end == i + |TokenText(OpenToken(name, attrs, close))| && nest == !ScriptName(name)
            && Shows(s, events, Calls(OpenToken(name, attrs, close)))
  {
    hide Span, TagAttrs, HtmlParser.TagEnd, IsScript, MarkupAt, Reads, AttrsText, TokenText, Shows, AttrsOk, AttrsSafe, ScriptName, Tag;
    OpenParts(s, i, name, attrs, close, rest);
    OpenMarkup(s, i);
    var n := i + 1 + |name|;
    var tag := Slice(i + 1, n);
    AttributesAt(s, tag, name, n, attrs, close, rest);
    var (events, a) := TagAttrs(s, tag, n);
    TagEndAt(s, tag, a, close, rest);
    OpenTag(s, i, n);
    ShowsOne(s, OpenTagStart(tag), OpenCall(name));
    ShowsOne(s, AnyTagEnd(tag, close), EndCall(name, close));
    ShowsConcat(s, [OpenTagStart(tag)], [OpenCall(name)], events, AttrCalls(name, attrs));
    ShowsConcat(s, [OpenTagStart(tag)] + events, [OpenCall(name)] + AttrCalls(name, attrs), [AnyTagEnd(tag, close)], [EndCall(name, close)]);
  }

  lemma ShowsOne(s: string, e: Event, c: Call)
    requires EventIn(s, e) && Shown(s, e) == c
    ensures Shows(s, [e], [c])
  {
  }

  lemma DiffersMore(s: string, a: seq<Event>, x: seq<Call>, b: seq<Event>, y: seq<Call>, j: nat)
    requires Differs(s, a, x, j)
    ensures Differs(s, a + b, x + y, j)
  {
    hide EventIn, Shown;
    assert (a + b)[j] == a[j] && (x + y)[j] == x[j];
  }

  lemma OpenTokenMisread(s: string, i: nat, name: string, attrs: seq<Attr>, close: bool, rest: string) returns (j: nat)
    requires Reads(s, i, TokenText(OpenToken(name, attrs, close)), rest) && IsTagName(name) && AttrsOk(attrs) && !AttrsSafe(attrs, close)
    ensures i < |s| && MarkupAt(s, i, true) == Opening
    ensures Differs(s, Tag(s, i, true).0, Calls(OpenToken(name, attrs, close)), j)
  {
    hide Span, TagAttrs, HtmlParser.TagEnd, IsScript, MarkupAt, Reads, AttrsText, TokenText, AttrsOk, AttrsSafe, ScriptName, Tag, Differs;
    OpenParts(s, i, name, attrs, close, rest);
    OpenMarkup(s, i);
    var n := i + 1 + |name|;
    var tag := Slice(i + 1, n);
    j := AttributesMisread(s, tag, name, n, attrs, close, rest);
    var (events, a) := TagAttrs(s, tag, n);
    OpenTag(s, i, n);
    DiffersLater(s, OpenTagStart(tag), events, OpenCall(name), AttrCalls(name, attrs), j);
    DiffersMore(s, [OpenTagStart(tag)] + events, [OpenCall(name)] + AttrCalls(name, attrs),
      HtmlParser.TagEnd(s, tag, a).0, [EndCall(name, close)], j + 1);
    j := j + 1;
  }

  // ---------- text ----------

  /** Spans inside the text are as in the text alone. */
  lemma SpanInside(s: string, i: nat, t: string, y: string, k: nat, p: char -> bool)
    requires Reads(s, i, t, y) && k <= |t| && (y != "" ==> !p(y[0]))
    ensures i + k <= |s| && Span(s, i + k, p) == i + Span(t, k, p)
  {
    hide Span;
    ReadsFacts(s, i, t, y);
    var e := Span(t, k, p);
    forall m | i + k <= m < i + e ensures p(s[m]) { assert s[i + (m - i)] == t[m - i]; }
    assert e < |t| ==> s[i + e] == t[e];
    SpanIs(s, i + k, i + e, p);
  }

  lemma AtInside(s: string, i: nat, t: string, y: string, k: nat)
    requires Reads(s, i, t, y) && k <= |t|
    ensures i + k <= |s| && At(s, i + k) == if k < |t| then t[k] else At(y, 0)
  {
    ReadsFacts(s, i, t, y);
    if k < |t| { assert s[i + k] == t[k]; }
  }

  lemma ClosingInside(s: string, i: nat, t: string, y: string, k: nat)
    requires Reads(s, i, t, y) && (y != "" ==> y[0] == '<') && k + 2 < |t|
    ensures i + |t| <= |s|
    ensures var (n, m) := (Span(t, k + 2, IsNameChar), Span(s, i + k + 2, IsNameChar));
            && m == i + n && (IsScript(s, i + k + 2, m) <==> IsScript(t, k + 2, n))
            && (At(s, Span(s, m, IsSpace)) == '>' <==> At(t, Span(t, n, IsSpace)) == '>')
  {
    hide Span, IsScript, Reads;
    ReadsSub(s, i, t, y);
    SpanInside(s, i, t, y, k + 2, IsNameChar);
    var n := Span(t, k + 2, IsNameChar);
    SpanInside(s, i, t, y, n, IsSpace);
    AtInside(s, i, t, y, Span(t, n, IsSpace));
    ScriptInside(s, i, t, y, k + 2, n);
  }

  lemma ScriptInside(s: string, i: nat, t: string, y: string, lo: nat, hi: nat)
    requires Reads(s, i, t, y) && lo <= hi <= |t|
    ensures i + hi <= |s| && (IsScript(s, i + lo, i + hi) <==> IsScript(t, lo, hi))
  {
    ReadsFacts(s, i, t, y);
    if hi - lo == 6 {
      forall k | lo <= k < hi ensures s[i + k] == t[k] { }
      assert s[i + (lo + 1)] == t[lo + 1] && s[i + (lo + 2)] == t[lo + 2] && s[i + (lo + 3)] == t[lo + 3];
      assert s[i + lo] == t[lo] && s[i + (lo + 4)] == t[lo + 4] && s[i + (lo + 5)] == t[lo + 5];
    }
  }

  /** No markup begins inside a text that has none by itself and is followed by markup or the end. */
  lemma NoMarkupInside(s: string, i: nat, t: string, y: string, k: nat, nest: bool)
    requires Reads(s, i, t, y) && (y != "" ==> y[0] == '<') && k < |t| && MarkupAt(t, k, nest).NoMarkup?
    ensures i + k < |s| && MarkupAt(s, i + k, nest).NoMarkup?
  {
    hide Span, IsScript, Reads, IsSpace, IsNameChar;
    ReadsSub(s, i, t, y);
    AtInside(s, i, t, y, k);
    AtInside(s, i, t, y, k + 1);
    if k + 1 < |t| { AtInside(s, i, t, y, k + 2); }
    if k + 2 < |t| { ClosingInside(s, i, t, y, k); }
  }

  lemma {:induction false} SkipText(s: string, lo: nat, i: nat, j: nat, nest: bool)
    requires lo <= i <= j <= |s| && forall k :: i <= k < j ==> MarkupAt(s, k, nest).NoMarkup?
    ensures Parse(s, lo, i, nest) == Parse(s, lo, j, nest)
    decreases j - i
  {
    hide MarkupAt, Tag;
    if i < j { SkipText(s, lo, i + 1, j, nest); }
  }

  /** Where markup or the end is reached, the text before it is reported. */
  lemma FlushText(s: string, lo: nat, cp: nat, nest: bool)
    requires lo <= cp <= |s| && (cp < |s| ==> !MarkupAt(s, cp, nest).NoMarkup?)
    ensures Parse(s, lo, cp, nest) == (TextEvent(lo, cp) + Parse(s, cp, cp, nest).0, Parse(s, cp, cp, nest).1)
  {
    hide MarkupAt, Tag;
    assert TextEvent(cp, cp) == [] && TextEvent(lo, cp) + [] == TextEvent(lo, cp);
    if cp < |s| {
      var (tag, end, nest') := Tag(s, cp, nest);
      var rest := Parse(s, end, end, nest').0;
      assert TextEvent(lo, cp) + tag + rest == TextEvent(lo, cp) + ([] + tag + rest);
    }
  }

  lemma TextTokenRead(s: string, i: nat, t: string, y: string, nest: bool)
    requires Reads(s, i, t, y) && TextOk(t, nest) && i + |t| <= |s|
    requires y != "" ==> y[0] == '<'
    requires i + |t| < |s| ==> !MarkupAt(s, i + |t|, nest).NoMarkup?
    ensures i <= i + |t| <= |s|
    ensures var (rest, nest') := Parse(s, i + |t|, i + |t|, nest);
            Parse(s, i, i, nest) == ([Text(Slice(i, i + |t|))] + rest, nest')
    ensures Shows(s, [Text(Slice(i, i + |t|))], Calls(TextToken(t)))
  {
    hide MarkupAt, Parse, Reads;
    ReadsSub(s, i, t, y);
    forall k | i <= k < i + |t| ensures MarkupAt(s, k, nest).NoMarkup? {
      NoMarkupInside(s, i, t, y, k - i, nest);
    }
    SkipText(s, i, i, i + |t|, nest);
    FlushText(s, i, i + |t|, nest);
  }
}
