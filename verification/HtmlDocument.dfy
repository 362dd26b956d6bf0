/** Documents as lists of tokens: the callbacks they give rise to, what these print, and which
    documents are well formed. src/filter_http_rewrite.cpp:374-479. */
module HtmlDocument {
  import opened HtmlParser
  import opened HtmlPrinter
  import opened Options

  /** An attribute; quote is one quote character or empty. */
  datatype Attr = Attr(name: string, value: Option<string>, quote: string)

  datatype Token =
    | TextToken(text: string)
    | OpenToken(name: string, attrs: seq<Attr>, close: bool)
    | CloseToken(name: string)
    | DeclToken(body: string)   // a declaration, a comment or a processing instruction

  // ---------- printing ----------

  function AttrCalls(tag: string, attrs: seq<Attr>): seq<Call> {
    if attrs == [] then []
    else [AttributeCall(tag, attrs[0].name, attrs[0].value, attrs[0].quote)] + AttrCalls(tag, attrs[1..])
  }

  function Calls(t: Token): seq<Call> {
    match t
    case TextToken(text) => [TextCall(text)]
    case OpenToken(name, attrs, close) => [OpenCall(name)] + AttrCalls(name, attrs) + [EndCall(name, close)]
    case CloseToken(name) => [CloseCall(name), EndCall(name, false)]
    case DeclToken(body) => [OpenCall(body), EndCall(body, false)]
  }

  function DocCalls(doc: seq<Token>): seq<Call> {
    if doc == [] then [] else Calls(doc[0]) + DocCalls(doc[1..])
  }

  function AttrText(a: Attr): string {
    a.name + if a.value.None? then "" else "=" + a.quote + a.value.value + a.quote
  }

  function AttrsText(attrs: seq<Attr>): string {
    if attrs == [] then "" else " " + AttrText(attrs[0]) + AttrsText(attrs[1..])
  }

  function TokenText(t: Token): string {
    match t
    case TextToken(text) => text
    case OpenToken(name, attrs, close) => "<" + name + AttrsText(attrs) + if close then "/>" else ">"
    case CloseToken(name) => "</" + name + ">"
    case DeclToken(body) => "<" + body + ">"
  }

  function DocText(doc: seq<Token>): string {
    if doc == [] then "" else TokenText(doc[0]) + DocText(doc[1..])
  }

  lemma {:induction false} PlainConcat(a: seq<Call>, b: seq<Call>)
    ensures PlainAll(a + b) == PlainAll(a) + PlainAll(b)
  {
    hide Plain;
    if a == [] {
      assert a + b == b;
    } else {
      PlainConcat(a[1..], b);
      assert (a + b)[0] == a[0] && (a + b)[1..] == a[1..] + b;
      var x, y, z := Plain(a[0]), PlainAll(a[1..]), PlainAll(b);
      assert x + (y + z) == (x + y) + z;
    }
  }

  lemma {:induction false} AttrsPlain(tag: string, attrs: seq<Attr>)
    ensures PlainAll(AttrCalls(tag, attrs)) == AttrsText(attrs)
  {
    if attrs != [] {
      AttrsPlain(tag, attrs[1..]);
      var first := AttributeCall(tag, attrs[0].name, attrs[0].value, attrs[0].quote);
      assert AttrCalls(tag, attrs)[1..] == AttrCalls(tag, attrs[1..]);
      assert Plain(first) == " " + AttrText(attrs[0]);
    }
  }

  lemma TokenPlain(t: Token)
    ensures PlainAll(Calls(t)) == TokenText(t)
  {
    match t
    case TextToken(text) => PlainOne(TextCall(text));
    case CloseToken(name) =>
      PlainConcat([CloseCall(name)], [EndCall(name, false)]);
      PlainOne(CloseCall(name)); PlainOne(EndCall(name, false));
    case DeclToken(body) =>
      PlainConcat([OpenCall(body)], [EndCall(body, false)]);
      PlainOne(OpenCall(body)); PlainOne(EndCall(body, false));
    case OpenToken(name, attrs, close) =>
      PlainConcat([OpenCall(name)] + AttrCalls(name, attrs), [EndCall(name, close)]);
      PlainConcat([OpenCall(name)], AttrCalls(name, attrs));
      PlainOne(OpenCall(name)); PlainOne(EndCall(name, close));
      AttrsPlain(name, attrs);
  }

  lemma PlainOne(c: Call)
    ensures PlainAll([c]) == Plain(c)
  {
    assert [c][1..] == [];
  }

  /** What the callbacks print for a document. */
  lemma {:induction false} DocPlain(doc: seq<Token>)
    ensures PlainAll(DocCalls(doc)) == DocText(doc)
  {
    if doc != [] {
      TokenPlain(doc[0]);
      DocPlain(doc[1..]);
      PlainConcat(Calls(doc[0]), DocCalls(doc[1..]));
    }
  }

  // ---------- reading events back ----------

  ghost predicate SliceIn(s: string, x: Slice) { x.lo <= x.hi <= |s| }

  function Sub(s: string, x: Slice): string
    requires SliceIn(s, x)
  {
    s[x.lo..x.hi]
  }

  ghost predicate EventIn(s: string, e: Event) {
    match e
    case OpenTagStart(tag) => SliceIn(s, tag)
    case AnyTagEnd(tag, _) => SliceIn(s, tag)
    case Attribute(tag, attr, value, _) => SliceIn(s, tag) && SliceIn(s, attr) && (value.Some? ==> SliceIn(s, value.value))
    case CloseTag(tag) => SliceIn(s, tag)
    case Text(text) => SliceIn(s, text)
  }

  /** The callback with the strings its slices denote. */
  function Shown(s: string, e: Event): Call
    requires EventIn(s, e)
  {
    match e
    case OpenTagStart(tag) => OpenCall(Sub(s, tag))
    case AnyTagEnd(tag, close) => EndCall(Sub(s, tag), close)
    case Attribute(tag, attr, value, sep) =>
      AttributeCall(Sub(s, tag), Sub(s, attr), if value.None? then None else Some(Sub(s, value.value)), sep)
    case CloseTag(tag) => CloseCall(Sub(s, tag))
    case Text(text) => TextCall(Sub(s, text))
  }

  /** calls are the events with their strings. */
  ghost predicate Shows(s: string, events: seq<Event>, calls: seq<Call>) {
    && |events| == |calls|
    && forall i :: 0 <= i < |events| ==> EventIn(s, events[i]) && Shown(s, events[i]) == calls[i]
  }

  lemma ShowsConcat(s: string, a: seq<Event>, x: seq<Call>, b: seq<Event>, y: seq<Call>)
    requires Shows(s, a, x) && Shows(s, b, y)
    ensures Shows(s, a + b, x + y)
  {
    hide EventIn, Shown;
  }

  // ---------- well-formed documents ----------

  ghost predicate IsName(n: string) {
    n != "" && forall i :: 0 <= i < |n| ==> IsNameChar(n[i])
  }

  ghost predicate IsTagName(n: string) {
    IsName(n) && IsAlpha(n[0])
  }

  ghost predicate AttrOk(a: Attr) {
    && IsName(a.name)
    && match a.value
       case None => a.quote == ""
       case Some(v) =>
         if a.quote == "" then (forall i :: 0 <= i < |v| ==> IsBare(v[i])) && (v != "" ==> !IsQuote(v[0]))
         else |a.quote| == 1 && IsQuote(a.quote[0]) && forall i :: 0 <= i < |v| ==> v[i] != a.quote[0]
  }

  /** An attribute whose value stands without quotes. */
  predicate Bare(a: Attr) { a.value.Some? && a.quote == "" }

  /** An attribute without quotes is read back if what follows ends it: not the '/' of a self-closing
      tag, and, when it is empty, not another attribute either. */
  ghost predicate AttrsSafe(attrs: seq<Attr>, close: bool) {
    forall i :: 0 <= i < |attrs| && Bare(attrs[i]) ==>
      && (i == |attrs| - 1 ==> !close)
      && (attrs[i].value.value == "" ==> i == |attrs| - 1)
  }

  ghost predicate TextOk(t: string, nest: bool) {
    t != "" && forall k :: 0 <= k < |t| ==> MarkupAt(t, k, nest).NoMarkup?
  }

  ghost predicate DeclOk(b: string) {
    && b != ""
    && if b[0] == '!' && |b| >= 3 && b[1] == '-' && b[2] == '-'
       then |b| >= 5 && CommentEnd(b + ">", 3) == Some(|b| - 2)
       else (b[0] == '!' || b[0] == '?') && forall k :: 0 <= k < |b| ==> b[k] != '>'
  }

  predicate ScriptName(n: string) { IsScript(n, 0, |n|) }

  /** A document the tokenizer can have reported: inside a script, text and the closing tag only. */
  ghost predicate DocOk(doc: seq<Token>, nest: bool)
    decreases |doc|
  {
    doc == [] ||
    match doc[0]
    case TextToken(t) => TextOk(t, nest) && (|doc| > 1 ==> !doc[1].TextToken?) && DocOk(doc[1..], nest)
    case OpenToken(name, attrs, _) =>
      nest && IsTagName(name) && (forall i :: 0 <= i < |attrs| ==> AttrOk(attrs[i])) && DocOk(doc[1..], !ScriptName(name))
    case CloseToken(name) => IsTagName(name) && (nest || ScriptName(name)) && DocOk(doc[1..], true)
    case DeclToken(body) => nest && DeclOk(body) && DocOk(doc[1..], nest)
  }

  ghost predicate DocSafe(doc: seq<Token>) {
    forall i :: 0 <= i < |doc| && doc[i].OpenToken? ==> AttrsSafe(doc[i].attrs, doc[i].close)
  }
}
