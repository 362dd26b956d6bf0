/** Printing a document through the callbacks and tokenizing the result again,
    src/filter_http_rewrite.cpp:374-479 and src/html_parser.cpp:107-312. */
module HtmlRoundTrip {
  import opened HtmlParser
  import opened HtmlPrinter
  import opened HtmlDocument
  import opened HtmlReading
  import opened Options

  lemma ShowsTail(s: string, a: seq<Event>, x: seq<Call>, b: seq<Event>, y: seq<Call>)
    requires Shows(s, a, x)
    ensures Shows(s, a + b, x + y) <==> Shows(s, b, y)
  {
    hide EventIn, Shown;
    if Shows(s, a + b, x + y) {
      forall i | 0 <= i < |b| ensures EventIn(s, b[i]) && Shown(s, b[i]) == y[i] {
        assert (a + b)[|a| + i] == b[i] && (x + y)[|a| + i] == y[i];
      }
    } else if Shows(s, b, y) {
      ShowsConcat(s, a, x, b, y);
    }
  }

  lemma DiffersSo(s: string, a: seq<Event>, x: seq<Call>, j: nat)
    requires Differs(s, a, x, j)
    ensures !Shows(s, a, x)
  {
    hide EventIn, Shown;
  }

  /** What begins with markup begins with '<', and markup is found there. */
  lemma MarkupFirst(s: string, i: nat, doc: seq<Token>, nest: bool)
    requires Reads(s, i, DocText(doc), "") && DocOk(doc, nest) && doc != [] && !doc[0].TextToken?
    ensures i < |s| && !MarkupAt(s, i, nest).NoMarkup? && DocText(doc) != "" && DocText(doc)[0] == '<'
  {
    hide MarkupAt, Tag, Reads, DocOk, Shows, AttrsText, IsTagName;
    var (t, rest) := (doc[0], DocText(doc[1..]));
    HeadOk(doc, nest);
    ReadsSplit(s, i, TokenText(t), rest, "");
    assert rest + "" == rest;
    match t
    case CloseToken(name) => CloseTokenRead(s, i, name, rest, nest);
    case DeclToken(b) => DeclTokenRead(s, i, b, rest);
    case OpenToken(name, attrs, close) =>
      if AttrsSafe(attrs, close) {
        OpenTokenRead(s, i, name, attrs, close, rest);
      } else {
        var j := OpenTokenMisread(s, i, name, attrs, close, rest);
      }
  }

  /** What a well-formed document asks of its first token. */
  ghost predicate TokenOk(t: Token, nest: bool) {
    match t
    case TextToken(text) => TextOk(text, nest)
    case OpenToken(name, attrs, _) => nest && IsTagName(name) && AttrsOk(attrs)
    case CloseToken(name) => IsTagName(name) && (nest || ScriptName(name))
    case DeclToken(body) => nest && DeclOk(body)
  }

  /** Whether tags are looked for behind the token. */
  function NestAfter(t: Token, nest: bool): bool {
    match t
    case OpenToken(name, _, _) => !ScriptName(name)
    case CloseToken(_) => true
    case _ => nest
  }

  lemma HeadOk(doc: seq<Token>, nest: bool)
    requires DocOk(doc, nest) && doc != []
    ensures TokenOk(doc[0], nest) && DocOk(doc[1..], NestAfter(doc[0], nest))
    ensures doc[0].TextToken? && |doc| > 1 ==> !doc[1].TextToken?
  {
    hide TextOk, IsTagName, AttrOk, DeclOk, ScriptName;
  }

  /** One markup token and the rest of the document. */
  lemma MarkupStep(s: string, i: nat, t: Token, rest: string, nest: bool)
    requires Reads(s, i, TokenText(t), rest) && TokenOk(t, nest) && !t.TextToken?
    requires t.OpenToken? ==> AttrsSafe(t.attrs, t.close)
    ensures i < |s| && i + |TokenText(t)| <= |s| && !MarkupAt(s, i, nest).NoMarkup?
    ensures var (events, end, nest') := Tag(s, i, nest);
            end == i + |TokenText(t)| && nest' == NestAfter(t, nest) && Shows(s, events, Calls(t))
  {
    hide MarkupAt, Tag, Reads, Shows, AttrsText, IsTagName, AttrsSafe, AttrsOk, ScriptName, DeclOk;
    match t
    case CloseToken(name) => CloseTokenRead(s, i, name, rest, nest);
    case DeclToken(b) => DeclTokenRead(s, i, b, rest);
    case OpenToken(name, attrs, close) => OpenTokenRead(s, i, name, attrs, close, rest);
  }

  lemma ParseMarkup(s: string, i: nat, nest: bool)
    requires i < |s| && !MarkupAt(s, i, nest).NoMarkup?
    ensures var (tag, end, nest') := Tag(s, i, nest);
            Parse(s, i, i, nest) == (tag + Parse(s, end, end, nest').0, Parse(s, end, end, nest').1)
  {
    hide MarkupAt, Tag;
    var (tag, end, nest') := Tag(s, i, nest);
    assert TextEvent(i, i) + tag == tag;
  }

  lemma SafeHead(doc: seq<Token>)
    requires doc != []
    ensures DocSafe(doc) <==> (doc[0].OpenToken? ==> AttrsSafe(doc[0].attrs, doc[0].close)) && DocSafe(doc[1..])
  {
    hide AttrsSafe;
    if DocSafe(doc) {
      forall i | 0 <= i < |doc[1..]| && doc[1..][i].OpenToken? ensures AttrsSafe(doc[1..][i].attrs, doc[1..][i].close) {
        assert doc[1..][i] == doc[i + 1];
      }
    }
    if (doc[0].OpenToken? ==> AttrsSafe(doc[0].attrs, doc[0].close)) && DocSafe(doc[1..]) {
      forall i | 0 <= i < |doc| && doc[i].OpenToken? ensures AttrsSafe(doc[i].attrs, doc[i].close) {
        if i > 0 { assert doc[i] == doc[1..][i - 1]; }
      }
    }
  }

  /** Tokenizing the text of a document reports the document, exactly when its unquoted attribute
      values are ended by what follows them. */
  lemma {:induction false} DocRead(s: string, i: nat, doc: seq<Token>, nest: bool)
    requires Reads(s, i, DocText(doc), "") && DocOk(doc, nest)
    ensures i <= |s|
    ensures Shows(s, Parse(s, i, i, nest).0, DocCalls(doc)) <==> DocSafe(doc)
    decreases |doc|
  {
    hide MarkupAt, Tag, Reads, DocOk, Shows, DocSafe, TokenOk, TokenText, Calls, NestAfter, AttrsSafe;
    if doc == [] {
      DocReadEmpty(s, i, nest);
    } else {
      var (t, rest) := (doc[0], DocText(doc[1..]));
      HeadOk(doc, nest);
      SafeHead(doc);
      ReadsSplit(s, i, TokenText(t), rest, "");
      assert rest + "" == rest;
      ReadsSub(s, i, TokenText(t), rest);
      if t.TextToken? {
        DocReadText(s, i, doc, nest);
        DocRead(s, i + |TokenText(t)|, doc[1..], NestAfter(t, nest));
        var events := [Text(Slice(i, i + |TokenText(t)|))];
        ShowsTail(s, events, Calls(t), Parse(s, i + |TokenText(t)|, i + |TokenText(t)|, NestAfter(t, nest)).0, DocCalls(doc[1..]));
      } else if t.OpenToken? && !AttrsSafe(t.attrs, t.close) {
        DocMisread(s, i, doc, nest);
      } else {
        MarkupStep(s, i, t, rest, nest);
        ParseMarkup(s, i, nest);
        var (events, end, nest') := Tag(s, i, nest);
        DocRead(s, end, doc[1..], nest');
        ShowsTail(s, events, Calls(t), Parse(s, end, end, nest').0, DocCalls(doc[1..]));
      }
    }
  }

  lemma DocReadEmpty(s: string, i: nat, nest: bool)
    requires Reads(s, i, DocText([]), "")
    ensures i == |s| && Shows(s, Parse(s, i, i, nest).0, DocCalls([])) && DocSafe([])
  {
    ReadsSub(s, i, "", "");
  }

  lemma DocReadText(s: string, i: nat, doc: seq<Token>, nest: bool)
    requires Reads(s, i, DocText(doc), "") && DocOk(doc, nest) && doc != [] && doc[0].TextToken?
    ensures var e := i + |TokenText(doc[0])|;
            && i < e <= |s| && NestAfter(doc[0], nest) == nest
            && Parse(s, i, i, nest).0 == [Text(Slice(i, e))] + Parse(s, e, e, nest).0
            && Shows(s, [Text(Slice(i, e))], Calls(doc[0]))
  {
    hide MarkupAt, Tag, Reads, DocOk, Shows, TextOk;
    var (t, rest) := (doc[0].text, DocText(doc[1..]));
    HeadOk(doc, nest);
    assert t != "" by { TextNotEmpty(t, nest); }
    ReadsSplit(s, i, t, rest, "");
    assert rest + "" == rest;
    ReadsSub(s, i, t, rest);
    if |doc| > 1 {
      MarkupFirst(s, i + |t|, doc[1..], nest);
    }
    TextTokenRead(s, i, t, rest, nest);
  }

  lemma TextNotEmpty(t: string, nest: bool)
    requires TextOk(t, nest)
    ensures t != ""
  {
  }

  lemma DocMisread(s: string, i: nat, doc: seq<Token>, nest: bool)
    requires Reads(s, i, DocText(doc), "") && DocOk(doc, nest) && doc != []
    requires doc[0].OpenToken? && !AttrsSafe(doc[0].attrs, doc[0].close)
    ensures i < |s| && !Shows(s, Parse(s, i, i, nest).0, DocCalls(doc))
  {
    hide MarkupAt, Tag, Reads, DocOk, Shows, AttrsSafe, TokenText, Calls, Parse, Differs, IsTagName, AttrsOk;
    var (t, rest) := (doc[0], DocText(doc[1..]));
    HeadOk(doc, nest);
    ReadsSplit(s, i, TokenText(t), rest, "");
    assert rest + "" == rest;
    var j := OpenTokenMisread(s, i, t.name, t.attrs, t.close, rest);
    ParseMarkup(s, i, nest);
    var (events, end, nest') := Tag(s, i, nest);
    DiffersMore(s, events, Calls(t), Parse(s, end, end, nest').0, DocCalls(doc[1..]), j);
    DiffersSo(s, Parse(s, i, i, nest).0, DocCalls(doc), j);
  }

  /** Printing and tokenizing again, when the rules leave every text as it is. */
  lemma RoundTrip(rules: seq<Within>, doc: seq<Token>)
    requires DocOk(doc, true) && forall i :: 0 <= i < |rules| ==> LeavesText(rules[i])
    ensures var s := PrintAll(rules, [], DocCalls(doc));
            Shows(s, Parse(s, 0, 0, true).0, DocCalls(doc)) <==> DocSafe(doc)
  {
    hide DocOk, DocSafe, Shows, Parse, LeavesText, DocCalls, DocText;
    IdentityRulesPrintPlain(rules, [], DocCalls(doc));
    DocPlain(doc);
    var s := DocText(doc);
    assert s[0..] == s + "";
    DocRead(s, 0, doc, true);
  }

  lemma SelfClosingUnquoted()
    ensures var doc := [OpenToken("a", [Attr("b", Some("c"), "")], true)];
            DocOk(doc, true) && !DocSafe(doc) && DocText(doc) == "<a b=c/>"
  {
    var doc := [OpenToken("a", [Attr("b", Some("c"), "")], true)];
    assert doc[1..] == [] && doc[0].attrs[1..] == [];
    assert AttrOk(Attr("b", Some("c"), ""));
    assert Bare(doc[0].attrs[0]);
  }

  /** An unquoted value in front of "/>" is read back with the slash. */
  lemma SelfClosingUnquotedFails()
    ensures var (doc, s) := ([OpenToken("a", [Attr("b", Some("c"), "")], true)], "<a b=c/>");
            && DocOk(doc, true) && DocText(doc) == s && !Shows(s, Parse(s, 0, 0, true).0, DocCalls(doc))
            && SkipAttribute(s, 3).value == Some(Slice(5, 7)) && s[5..7] == "c/"
  {
    hide Parse, Shows, DocOk, DocSafe, DocText, DocCalls, Span;
    var s := "<a b=c/>";
    SelfClosingUnquoted();
    SpanIs(s, 3, 4, IsNameChar); SpanIs(s, 4, 4, IsSpace); SpanIs(s, 5, 5, IsSpace); SpanIs(s, 5, 7, IsBare);
    assert s[0..] == s + "";
    DocRead(s, 0, [OpenToken("a", [Attr("b", Some("c"), "")], true)], true);
  }
}
