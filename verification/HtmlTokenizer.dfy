/** HTMLParser::Rep: the tokenizer with its loops, proved to report the events of HtmlParser.Parse.
    src/html_parser.cpp:91-312. */
module HtmlTokenizer {
  import opened HtmlParser
  import opened Options

  /** The loop all helpers share: on while the character is not the terminator and in p. */
  method Skip(s: string, cp: nat, p: char -> bool) returns (i: nat)
    requires cp <= |s| && Terminated(s)
    ensures cp + i == Span(s, cp, p)
  {
    i := 0;
    while At(s, cp + i) != '\0' && p(At(s, cp + i))
      invariant cp + i <= |s| && Span(s, cp, p) == Span(s, cp + i, p)
      decreases |s| - (cp + i)
    {
      i := i + 1;
    }
  }

  method SkipValue(s: string, cp: nat) returns (i: nat, value: Slice, sep: string)
    requires cp <= |s| && Terminated(s)
    ensures (value, sep, cp + i) == ScanValue(s, cp)
  {
    hide Span, Other;
    if At(s, cp) == '\"' || At(s, cp) == '\'' {
      var q := At(s, cp);
      var n := Skip(s, cp + 1, Other(q));
      i := if At(s, cp + 1 + n) != '\0' then n + 2 else n + 1;
      value, sep := Slice(cp + 1, cp + 1 + n), [q];
    } else {
      i := Skip(s, cp, IsBare);
      value, sep := Slice(cp, cp + i), "";
    }
  }

  method ScanAttribute(s: string, cp: nat) returns (nor: nat, attrLen: nat, value: Option<Slice>, sep: string)
    requires cp <= |s| && Terminated(s)
    ensures SkipAttribute(s, cp) == AttributeScan(Slice(cp, cp + attrLen), value, sep, cp + nor)
  {
    hide Span, ScanValue;
    var i := Skip(s, cp, IsNameChar);
    attrLen, value, sep := i, None, "";
    if i == 0 {
      nor := Skip(s, cp, IsSpace);
      return;
    }
    var ws := Skip(s, cp + i, IsSpace);
    i := i + ws;
    if At(s, cp + i) == '=' {
      i := i + 1;
      ws := Skip(s, cp + i, IsSpace);
      i := i + ws;
      var n, v;
      n, v, sep := SkipValue(s, cp + i);
      value := Some(v);
      i := i + n;
      ws := Skip(s, cp + i, IsSpace);
      i := i + ws;
    }
    nor := i;
  }

  class Tokenizer {
    var nest: bool          // false inside a script
    var events: seq<Event>  // the callbacks made so far

    constructor ()
      ensures nest && events == []
    {
      nest, events := true, [];
    }

    method TagAttrs(s: string, tag: Slice, cp: nat) returns (i: nat)
      requires cp <= |s| && Terminated(s)
      modifies this`events
      ensures cp + i == HtmlParser.TagAttrs(s, tag, cp).1
      ensures events == old(events) + HtmlParser.TagAttrs(s, tag, cp).0
    {
      hide Span, SkipAttribute;
      i := Skip(s, cp, IsSpace);
      ghost var all := Attributes(s, tag, cp + i);
      ghost var before := events;
      while At(s, cp + i) != '\0' && !IsDelimiter(At(s, cp + i))
        invariant cp + i <= |s| && all.1 == Attributes(s, tag, cp + i).1
        invariant before + all.0 == events + Attributes(s, tag, cp + i).0
        decreases |s| - (cp + i)
      {
        var nor, attrLen, value, sep := ScanAttribute(s, cp + i);
        if nor == 0 {
          break;
        }
        var e := Attribute(tag, Slice(cp + i, cp + i + attrLen), value, sep);
        ghost var rest := Attributes(s, tag, cp + i + nor).0;
        assert Attributes(s, tag, cp + i).0 == [e] + rest;
        Assoc(events, [e], rest);
        events := events + [e];
        i := i + nor;
      }
    }

    static lemma Assoc<T>(a: seq<T>, b: seq<T>, c: seq<T>)
      ensures a + (b + c) == (a + b) + c
    {
    }

    method TagEnd(s: string, tag: Slice, cp: nat) returns (i: nat)
      requires cp <= |s| && Terminated(s)
      modifies this`events
      ensures cp + i == HtmlParser.TagEnd(s, tag, cp).1
      ensures events == old(events) + HtmlParser.TagEnd(s, tag, cp).0
    {
      hide Span;
      var close := false;
      i := Skip(s, cp, IsPlain);
      TagText(cp, cp + i);
      Assoc(old(events), TextEvent(cp, cp + i), [AnyTagEnd(tag, At(s, cp + i) == '/')]);
      if At(s, cp + i) == '/' {
        close := true;
        i := i + 1;
      }
      if At(s, cp + i) == '>' {
        events := events + [AnyTagEnd(tag, close)];
        i := i + 1;
      }
    }

    method TagText(textStart: nat, textEnd: nat)
      requires textStart <= textEnd
      modifies this`events
      ensures events == old(events) + TextEvent(textStart, textEnd)
    {
      if textEnd - textStart != 0 {
        events := events + [Text(Slice(textStart, textEnd))];
      }
    }

    method ScriptName(s: string, lo: nat, i: nat) returns (r: bool)
      requires lo + i <= |s|
      ensures r <==> IsScript(s, lo, lo + i)
    {
      r := i == 6 && Lower(s[lo]) == 's' && Lower(s[lo + 1]) == 'c' && Lower(s[lo + 2]) == 'r' &&
           Lower(s[lo + 3]) == 'i' && Lower(s[lo + 4]) == 'p' && Lower(s[lo + 5]) == 't';
    }

    /** A comment, declaration or processing instruction whose '!' or '?' is at c. */
    method Declared(s: string, c: nat) returns (end: nat)
      requires 0 < c < |s| && Terminated(s) && nest
      requires MarkupAt(s, c - 1, nest) == if s[c] == '!' then Declaration else Instruction
      modifies this`events
      ensures (old(events) + Tag(s, c - 1, old(nest)).0, end, nest) == (events, Tag(s, c - 1, old(nest)).1, Tag(s, c - 1, old(nest)).2)
    {
      hide Span, HtmlParser.TagEnd, CommentEnd, MarkupAt;
      var i := c + 1;
      ghost var before := events;
      if s[c] == '!' && At(s, c + 1) == '-' && At(s, c + 2) == '-' {
        i := c + 3;
        while At(s, i) != '\0'
          invariant c + 3 <= i <= |s| && CommentEnd(s, c + 3) == CommentEnd(s, i)
          invariant events == before
          decreases |s| - i
        {
          CommentEndAt(s, i);
          if At(s, i) == '-' && At(s, i + 1) == '-' && At(s, i + 2) == '>' {
            i := i + 2;
            events := events + [OpenTagStart(Slice(c, i))];
            break;
          }
          i := i + 1;
        }
        if i == |s| { CommentEndAt(s, i); }
      } else {
        var n := Skip(s, c + 1, Other('>'));
        i := c + 1 + n;
        events := events + [OpenTagStart(Slice(c, i))];
      }
      Assoc(before, [OpenTagStart(Slice(c, i))], HtmlParser.TagEnd(s, Slice(c, i), i).0);
      var e := TagEnd(s, Slice(c, i), i);
      end := i + e;
    }

    static lemma CommentEndAt(s: string, i: nat)
      requires i <= |s| && Terminated(s)
      ensures i == |s| ==> CommentEnd(s, i) == None
      ensures i < |s| ==> CommentEnd(s, i) == if s[i] == '-' && At(s, i + 1) == '-' && At(s, i + 2) == '>' then Some(i) else CommentEnd(s, i + 1)
    {
    }

    /** A closing tag whose '/' is at c. */
    method Closed(s: string, c: nat) returns (end: nat)
      requires 0 < c < |s| && Terminated(s) && MarkupAt(s, c - 1, nest) == Closing
      modifies this
      ensures (events, end, nest) == (old(events) + Tag(s, c - 1, old(nest)).0, Tag(s, c - 1, old(nest)).1, Tag(s, c - 1, old(nest)).2)
    {
      hide Span, HtmlParser.TagEnd, MarkupAt;
      ghost var before := events;
      nest := true;
      var n := Skip(s, c + 1, IsNameChar);
      events := events + [CloseTag(Slice(c + 1, c + 1 + n))];
      Assoc(before, [CloseTag(Slice(c + 1, c + 1 + n))], HtmlParser.TagEnd(s, Slice(c + 1, c + 1 + n), c + 1 + n).0);
      var e := TagEnd(s, Slice(c + 1, c + 1 + n), c + 1 + n);
      end := c + 1 + n + e;
    }

    /** An opening tag whose name begins at c. */
    method Opened(s: string, c: nat) returns (end: nat)
      requires 0 < c < |s| && Terminated(s) && MarkupAt(s, c - 1, nest) == Opening
      modifies this
      ensures (events, end, nest) == (old(events) + Tag(s, c - 1, old(nest)).0, Tag(s, c - 1, old(nest)).1, Tag(s, c - 1, old(nest)).2)
    {
      hide Span, HtmlParser.TagEnd, HtmlParser.TagAttrs, MarkupAt, IsScript;
      ghost var before := events;
      var i := Skip(s, c, IsNameChar);
      ghost var open, attrs := [OpenTagStart(Slice(c, c + i))], HtmlParser.TagAttrs(s, Slice(c, c + i), c + i);
      events := events + [OpenTagStart(Slice(c, c + i))];
      var j := TagAttrs(s, Slice(c, c + i), c + i);
      ghost var tail := HtmlParser.TagEnd(s, Slice(c, c + i), c + i + j);
      Assoc(before, open, attrs.0);
      Assoc(before, open + attrs.0, tail.0);
      var e := TagEnd(s, Slice(c, c + i), c + i + j);
      j := j + e;
      var script := ScriptName(s, c, i);
      if script {
        nest := false;
      }
      end := c + i + j;
      assert nest == !IsScript(s, c, c + i) by { OpeningNests(s, c); }
    }

    static lemma OpeningNests(s: string, c: nat)
      requires 0 < c < |s|
      ensures MarkupAt(s, c - 1, false) != Opening
    {
    }

    /** Whether the closing tag whose name stands at lo .. lo + i - 1 ends a script. */
    method EndsScript(s: string, lo: nat, i: nat) returns (r: bool)
      requires lo + i <= |s| && Terminated(s) && lo + i == Span(s, lo, IsNameChar)
      ensures r <==> IsScript(s, lo, lo + i) && At(s, Span(s, lo + i, IsSpace)) == '>'
    {
      r := ScriptName(s, lo, i);
      if r {
        var ws := Skip(s, lo + 6, IsSpace);
        r := At(s, lo + 6 + ws) == '>';
      }
    }

    /** Tokenizes a whole input, beginning in the state the last one ended in. */
    method ParseStr(s: string)
      requires Terminated(s)
      modifies this
      ensures events == old(events) + Parse(s, 0, 0, old(nest)).0 && nest == Parse(s, 0, 0, old(nest)).1
    {
      hide Span, Tag, Parse, IsScript, MarkupAt, TextEvent;
      var textStart: nat, cp: nat := 0, 0;
      ghost var all := Parse(s, 0, 0, nest);
      ghost var before := events;
      while cp < |s|
        invariant textStart <= cp <= |s|
        invariant before + all.0 == events + Parse(s, textStart, cp, nest).0 && all.1 == Parse(s, textStart, cp, nest).1
        decreases |s| - cp
      {
        ParseAt(s, textStart, cp, nest);
        Which(s, cp, nest);
        if !MarkupAt(s, cp, nest).NoMarkup? {
          ghost var tag := Tag(s, cp, nest);
          Appended(events, TextEvent(textStart, cp), tag.0, Parse(s, tag.1, tag.1, tag.2).0);
        }
        if s[cp] != '<' {
          cp := cp + 1;
          continue;
        }
        var c := At(s, cp + 1);
        if nest && (c == '!' || c == '?') {
          TagText(textStart, cp);
          cp := Declared(s, cp + 1);
          textStart := cp;
        } else if c == '/' && IsAlpha(At(s, cp + 2)) {
          var i := Skip(s, cp + 2, IsNameChar);
          var terminated := nest;
          if !nest {
            terminated := EndsScript(s, cp + 2, i);
          }
          if !terminated {
            cp := cp + 1;
            continue;
          }
          TagText(textStart, cp);
          cp := Closed(s, cp + 1);
          textStart := cp;
        } else if nest && IsAlpha(c) {
          TagText(textStart, cp);
          cp := Opened(s, cp + 1);
          textStart := cp;
        } else {
          cp := cp + 1;
        }
      }
      ParseAt(s, textStart, cp, nest);
      TagText(textStart, cp);
    }

    /** The tests by which ParseStr tells what begins at cp. */
    static lemma Which(s: string, cp: nat, nest: bool)
      requires cp < |s|
      ensures s[cp] != '<' ==> MarkupAt(s, cp, nest) == NoMarkup
      ensures s[cp] == '<' ==>
                var c := At(s, cp + 1);
                var name := Span(s, if cp + 2 <= |s| then cp + 2 else |s|, IsNameChar);
                && (nest && c == '!' ==> MarkupAt(s, cp, nest) == Declaration)
                && (nest && c == '?' ==> MarkupAt(s, cp, nest) == Instruction)
                && (c == '/' && IsAlpha(At(s, cp + 2)) ==>
                      MarkupAt(s, cp, nest) ==
                      if nest || (IsScript(s, cp + 2, name) && At(s, Span(s, name, IsSpace)) == '>') then Closing else NoMarkup)
                && (nest && IsAlpha(c) ==> MarkupAt(s, cp, nest) == Opening)
                && (!(nest && (c == '!' || c == '?' || IsAlpha(c))) && !(c == '/' && IsAlpha(At(s, cp + 2))) ==>
                      MarkupAt(s, cp, nest) == NoMarkup)
    {
      hide Span, IsScript;
    }

    static lemma ParseAt(s: string, textStart: nat, cp: nat, nest: bool)
      requires textStart <= cp <= |s|
      ensures cp == |s| ==> Parse(s, textStart, cp, nest) == (TextEvent(textStart, cp), nest)
      ensures cp < |s| && MarkupAt(s, cp, nest).NoMarkup? ==> Parse(s, textStart, cp, nest) == Parse(s, textStart, cp + 1, nest)
      ensures cp < |s| && !MarkupAt(s, cp, nest).NoMarkup? ==>
                var (tag, end, nest') := Tag(s, cp, nest);
                Parse(s, textStart, cp, nest) == (TextEvent(textStart, cp) + (tag + Parse(s, end, end, nest').0), Parse(s, end, end, nest').1)
    {
      hide Tag, MarkupAt;
      if cp < |s| && !MarkupAt(s, cp, nest).NoMarkup? {
        var (tag, end, nest') := Tag(s, cp, nest);
        Assoc(TextEvent(textStart, cp), tag, Parse(s, end, end, nest').0);
      }
    }

    static lemma Appended<T>(e: seq<T>, text: seq<T>, tag: seq<T>, rest: seq<T>)
      ensures e + (text + (tag + rest)) == ((e + text) + tag) + rest
    {
    }
  }
}
