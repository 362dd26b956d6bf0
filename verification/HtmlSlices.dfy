/** The substrings a parse reports, src/html_parser.cpp:91-312: each callback is handed stretches of
    the input that begin behind everything reported before. */
module HtmlSlices {
  import opened HtmlParser
  import opened Options

  /** The stretches a callback reports for the first time; the end of a tag repeats the tag's name,
      and so does an attribute. */
  function Fresh(e: Event): seq<Slice> {
    match e
    case OpenTagStart(tag) => [tag]
    case AnyTagEnd(_, _) => []
    case Attribute(_, attr, value, _) => [attr] + if value.Some? then [value.value] else []
    case CloseTag(tag) => [tag]
    case Text(text) => [text]
  }

  function FreshAll(events: seq<Event>): seq<Slice> {
    if events == [] then [] else Fresh(events[0]) + FreshAll(events[1..])
  }

  /** Within lo .. hi, disjoint, and in the order of the input. */
  ghost predicate InOrder(lo: nat, slices: seq<Slice>, hi: nat)
    decreases |slices|
  {
    if slices == [] then lo <= hi else lo <= slices[0].lo <= slices[0].hi && InOrder(slices[0].hi, slices[1..], hi)
  }

  lemma {:induction false} InOrderConcat(lo: nat, a: seq<Slice>, mid: nat, b: seq<Slice>, hi: nat)
    requires InOrder(lo, a, mid) && InOrder(mid, b, hi)
    ensures InOrder(lo, a + b, hi)
    decreases |a|
  {
    if a == [] {
      assert a + b == b;
      Widen(lo, mid, b, hi);
    } else {
      InOrderConcat(a[0].hi, a[1..], mid, b, hi);
      assert (a + b)[1..] == a[1..] + b;
    }
  }

  lemma {:induction false} Widen(lo: nat, mid: nat, b: seq<Slice>, hi: nat)
    requires lo <= mid && InOrder(mid, b, hi)
    ensures InOrder(lo, b, hi)
  {
  }

  lemma {:induction false} FreshConcat(a: seq<Event>, b: seq<Event>)
    ensures FreshAll(a + b) == FreshAll(a) + FreshAll(b)
  {
    hide Fresh;
    if a == [] {
      assert a + b == b;
    } else {
      FreshConcat(a[1..], b);
      assert (a + b)[0] == a[0] && (a + b)[1..] == a[1..] + b;
      var (x, y, z) := (Fresh(a[0]), FreshAll(a[1..]), FreshAll(b));
      assert x + (y + z) == (x + y) + z;
    }
  }

  ghost predicate Ordered(lo: nat, events: seq<Event>, hi: nat) { InOrder(lo, FreshAll(events), hi) }

  lemma OrderedConcat(lo: nat, a: seq<Event>, mid: nat, b: seq<Event>, hi: nat)
    requires Ordered(lo, a, mid) && Ordered(mid, b, hi)
    ensures Ordered(lo, a + b, hi)
  {
    hide InOrder;
    FreshConcat(a, b);
    InOrderConcat(lo, FreshAll(a), mid, FreshAll(b), hi);
  }

  lemma OrderedOne(lo: nat, e: Event, hi: nat)
    requires InOrder(lo, Fresh(e), hi)
    ensures Ordered(lo, [e], hi)
  {
    assert [e][1..] == [] && Fresh(e) + [] == Fresh(e);
  }

  lemma OrderedNone(lo: nat, hi: nat)
    requires lo <= hi
    ensures Ordered(lo, [], hi)
  {
  }

  lemma TextOrdered(lo: nat, hi: nat)
    requires lo <= hi
    ensures Ordered(lo, TextEvent(lo, hi), hi)
  {
    if lo < hi { OneSlice(lo, Slice(lo, hi), hi); OrderedOne(lo, Text(Slice(lo, hi)), hi); }
  }

  lemma OneSlice(lo: nat, x: Slice, hi: nat)
    requires lo <= x.lo <= x.hi <= hi
    ensures InOrder(lo, [x], hi)
  {
    assert [x][1..] == [];
  }

  lemma {:induction false} AttributesOrdered(s: string, tag: Slice, i: nat)
    requires i <= |s|
    ensures var (events, end) := Attributes(s, tag, i); Ordered(i, events, end)
    decreases |s| - i
  {
    hide Span, SkipAttribute, Ordered, InOrder;
    OrderedNone(i, i);
    if i < |s| && !IsDelimiter(s[i]) && SkipAttribute(s, i).end != i {
      var a := SkipAttribute(s, i);
      AttributesOrdered(s, tag, a.end);
      var e := Attribute(tag, a.attr, a.value, a.sep);
      AttributeSlices(a);
      OrderedOne(i, e, a.end);
      OrderedConcat(i, [e], a.end, Attributes(s, tag, a.end).0, Attributes(s, tag, a.end).1);
    }
  }

  lemma AttributeSlices(a: AttributeScan)
    requires a.attr.lo <= a.attr.hi <= a.end && (a.value.Some? ==> a.attr.hi <= a.value.value.lo <= a.value.value.hi <= a.end)
    ensures InOrder(a.attr.lo, [a.attr] + (if a.value.Some? then [a.value.value] else []), a.end)
  {
    if a.value.Some? {
      OneSlice(a.attr.lo, a.attr, a.attr.hi);
      OneSlice(a.attr.hi, a.value.value, a.end);
      InOrderConcat(a.attr.lo, [a.attr], a.attr.hi, [a.value.value], a.end);
    } else {
      OneSlice(a.attr.lo, a.attr, a.end);
    }
  }

  lemma TagEndOrdered(s: string, tag: Slice, cp: nat)
    requires cp <= |s|
    ensures var (events, end) := HtmlParser.TagEnd(s, tag, cp); Ordered(cp, events, end)
  {
    hide Span, Ordered, InOrder, TextEvent;
    var i := Span(s, cp, IsPlain);
    var (events, end) := HtmlParser.TagEnd(s, tag, cp);
    TextOrdered(cp, i);
    OrderedNone(i, end);
    OrderedConcat(cp, TextEvent(cp, i), i, [], end);
    assert TextEvent(cp, i) + [] == TextEvent(cp, i);
    var close := At(s, i) == '/';
    EmptySlices(i, end);
    OrderedOne(i, AnyTagEnd(tag, close), end);
    OrderedConcat(cp, TextEvent(cp, i), i, [AnyTagEnd(tag, close)], end);
  }

  lemma EmptySlices(lo: nat, hi: nat)
    requires lo <= hi
    ensures InOrder(lo, [], hi)
  {
  }

  /** A tag that reports a name and then ends. */
  lemma NamedTag(s: string, cp: nat, e: Event, name: Slice, tag: Slice)
    requires Fresh(e) == [name] && cp <= name.lo <= name.hi <= |s|
    ensures var (events, end) := HtmlParser.TagEnd(s, tag, name.hi); Ordered(cp, [e] + events, end)
  {
    hide Ordered, InOrder, HtmlParser.TagEnd, Fresh;
    OneSlice(cp, name, name.hi);
    OrderedOne(cp, e, name.hi);
    TagEndOrdered(s, tag, name.hi);
    OrderedConcat(cp, [e], name.hi, HtmlParser.TagEnd(s, tag, name.hi).0, HtmlParser.TagEnd(s, tag, name.hi).1);
  }

  lemma OpeningOrdered(s: string, cp: nat, n: nat)
    requires cp + 1 <= n <= |s|
    ensures var (attrs, a) := TagAttrs(s, Slice(cp + 1, n), n);
            var (events, end) := HtmlParser.TagEnd(s, Slice(cp + 1, n), a);
            Ordered(cp, [OpenTagStart(Slice(cp + 1, n))] + attrs + events, end)
  {
    hide Ordered, InOrder, HtmlParser.TagEnd, Span;
    var tag := Slice(cp + 1, n);
    var (attrs, a) := TagAttrs(s, tag, n);
    var (events, end) := HtmlParser.TagEnd(s, tag, a);
    var first := Span(s, n, IsSpace);
    OneSlice(cp, tag, first);
    OrderedOne(cp, OpenTagStart(tag), first);
    AttributesOrdered(s, tag, first);
    TagEndOrdered(s, tag, a);
    OrderedConcat(cp, [OpenTagStart(tag)], first, attrs, a);
    OrderedConcat(cp, [OpenTagStart(tag)] + attrs, a, events, end);
  }

  lemma TagOrdered(s: string, cp: nat, nest: bool)
    requires cp < |s| && !MarkupAt(s, cp, nest).NoMarkup?
    ensures var (events, end, _) := Tag(s, cp, nest); Ordered(cp, events, end)
  {
    hide Ordered, HtmlParser.TagEnd, TagAttrs, Span, CommentEnd, IsScript;
    var c := cp + 1;
    var m := MarkupAt(s, cp, nest);
    hide MarkupAt;
    match m
    case Declaration =>
      if At(s, c + 1) == '-' && At(s, c + 2) == '-' {
        var k := CommentEnd(s, c + 3);
        if k.Some? {
          NamedTag(s, cp, OpenTagStart(Slice(c, k.value + 2)), Slice(c, k.value + 2), Slice(c, k.value + 2));
        } else {
          TagEndOrdered(s, Slice(c, |s|), |s|);
          OrderedNone(cp, |s|);
          var (events, end) := HtmlParser.TagEnd(s, Slice(c, |s|), |s|);
          OrderedConcat(cp, [], |s|, events, end);
          assert [] + events == events;
        }
      } else {
        var x := Slice(c, Span(s, c + 1, Other('>')));
        NamedTag(s, cp, OpenTagStart(x), x, x);
      }
    case Instruction =>
      var x := Slice(c, Span(s, c + 1, Other('>')));
      NamedTag(s, cp, OpenTagStart(x), x, x);
    case Closing =>
      var x := Slice(c + 1, Span(s, c + 1, IsNameChar));
      NamedTag(s, cp, HtmlParser.CloseTag(x), x, x);
    case Opening => OpeningOrdered(s, cp, Span(s, c, IsNameChar));
  }

  /** Every stretch a parse reports lies behind the ones reported before it and inside the input. */
  lemma {:induction false} ParseOrdered(s: string, textStart: nat, cp: nat, nest: bool)
    requires textStart <= cp <= |s|
    ensures Ordered(textStart, Parse(s, textStart, cp, nest).0, |s|)
    decreases |s| - cp
  {
    hide MarkupAt, Tag, Ordered, TextEvent;
    TextOrdered(textStart, cp);
    if cp < |s| {
      if MarkupAt(s, cp, nest).NoMarkup? {
        ParseOrdered(s, textStart, cp + 1, nest);
      } else {
        var (tag, end, nest') := Tag(s, cp, nest);
        TagOrdered(s, cp, nest);
        ParseOrdered(s, end, end, nest');
        OrderedConcat(textStart, TextEvent(textStart, cp), cp, tag, end);
        OrderedConcat(textStart, TextEvent(textStart, cp) + tag, end, Parse(s, end, end, nest').0, |s|);
      }
    }
  }
}
