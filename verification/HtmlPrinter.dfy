/** HttpRewrite::Event: the callbacks that print the document again, rewriting what rules select.
    src/filter_http_rewrite.cpp:374-479. */
module HtmlPrinter {
  import opened HtmlParser
  import opened Options

  /** A callback with the strings it is given. */
  datatype Call =
    | OpenCall(tag: string)
    | EndCall(tag: string, close: bool)
    | AttributeCall(tag: string, attr: string, value: Option<string>, sep: string)
    | CloseCall(tag: string)
    | TextCall(text: string)

  /** A "within" element: patterns for tag and attribute (absent when not configured), and what its
      rules make of a text; anchored is true for attribute values. */
  datatype Within = Within(tag: Option<string -> bool>, attr: Option<string -> bool>, exec: (string, bool) -> string)

  predicate TagMatches(w: Within, tag: string) { w.tag.Some? && w.tag.value(tag) }

  predicate AttrMatches(w: Within, attr: string) { w.attr.Some? && w.attr.value(attr) }

  // ---------- one callback ----------

  /** The first element that takes over the text inside the tag. */
  function TextRule(rules: seq<Within>, tag: string, i: nat): (r: Option<nat>)
    requires i <= |rules|
    ensures r.Some? ==> r.value < |rules|
    decreases |rules| - i
  {
    if i == |rules| then None
    else if TagMatches(rules[i], tag) && AttrMatches(rules[i], "#text") then Some(i)
    else TextRule(rules, tag, i + 1)
  }

  /** The first element that rewrites the attribute. */
  function AttrRule(rules: seq<Within>, tag: string, attr: string, i: nat): (r: Option<nat>)
    requires i <= |rules|
    ensures r.Some? ==> r.value < |rules|
    decreases |rules| - i
  {
    if i == |rules| then None
    else if (rules[i].tag.None? || rules[i].tag.value(tag)) && AttrMatches(rules[i], attr) then Some(i)
    else AttrRule(rules, tag, attr, i + 1)
  }

  /** Element i is the first whose patterns select the attribute; without a tag pattern it selects the
      attributes of every tag. */
  ghost predicate FirstAttr(rules: seq<Within>, tag: string, attr: string, i: nat) {
    i < |rules| && SelectsAttr(rules[i], tag, attr) && forall j :: 0 <= j < i ==> !SelectsAttr(rules[j], tag, attr)
  }

  predicate SelectsAttr(w: Within, tag: string, attr: string) {
    (w.tag.None? || w.tag.value(tag)) && w.attr.Some? && w.attr.value(attr)
  }

  lemma {:induction false} AttrRuleIs(rules: seq<Within>, tag: string, attr: string, i: nat)
    requires i <= |rules| && forall j :: 0 <= j < i ==> !SelectsAttr(rules[j], tag, attr)
    ensures match AttrRule(rules, tag, attr, i)
            case Some(r) => FirstAttr(rules, tag, attr, r)
            case None => forall r :: 0 <= r < |rules| ==> !SelectsAttr(rules[r], tag, attr)
    decreases |rules| - i
  {
    if i < |rules| && !SelectsAttr(rules[i], tag, attr) { AttrRuleIs(rules, tag, attr, i + 1); }
  }

  /** What is printed of an attribute: its value as the first element makes it that selects the
      attribute, and unchanged if there is none. */
  lemma AttributeIs(rules: seq<Within>, stack: seq<nat>, tag: string, attr: string, value: Option<string>, sep: string)
    requires StackOk(rules, stack)
    ensures var out := Printed(rules, stack, AttributeCall(tag, attr, value, sep)).0;
            match value
            case None => out == " " + attr
            case Some(v) =>
              && (forall i: nat :: FirstAttr(rules, tag, attr, i) ==> out == " " + attr + ("=" + sep + rules[i].exec(v, true) + sep))
              && ((forall i :: 0 <= i < |rules| ==> !SelectsAttr(rules[i], tag, attr)) ==> out == " " + attr + ("=" + sep + v + sep))
  {
    AttrRuleIs(rules, tag, attr, 0);
    hide SelectsAttr;
    if value.None? { assert " " + attr + "" == " " + attr; }
  }

  ghost predicate StackOk(rules: seq<Within>, stack: seq<nat>) {
    forall k :: 0 <= k < |stack| ==> stack[k] < |rules|
  }

  function Popped(rules: seq<Within>, stack: seq<nat>, tag: string): seq<nat>
    requires StackOk(rules, stack)
  {
    if stack != [] && TagMatches(rules[stack[|stack| - 1]], tag) then stack[..|stack| - 1] else stack
  }

  /** What a callback prints, and the stack of elements whose text is being rewritten. */
  function Printed(rules: seq<Within>, stack: seq<nat>, call: Call): (r: (string, seq<nat>))
    requires StackOk(rules, stack)
    ensures StackOk(rules, r.1)
  {
    match call
    case OpenCall(tag) =>
      var w := TextRule(rules, tag, 0);
      ("<" + tag, if w.Some? then stack + [w.value] else stack)
    case EndCall(tag, close) =>
      (if close then "/>" else ">", if close then Popped(rules, stack, tag) else stack)
    case AttributeCall(tag, attr, value, sep) =>
      var w := AttrRule(rules, tag, attr, 0);
      (" " + attr + (if value.None? then ""
                     else "=" + sep + (if w.Some? then rules[w.value].exec(value.value, true) else value.value) + sep), stack)
    case CloseCall(tag) => ("</" + tag, Popped(rules, stack, tag))
    case TextCall(text) =>
      (if stack != [] then rules[stack[|stack| - 1]].exec(text, false) else text, stack)
  }

  function PrintAll(rules: seq<Within>, stack: seq<nat>, calls: seq<Call>): string
    requires StackOk(rules, stack)
    decreases |calls|
  {
    if calls == [] then ""
    else
      var (out, stack') := Printed(rules, stack, calls[0]);
      out + PrintAll(rules, stack', calls[1..])
  }

  /** What the callbacks print when no rule applies. */
  function Plain(call: Call): string {
    match call
    case OpenCall(tag) => "<" + tag
    case EndCall(_, close) => if close then "/>" else ">"
    case AttributeCall(_, attr, value, sep) => " " + attr + (if value.None? then "" else "=" + sep + value.value + sep)
    case CloseCall(tag) => "</" + tag
    case TextCall(text) => text
  }

  function PlainAll(calls: seq<Call>): string {
    if calls == [] then "" else Plain(calls[0]) + PlainAll(calls[1..])
  }

  ghost predicate LeavesText(w: Within) {
    forall text, anchored :: w.exec(text, anchored) == text
  }

  lemma PrintedPlain(rules: seq<Within>, stack: seq<nat>, call: Call)
    requires StackOk(rules, stack)
    requires forall i :: 0 <= i < |rules| ==> LeavesText(rules[i])
    ensures Printed(rules, stack, call).0 == Plain(call)
  {
  }

  /** Rules that leave every text as it is, and in particular no rules, print the plain document,
      whatever they select. */
  lemma {:induction false} IdentityRulesPrintPlain(rules: seq<Within>, stack: seq<nat>, calls: seq<Call>)
    requires StackOk(rules, stack)
    requires forall i :: 0 <= i < |rules| ==> LeavesText(rules[i])
    ensures PrintAll(rules, stack, calls) == PlainAll(calls)
    decreases |calls|
  {
    if calls != [] {
      PrintedPlain(rules, stack, calls[0]);
      IdentityRulesPrintPlain(rules, Printed(rules, stack, calls[0]).1, calls[1..]);
    }
  }

  class Printer {
    const rules: seq<Within>
    var w: string
    var within: seq<nat>  // the stack s_within, as indices into rules

    ghost predicate Valid()
      reads this
    {
      StackOk(rules, within)
    }

    constructor (rules: seq<Within>)
      ensures Valid() && this.rules == rules && w == "" && within == []
    {
      this.rules, w, within := rules, "", [];
    }

    method OpenTagStart(tag: string)
      requires Valid()
      modifies this
      ensures Valid() && (w, within) == (old(w) + Printed(rules, old(within), OpenCall(tag)).0, Printed(rules, old(within), OpenCall(tag)).1)
    {
      w := w + "<";
      w := w + tag;
      assert w == old(w) + ("<" + tag);
      var i := 0;
      while i < |rules|
        invariant i <= |rules| && TextRule(rules, tag, 0) == TextRule(rules, tag, i)
        invariant w == old(w) + ("<" + tag) && within == old(within)
      {
        if rules[i].tag.Some? && rules[i].tag.value(tag) {
          if rules[i].attr.Some? && rules[i].attr.value("#text") {
            within := within + [i];
            return;
          }
        }
        i := i + 1;
      }
    }

    method Pop(tag: string)
      requires Valid()
      modifies this`within
      ensures Valid() && within == Popped(rules, old(within), tag)
    {
      if |within| > 0 {
        var it := rules[within[|within| - 1]];
        if it.tag.Some? && it.tag.value(tag) {
          within := within[..|within| - 1];
        }
      }
    }

    method AnyTagEnd(tag: string, close: bool)
      requires Valid()
      modifies this
      ensures Valid() && (w, within) == (old(w) + Printed(rules, old(within), EndCall(tag, close)).0, Printed(rules, old(within), EndCall(tag, close)).1)
    {
      if close {
        Pop(tag);
      }
      if close {
        w := w + "/";
      }
      w := w + ">";
      assert close ==> w == old(w) + "/>";
    }

    method Attribute(tag: string, attr: string, value: Option<string>, sep: string)
      requires Valid()
      modifies this
      ensures Valid() && within == old(within) && w == old(w) + Printed(rules, old(within), AttributeCall(tag, attr, value, sep)).0
      ensures value.None? ==> w == old(w) + (" " + attr)
      ensures value.Some? ==> forall i: nat :: FirstAttr(rules, tag, attr, i) ==>
                w == old(w) + (" " + attr + ("=" + sep + rules[i].exec(value.value, true) + sep))
      ensures value.Some? && (forall i :: 0 <= i < |rules| ==> !SelectsAttr(rules[i], tag, attr)) ==>
                w == old(w) + (" " + attr + ("=" + sep + value.value + sep))
    {
      hide Printed, SelectsAttr, FirstAttr;
      var it, subst := 0, false;
      while it < |rules|
        invariant it <= |rules| && AttrRule(rules, tag, attr, 0) == AttrRule(rules, tag, attr, it)
        invariant !subst && w == old(w) && within == old(within)
      {
        if rules[it].tag.None? || rules[it].tag.value(tag) {
          if rules[it].attr.Some? && rules[it].attr.value(attr) {
            subst := true;
          }
        }
        if subst {
          break;
        }
        it := it + 1;
      }
      w := w + " ";
      w := w + attr;
      if value.Some? {
        w := w + "=";
        w := w + sep;
        if subst {
          w := w + rules[it].exec(value.value, true);
        } else {
          w := w + value.value;
        }
        w := w + sep;
      }
      AttributeIs(rules, within, tag, attr, value, sep);
      AttributeJoins(rules, within, tag, attr, value, sep, old(w));
    }

    static lemma AttributeJoins(rules: seq<Within>, stack: seq<nat>, tag: string, attr: string, value: Option<string>, sep: string, w: string)
      requires StackOk(rules, stack)
      ensures var (out, r) := (Printed(rules, stack, AttributeCall(tag, attr, value, sep)).0, AttrRule(rules, tag, attr, 0));
              w + out == match value
                         case None => w + " " + attr
                         case Some(v) => w + " " + attr + "=" + sep + (if r.Some? then rules[r.value].exec(v, true) else v) + sep
    {
      hide AttrRule;
      if value.Some? {
        var text := if AttrRule(rules, tag, attr, 0).Some? then rules[AttrRule(rules, tag, attr, 0).value].exec(value.value, true) else value.value;
        assert w + (" " + attr + ("=" + sep + text + sep)) == w + " " + attr + "=" + sep + text + sep;
      }
    }

    method CloseTag(tag: string)
      requires Valid()
      modifies this
      ensures Valid() && (w, within) == (old(w) + Printed(rules, old(within), CloseCall(tag)).0, Printed(rules, old(within), CloseCall(tag)).1)
    {
      Pop(tag);
      w := w + "</";
      w := w + tag;
      assert w == old(w) + ("</" + tag);
    }

    method Text(value: string)
      requires Valid()
      modifies this
      ensures Valid() && within == old(within) && w == old(w) + Printed(rules, old(within), TextCall(value)).0
    {
      if |within| > 0 {
        w := w + rules[within[|within| - 1]].exec(value, false);
      } else {
        w := w + value;
      }
    }

    /** The callbacks of a whole document, one after the other. */
    method Replay(calls: seq<Call>)
      requires Valid()
      modifies this
      ensures Valid() && w == old(w) + PrintAll(rules, old(within), calls)
    {
      hide Printed;
      ghost var all := PrintAll(rules, within, calls);
      for i := 0 to |calls|
        invariant Valid() && old(w) + all == w + PrintAll(rules, within, calls[i..])
      {
        PrintFirst(rules, within, calls, i, w);
        match calls[i] {
          case OpenCall(tag) => OpenTagStart(tag);
          case EndCall(tag, close) => AnyTagEnd(tag, close);
          case AttributeCall(tag, attr, value, sep) =>
            AttributeKeepsStack(rules, within, tag, attr, value, sep);
            Attribute(tag, attr, value, sep);
          case CloseCall(tag) => CloseTag(tag);
          case TextCall(text) =>
            TextKeepsStack(rules, within, text);
            Text(text);
        }
      }
    }

    static lemma AttributeKeepsStack(rules: seq<Within>, stack: seq<nat>, tag: string, attr: string, value: Option<string>, sep: string)
      requires StackOk(rules, stack)
      ensures Printed(rules, stack, AttributeCall(tag, attr, value, sep)).1 == stack
    {
    }

    static lemma TextKeepsStack(rules: seq<Within>, stack: seq<nat>, text: string)
      requires StackOk(rules, stack)
      ensures Printed(rules, stack, TextCall(text)).1 == stack
    {
    }

    static lemma PrintFirst(rules: seq<Within>, stack: seq<nat>, calls: seq<Call>, i: nat, w: string)
      requires StackOk(rules, stack) && i < |calls|
      ensures var (out, stack') := Printed(rules, stack, calls[i]);
              w + PrintAll(rules, stack, calls[i..]) == (w + out) + PrintAll(rules, stack', calls[i + 1..])
    {
      assert calls[i..][0] == calls[i] && calls[i..][1..] == calls[i + 1..];
    }
  }
}
