/** Which rule rewrites which text of a document: that of the innermost open tag that has one.
    src/filter_http_rewrite.cpp:374-479. */
module HtmlTexts {
  import opened HtmlPrinter
  import opened Options

  // ---------- selection, without the printer's search ----------

  /** Element r is the first whose patterns select the tag and its text. */
  ghost predicate FirstText(rules: seq<Within>, tag: string, r: nat) {
    r < |rules| && SelectsText(rules[r], tag) && forall j :: 0 <= j < r ==> !SelectsText(rules[j], tag)
  }

  predicate SelectsText(w: Within, tag: string) {
    w.tag.Some? && w.tag.value(tag) && w.attr.Some? && w.attr.value("#text")
  }

  lemma {:induction false} TextRuleIs(rules: seq<Within>, tag: string, i: nat)
    requires i <= |rules| && forall j :: 0 <= j < i ==> !SelectsText(rules[j], tag)
    ensures match TextRule(rules, tag, i)
            case Some(r) => FirstText(rules, tag, r)
            case None => forall r :: 0 <= r < |rules| ==> !SelectsText(rules[r], tag)
    decreases |rules| - i
  {
    if i < |rules| && !SelectsText(rules[i], tag) { TextRuleIs(rules, tag, i + 1); }
  }

  // ---------- tags that are open ----------

  predicate Closing(c: Call) {
    c.CloseCall? || (c.EndCall? && c.close)
  }

  /** The callback ends a tag that element r has selected. */
  predicate Ends(rules: seq<Within>, r: nat, c: Call)
    requires r < |rules|
  {
    Closing(c) && rules[r].tag.Some? && rules[r].tag.value(c.tag)
  }

  /** The callback opens a tag whose text element r selects. */
  ghost predicate Begins(rules: seq<Within>, c: Call, r: nat) {
    c.OpenCall? && FirstText(rules, c.tag, r)
  }

  /** The callback neither opens a tag whose text is selected nor ends the one that top has selected. */
  ghost predicate Neutral(rules: seq<Within>, top: Option<nat>, c: Call) {
    && (c.OpenCall? ==> forall r :: 0 <= r < |rules| ==> !SelectsText(rules[r], c.tag))
    && (top.Some? && top.value < |rules| ==> !Ends(rules, top.value, c))
  }

  /** Within the tag that top has selected (or outside all such tags) every selected tag that is opened
      is ended again, and top's is not. */
  ghost predicate Level(rules: seq<Within>, top: Option<nat>, calls: seq<Call>)
    decreases |calls|, 1
  {
    || calls == []
    || (Neutral(rules, top, calls[0]) && Level(rules, top, calls[1..]))
    || exists r: nat, j: nat :: GroupFirst(rules, top, calls, r, j)
  }

  /** The first j + 1 callbacks are a tag that element r selects, from its beginning to its end. */
  ghost predicate GroupFirst(rules: seq<Within>, top: Option<nat>, calls: seq<Call>, r: nat, j: nat)
    decreases |calls|, 0
  {
    && 1 <= j < |calls| && r < |rules| && Begins(rules, calls[0], r) && Ends(rules, r, calls[j])
    && Level(rules, Some(r), calls[1..j]) && Level(rules, top, calls[j + 1..])
  }

  // ---------- what the stack has to do with it ----------

  function StackAfter(rules: seq<Within>, stack: seq<nat>, calls: seq<Call>): (r: seq<nat>)
    requires StackOk(rules, stack)
    ensures StackOk(rules, r)
    decreases |calls|
  {
    if calls == [] then stack else StackAfter(rules, Printed(rules, stack, calls[0]).1, calls[1..])
  }

  function Top(stack: seq<nat>): Option<nat> {
    if stack == [] then None else Some(stack[|stack| - 1])
  }

  lemma NeutralKeeps(rules: seq<Within>, stack: seq<nat>, c: Call)
    requires StackOk(rules, stack) && Neutral(rules, Top(stack), c)
    ensures Printed(rules, stack, c).1 == stack
  {
    if c.OpenCall? { TextRuleIs(rules, c.tag, 0); }
  }

  lemma BeginPushes(rules: seq<Within>, stack: seq<nat>, c: Call, r: nat)
    requires StackOk(rules, stack) && Begins(rules, c, r)
    ensures Printed(rules, stack, c).1 == stack + [r]
  {
    TextRuleIs(rules, c.tag, 0);
  }

  lemma EndPops(rules: seq<Within>, stack: seq<nat>, c: Call, r: nat)
    requires StackOk(rules, stack + [r]) && r < |rules| && Ends(rules, r, c)
    ensures StackOk(rules, stack) && Printed(rules, stack + [r], c).1 == stack
  {
    assert (stack + [r])[..|stack|] == stack;
    assert forall k :: 0 <= k < |stack| ==> stack[k] == (stack + [r])[k];
  }

  lemma {:induction false} StackAppend(rules: seq<Within>, stack: seq<nat>, a: seq<Call>, b: seq<Call>)
    requires StackOk(rules, stack)
    ensures StackAfter(rules, stack, a + b) == StackAfter(rules, StackAfter(rules, stack, a), b)
    decreases |a|
  {
    hide Printed, StackOk;
    if a == [] {
      assert a + b == b;
    } else {
      assert (a + b)[0] == a[0] && (a + b)[1..] == a[1..] + b;
      StackAppend(rules, Printed(rules, stack, a[0]).1, a[1..], b);
    }
  }

  lemma StackOne(rules: seq<Within>, stack: seq<nat>, c: Call)
    requires StackOk(rules, stack)
    ensures StackAfter(rules, stack, [c]) == Printed(rules, stack, c).1
  {
    hide Printed;
    assert [c][1..] == [];
  }

  /** On one level the stack comes back to what it was. */
  lemma {:induction false} LevelKeeps(rules: seq<Within>, stack: seq<nat>, calls: seq<Call>)
    requires StackOk(rules, stack) && Level(rules, Top(stack), calls)
    ensures StackAfter(rules, stack, calls) == stack
    decreases |calls|
  {
    hide Printed, Neutral, Begins, Ends;
    if calls != [] {
      if Neutral(rules, Top(stack), calls[0]) && Level(rules, Top(stack), calls[1..]) {
        NeutralKeeps(rules, stack, calls[0]);
        LevelKeeps(rules, stack, calls[1..]);
      } else {
        var r: nat, j: nat :| GroupFirst(rules, Top(stack), calls, r, j);
        GroupKeeps(rules, stack, calls, r, j);
        LevelKeeps(rules, stack, calls[j + 1..]);
      }
    }
  }

  lemma GroupKeeps(rules: seq<Within>, stack: seq<nat>, calls: seq<Call>, r: nat, j: nat)
    requires StackOk(rules, stack) && GroupFirst(rules, Top(stack), calls, r, j)
    ensures StackAfter(rules, stack, calls) == StackAfter(rules, stack, calls[j + 1..])
    decreases |calls|, 0
  {
    hide Printed, Neutral, Begins, Ends, Level, StackAfter;
    var (mid, rest) := (calls[1..j], calls[j + 1..]);
    var up := stack + [r];
    assert calls == [calls[0]] + (mid + ([calls[j]] + rest));
    BeginPushes(rules, stack, calls[0], r);
    StackOne(rules, stack, calls[0]);
    StackAppend(rules, stack, [calls[0]], mid + ([calls[j]] + rest));
    LevelKeeps(rules, up, mid);
    StackAppend(rules, up, mid, [calls[j]] + rest);
    EndPops(rules, stack, calls[j], r);
    StackOne(rules, up, calls[j]);
    StackAppend(rules, up, [calls[j]], rest);
  }

  // ---------- every prefix is one level, or within a selected tag ----------

  lemma {:induction false} LevelAppend(rules: seq<Within>, top: Option<nat>, a: seq<Call>, b: seq<Call>)
    requires Level(rules, top, a) && Level(rules, top, b)
    ensures Level(rules, top, a + b)
    decreases |a|
  {
    hide Neutral, Begins, Ends;
    if a == [] {
      assert a + b == b;
    } else {
      assert (a + b)[0] == a[0] && (a + b)[1..] == a[1..] + b;
      if Neutral(rules, top, a[0]) && Level(rules, top, a[1..]) {
        LevelAppend(rules, top, a[1..], b);
      } else {
        var r: nat, j: nat :| GroupFirst(rules, top, a, r, j);
        LevelAppend(rules, top, a[j + 1..], b);
        assert (a + b)[1..j] == a[1..j] && (a + b)[j + 1..] == a[j + 1..] + b && (a + b)[j] == a[j];
        assert GroupFirst(rules, top, a + b, r, j);
      }
    }
  }

  lemma LevelOne(rules: seq<Within>, top: Option<nat>, c: Call)
    requires Neutral(rules, top, c)
    ensures Level(rules, top, [c])
  {
    assert [c][1..] == [] && Level(rules, top, []);
  }

  lemma LevelGroup(rules: seq<Within>, top: Option<nat>, o: Call, mid: seq<Call>, e: Call, r: nat)
    requires r < |rules| && Begins(rules, o, r) && Level(rules, Some(r), mid) && Ends(rules, r, e)
    ensures Level(rules, top, [o] + mid + [e])
  {
    hide Begins, Ends;
    var all := [o] + mid + [e];
    var j := |mid| + 1;
    assert all[0] == o && all[1..j] == mid && all[j] == e && all[j + 1..] == [];
    assert Level(rules, top, []);
    assert GroupFirst(rules, top, all, r, j);
  }

  /** The text at k stands within the tag that callback i opens and element r has selected, and in no
      selected tag within that one. */
  ghost predicate InnermostAt(rules: seq<Within>, calls: seq<Call>, i: nat, k: nat, r: nat) {
    i < k <= |calls| && r < |rules| && Begins(rules, calls[i], r) && Level(rules, Some(r), calls[i + 1..k])
  }

  ghost predicate Outside(rules: seq<Within>, calls: seq<Call>, k: nat) {
    k <= |calls| && Level(rules, None, calls[..k])
  }

  lemma InnermostStack(rules: seq<Within>, calls: seq<Call>, i: nat, k: nat, r: nat)
    requires InnermostAt(rules, calls, i, k, r)
    ensures StackAfter(rules, [], calls[..k]) == StackAfter(rules, [], calls[..i]) + [r]
  {
    hide Printed, Begins, Level, StackAfter;
    var (pre, mid) := (calls[..i], calls[i + 1..k]);
    var stack := StackAfter(rules, [], pre);
    assert calls[..k] == pre + ([calls[i]] + mid);
    StackAppend(rules, [], pre, [calls[i]] + mid);
    StackAppend(rules, stack, [calls[i]], mid);
    StackOne(rules, stack, calls[i]);
    BeginPushes(rules, stack, calls[i], r);
    LevelKeeps(rules, stack + [r], mid);
  }

  /** Every place is outside all selected tags, or has an innermost one. */
  lemma {:induction false} Placed(rules: seq<Within>, calls: seq<Call>, k: nat) returns (i: nat, r: nat)
    requires k <= |calls|
    ensures Outside(rules, calls, k) || InnermostAt(rules, calls, i, k, r)
    decreases k
  {
    hide Printed, Level, Begins, Ends, Neutral;
    i, r := 0, 0;
    if k == 0 {
      assert calls[..0] == [] && Level(rules, None, []) by { LevelNone(rules, None); }
    } else {
      i, r := Placed(rules, calls, k - 1);
      var c := calls[k - 1];
      var top: Option<nat> := if Outside(rules, calls, k - 1) then None else Some(r);
      var q := WhatItDoes(rules, top, c);
      if Neutral(rules, top, c) {
        LevelOne(rules, top, c);
        if top.None? {
          LevelAppend(rules, None, calls[..k - 1], [c]);
          assert calls[..k] == calls[..k - 1] + [c];
        } else {
          LevelAppend(rules, top, calls[i + 1..k - 1], [c]);
          assert calls[i + 1..k] == calls[i + 1..k - 1] + [c];
        }
      } else if c.OpenCall? {
        i, r := k - 1, q;
        assert calls[k..k] == [];
        LevelNone(rules, Some(q));
      } else {
        var (i0, r0) := (i, r);
        var (o, mid) := (calls[i0], calls[i0 + 1..k - 1]);
        i, r := Placed(rules, calls, i0);
        var top': Option<nat> := if Outside(rules, calls, i0) then None else Some(r);
        LevelGroup(rules, top', o, mid, c, r0);
        if top'.None? {
          LevelAppend(rules, None, calls[..i0], [o] + mid + [c]);
          assert calls[..k] == calls[..i0] + ([o] + mid + [c]);
        } else {
          LevelAppend(rules, top', calls[i + 1..i0], [o] + mid + [c]);
          assert calls[i + 1..k] == calls[i + 1..i0] + ([o] + mid + [c]);
        }
      }
    }
  }

  lemma LevelNone(rules: seq<Within>, top: Option<nat>)
    ensures Level(rules, top, [])
  {
  }

  /** A callback is neutral, begins a selected tag, or ends the one on top. */
  lemma WhatItDoes(rules: seq<Within>, top: Option<nat>, c: Call) returns (q: nat)
    requires top.Some? ==> top.value < |rules|
    ensures Neutral(rules, top, c) || (c.OpenCall? && q < |rules| && Begins(rules, c, q))
            || (!c.OpenCall? && top.Some? && Ends(rules, top.value, c))
  {
    q := 0;
    if c.OpenCall? {
      TextRuleIs(rules, c.tag, 0);
      var t := TextRule(rules, c.tag, 0);
      q := if t.Some? then t.value else 0;
    }
  }

  // ---------- what is printed ----------

  lemma {:induction false} PrintAppend(rules: seq<Within>, stack: seq<nat>, a: seq<Call>, c: Call)
    requires StackOk(rules, stack)
    ensures PrintAll(rules, stack, a + [c]) == PrintAll(rules, stack, a) + Printed(rules, StackAfter(rules, stack, a), c).0
    decreases |a|
  {
    hide Printed, StackOk;
    if a == [] {
      assert a + [c] == [c] && [c][1..] == [];
      var out := Printed(rules, stack, c).0;
      assert out + "" == out && "" + out == out;
    } else {
      assert (a + [c])[0] == a[0] && (a + [c])[1..] == a[1..] + [c];
      var (out, next) := Printed(rules, stack, a[0]);
      PrintAppend(rules, next, a[1..], c);
      var last := Printed(rules, StackAfter(rules, stack, a), c).0;
      assert out + (PrintAll(rules, next, a[1..]) + last) == (out + PrintAll(rules, next, a[1..])) + last;
    }
  }

  /** In a document printed from the beginning, a text is rewritten by the element that has selected the
      innermost selected tag around it, and printed unchanged outside all selected tags; one of the two
      is the case. */
  lemma TextsRewritten(rules: seq<Within>, calls: seq<Call>, k: nat)
    requires k < |calls| && calls[k].TextCall?
    ensures forall i: nat, r: nat :: InnermostAt(rules, calls, i, k, r) ==>
              PrintAll(rules, [], calls[..k + 1]) == PrintAll(rules, [], calls[..k]) + rules[r].exec(calls[k].text, false)
    ensures Outside(rules, calls, k) ==> PrintAll(rules, [], calls[..k + 1]) == PrintAll(rules, [], calls[..k]) + calls[k].text
    ensures Outside(rules, calls, k) || exists i: nat, r: nat :: InnermostAt(rules, calls, i, k, r)
  {
    hide Level, Begins, StackAfter, PrintAll;
    var i0, r0 := Placed(rules, calls, k);
    var stack := StackAfter(rules, [], calls[..k]);
    assert calls[..k + 1] == calls[..k] + [calls[k]];
    PrintAppend(rules, [], calls[..k], calls[k]);
    forall i: nat, r: nat | InnermostAt(rules, calls, i, k, r)
      ensures PrintAll(rules, [], calls[..k + 1]) == PrintAll(rules, [], calls[..k]) + rules[r].exec(calls[k].text, false)
    {
      InnermostStack(rules, calls, i, k, r);
    }
    if Outside(rules, calls, k) {
      LevelKeeps(rules, [], calls[..k]);
    }
  }
}
