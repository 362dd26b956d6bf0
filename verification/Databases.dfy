/** Database lists and their equality, src/util.cpp:154-183. */
module Databases {

  function LowerChar(c: char): char {
    if 'A' <= c <= 'Z' then c - 'A' + 'a' else c
  }

  function Lower(s: string): (r: string)
    ensures |r| == |s| && forall i :: 0 <= i < |s| ==> r[i] == LowerChar(s[i])
  {
    seq(|s|, i requires 0 <= i < |s| => LowerChar(s[i]))
  }

  /** The database list as the pool compares it and as a target takes it. */
  function Normal(dbs: seq<string>): (r: seq<string>)
    ensures |r| == |dbs| && forall i :: 0 <= i < |dbs| ==> r[i] == Lower(dbs[i])
  {
    seq(|dbs|, i requires 0 <= i < |dbs| => Lower(dbs[i]))
  }

  predicate Same(a: seq<string>, b: seq<string>) {
    Normal(a) == Normal(b)
  }

  method Normalize(s: string) returns (r: string)
    ensures r == Lower(s)
  {
    r := s;
    for i := 0 to |s|
      invariant |r| == |s|
      invariant forall j :: 0 <= j < i ==> r[j] == LowerChar(s[j])
      invariant forall j :: i <= j < |s| ==> r[j] == s[j]
    {
      if 'A' <= r[i] <= 'Z' {
        r := r[i := r[i] - 'A' + 'a'];
      }
    }
  }

  method Match(a: seq<string>, b: seq<string>) returns (r: bool)
    ensures r <==> Same(a, b)
  {
    var i := 0;
    while i < |a| && i < |b|
      invariant 0 <= i <= |a| && i <= |b|
      invariant Normal(a)[..i] == Normal(b)[..i]
    {
      var s1 := Normalize(a[i]);
      var s2 := Normalize(b[i]);
      if s1 != s2 {
        assert Normal(a)[i] != Normal(b)[i];
        return false;
      }
      i := i + 1;
    }
    r := i == |a| && i == |b|;
    if r {
      assert Normal(a) == Normal(a)[..i] && Normal(b) == Normal(b)[..i];
    }
  }

  /** The same character, or the upper and the lower case of one of the letters A to Z. */
  predicate CaseVariants(x: char, y: char) {
    x == y || ('A' <= x <= 'Z' && y as int == x as int + 32) || ('A' <= y <= 'Z' && x as int == y as int + 32)
  }

  predicate SameName(a: string, b: string) {
    |a| == |b| && forall k :: 0 <= k < |a| ==> CaseVariants(a[k], b[k])
  }

  /** Lists are the same exactly when they differ in nothing but the case of these letters. */
  lemma SameUpToCase(a: seq<string>, b: seq<string>)
    ensures Same(a, b) <==> |a| == |b| && forall i :: 0 <= i < |a| ==> SameName(a[i], b[i])
  {
    if |a| == |b| {
      forall i | 0 <= i < |a| ensures Lower(a[i]) == Lower(b[i]) <==> SameName(a[i], b[i]) {
        LowerUpToCase(a[i], b[i]);
      }
      if Same(a, b) {
        forall i | 0 <= i < |a| ensures SameName(a[i], b[i]) { assert Normal(a)[i] == Normal(b)[i]; }
      }
    } else {
      assert |Normal(a)| != |Normal(b)|;
    }
  }

  lemma LowerUpToCase(a: string, b: string)
    ensures Lower(a) == Lower(b) <==> SameName(a, b)
  {
    if |a| == |b| {
      forall k | 0 <= k < |a| ensures LowerChar(a[k]) == LowerChar(b[k]) <==> CaseVariants(a[k], b[k]) {
        LowerVariants(a[k], b[k]);
      }
      if Lower(a) == Lower(b) {
        forall k | 0 <= k < |a| ensures CaseVariants(a[k], b[k]) { assert Lower(a)[k] == Lower(b)[k]; }
      }
    } else {
      assert |Lower(a)| != |Lower(b)|;
    }
  }

  lemma LowerVariants(x: char, y: char)
    ensures LowerChar(x) == LowerChar(y) <==> CaseVariants(x, y)
  {
  }
}
