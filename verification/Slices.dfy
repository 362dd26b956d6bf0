/** Slices with clamped bounds: the vocabulary in which result pages are specified. */
module Slices {

  /** s without its first n elements; n may lie outside the bounds of s. */
  function Drop<T>(s: seq<T>, n: int): (r: seq<T>)
  {
    if n <= 0 then s else if n >= |s| then [] else s[n..]
  }

  /** The first n elements of s; n may lie outside the bounds of s. */
  function Take<T>(s: seq<T>, n: int): (r: seq<T>)
  {
    if n <= 0 then [] else if n >= |s| then s else s[..n]
  }

  /** Elements start, start + 1, .. of s (the first element is number 1), at most number of them. */
  function Page<T>(s: seq<T>, start: int, number: int): (r: seq<T>)
  {
    Take(Drop(s, start - 1), number)
  }

  ghost predicate Distinct<T(!new)>(s: seq<T>) {
    forall i, j :: 0 <= i < j < |s| ==> s[i] != s[j]
  }

  lemma DropDrop<T>(s: seq<T>, m: nat, n: nat)
    ensures Drop(Drop(s, m), n) == Drop(s, m + n)
  {
  }

  lemma SuffixPage<T>(s: seq<T>, k: nat, d: nat, n: int)
    requires k <= |s|
    ensures Take(Drop(s[k..], d), n) == Page(s, k + d + 1, n)
  {
    DropDrop(s, k, d);
  }

  /** Two consecutive pages concatenate to the page that covers both. */
  lemma PagesConcatenate<T>(s: seq<T>, start: int, m: nat, n: nat)
    requires start >= 1
    ensures Page(s, start, m) + Page(s, start + m, n) == Page(s, start, m + n)
  {
    var t := Drop(s, start - 1);
    DropDrop(s, start - 1, m);
    assert Page(s, start + m, n) == Take(Drop(t, m), n);
  }

  /** Over a sequence without repetitions, two pages of at least one element that begin at
      different places differ, unless both begin past the end. */
  lemma PageDetermines<T(!new)>(s: seq<T>, a: int, b: int, number: int)
    requires Distinct(s) && 1 <= a <= b && number >= 1
    ensures Page(s, a, number) == Page(s, b, number) <==> a == b || a > |s|
  {
    if a <= |s| {
      assert Page(s, a, number)[0] == s[a - 1];
      if a < b <= |s| {
        assert Page(s, b, number)[0] == s[b - 1];
      } else if b > |s| {
        assert Page(s, b, number) == [];
      }
    }
  }
}
