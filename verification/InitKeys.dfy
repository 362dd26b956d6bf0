/** The order of the Init requests that decides which sessions share a backend class: memcmp2 of
    src/util.cpp:134-152 and InitKey of src/filter_session_shared.cpp:284-303. */
module InitKeys {
  import opened Ordering

  /** memcmp over the first n bytes. */
  method Memcmp(a: string, b: string, n: nat) returns (c: int)
    requires n <= |a| && n <= |b|
    ensures c < 0 <==> Less(a[..n], b[..n])
    ensures c > 0 <==> Less(b[..n], a[..n])
    ensures c == 0 <==> a[..n] == b[..n]
  {
    var i: nat := 0;
    LessIsStrictTotal(a[..n], b[..n]);
    while i < n
      invariant i <= n && a[..i] == b[..i]
    {
      if a[i] != b[i] {
        assert a[..n][..i] == a[..i] && b[..n][..i] == b[..i];
        DifferenceDecides(a[..n], b[..n], i);
        return if a[i] < b[i] then -1 else 1;
      }
      assert a[..i + 1] == a[..i] + [a[i]] && b[..i + 1] == b[..i] + [b[i]];
      i := i + 1;
    }
    return 0;
  }

  /** The first difference is at k. */
  ghost predicate DiffersAt(a: string, b: string, k: nat) {
    k < |a| && k < |b| && a[..k] == b[..k] && a[k] != b[k]
  }

  lemma {:induction false} DifferenceDecides(a: string, b: string, k: nat)
    requires DiffersAt(a, b, k)
    ensures Less(a, b) <==> a[k] < b[k]
    decreases k
  {
    if k > 0 {
      assert a[..k][0] == b[..k][0];
      assert a[1..][..k - 1] == a[..k][1..] && b[1..][..k - 1] == b[..k][1..];
      DifferenceDecides(a[1..], b[1..], k - 1);
    }
  }

  lemma {:induction false} PrefixDecides(a: string, b: string)
    requires a <= b
    ensures Less(a, b) <==> |a| < |b|
    ensures !Less(b, a)
  {
    if a != [] {
      assert a[0] == b[..|a|][0] && a[1..] == b[1..][..|a| - 1];
      PrefixDecides(a[1..], b[1..]);
    }
  }

  /** Byte strings are decided by prefixes of one length that differ. */
  lemma {:induction false} PrefixesDecide(a: string, b: string, n: nat)
    requires n <= |a| && n <= |b| && Less(a[..n], b[..n])
    ensures Less(a, b)
    decreases n
  {
    if a[0] == b[0] {
      assert a[..n][1..] == a[1..][..n - 1] && b[..n][1..] == b[1..][..n - 1];
      PrefixesDecide(a[1..], b[1..], n - 1);
    }
  }

  /** The sign of the comparison is the order of the byte strings. */
  method Memcmp2(a: string, b: string) returns (c: int)
    ensures c < 0 <==> Less(a, b)
    ensures c > 0 <==> Less(b, a)
    ensures c == 0 <==> a == b
  {
    hide Less;
    LessIsStrictTotal(a, b);
    var d := |a| - |b|;
    var n := if d > 0 then |b| else |a|;
    var m := Memcmp(a, b, n);
    if m > 0 {
      PrefixesDecide(b, a, n);
      return 1;
    } else if m < 0 {
      PrefixesDecide(a, b, n);
      return -1;
    }
    if d > 0 {
      PrefixDecides(b, a);
      return 1;
    } else if d < 0 {
      PrefixDecides(a, b);
      return -1;
    }
    return 0;
  }

  /** The encoded parts of an Init request that tell backend classes apart. */
  datatype InitKey = InitKey(idAuthentication: string, otherInfo: string)

  predicate KeyLess(x: InitKey, y: InitKey) {
    Less(x.idAuthentication, y.idAuthentication) || (x.idAuthentication == y.idAuthentication && Less(x.otherInfo, y.otherInfo))
  }

  method LessThan(x: InitKey, y: InitKey) returns (less: bool)
    ensures less == KeyLess(x, y)
  {
    LessIsStrictTotal(x.idAuthentication, y.idAuthentication);
    var c := Memcmp2(x.idAuthentication, y.idAuthentication);
    if c < 0 {
      return true;
    } else if c > 0 {
      return false;
    }
    c := Memcmp2(x.otherInfo, y.otherInfo);
    return c < 0;
  }

  /** Two sessions fall into the same class exactly when their Inits carry the same authentication and
      the same other information; and the order is one a map can use. */
  lemma KeyLessIsStrictTotal(x: InitKey, y: InitKey, z: InitKey)
    ensures !KeyLess(x, y) && !KeyLess(y, x) <==> x == y
    ensures !(KeyLess(x, y) && KeyLess(y, x))
    ensures KeyLess(x, y) && KeyLess(y, z) ==> KeyLess(x, z)
  {
    hide Less;
    LessIsStrictTotal(x.idAuthentication, y.idAuthentication);
    LessIsStrictTotal(x.otherInfo, y.otherInfo);
    if Less(x.idAuthentication, y.idAuthentication) && Less(y.idAuthentication, z.idAuthentication) {
      LessTransitive(x.idAuthentication, y.idAuthentication, z.idAuthentication);
    }
    if Less(x.otherInfo, y.otherInfo) && Less(y.otherInfo, z.otherInfo) {
      LessTransitive(x.otherInfo, y.otherInfo, z.otherInfo);
    }
  }
}
