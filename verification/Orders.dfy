/** Strict total orders: the comparison behind Python's `sorted`, `max` and `str` ordering. */
module Orders {

  ghost predicate StrictTotal<T(!new)>(lt: (T, T) -> bool) {
    && (forall x :: !lt(x, x))
    && (forall x, y :: x == y || lt(x, y) || lt(y, x))
    && (forall x, y, z :: lt(x, y) && lt(y, z) ==> lt(x, z))
  }

  /** Code-point order on strings. */
  predicate StringLess(a: string, b: string) {
    b != "" && (a == "" || a[0] < b[0] || (a[0] == b[0] && StringLess(a[1..], b[1..])))
  }

  /** The strings agree before `k`; there `a` has ended, or has the smaller character. */
  predicate SmallerAt(a: string, b: string, k: int) {
    0 <= k <= |a| && k < |b| && a[..k] == b[..k] && (k == |a| || a[k] < b[k])
  }

  lemma SmallerBehind(a: string, b: string, k: int)
    requires a != "" && b != "" && a[0] == b[0] && 0 <= k
    ensures SmallerAt(a[1..], b[1..], k) <==> SmallerAt(a, b, k + 1)
  {
    if k + 1 <= |a| && k + 1 <= |b| {
      assert a[..k + 1] == [a[0]] + a[1..][..k] && b[..k + 1] == [b[0]] + b[1..][..k];
      assert a[1..][..k] == a[..k + 1][1..] && b[1..][..k] == b[..k + 1][1..];
    }
  }

  /** The order is decided at the first place where the strings differ. */
  lemma {:induction false} StringLessIff(a: string, b: string)
    ensures StringLess(a, b) <==> exists k :: SmallerAt(a, b, k)
  {
    if a == "" || b == "" || a[0] != b[0] {
      if b != "" && (a == "" || a[0] < b[0]) { assert SmallerAt(a, b, 0); }
      if k :| SmallerAt(a, b, k) { assert k > 0 ==> a[..k][0] == b[..k][0]; }
    } else {
      StringLessIff(a[1..], b[1..]);
      if k :| SmallerAt(a[1..], b[1..], k) { SmallerBehind(a, b, k); }
      if k :| SmallerAt(a, b, k) {
        assert k > 0;
        SmallerBehind(a, b, k - 1);
      }
    }
  }

  lemma {:induction false} StringLessIrreflexive(a: string)
    ensures !StringLess(a, a)
  {
    if a != "" { StringLessIrreflexive(a[1..]); }
  }

  lemma {:induction false} StringLessConnected(a: string, b: string)
    ensures a == b || StringLess(a, b) || StringLess(b, a)
  {
    if a != "" && b != "" && a[0] == b[0] {
      StringLessConnected(a[1..], b[1..]);
      assert a == [a[0]] + a[1..] && b == [b[0]] + b[1..];
    }
  }

  lemma {:induction false} StringLessTransitive(a: string, b: string, c: string)
    requires StringLess(a, b) && StringLess(b, c)
    ensures StringLess(a, c)
  {
    if a != "" && a[0] == b[0] && b[0] == c[0] {
      StringLessTransitive(a[1..], b[1..], c[1..]);
    }
  }

  lemma StringOrder()
    ensures StrictTotal(StringLess)
  {
    forall x: string ensures !StringLess(x, x) { StringLessIrreflexive(x); }
    forall x: string, y: string ensures x == y || StringLess(x, y) || StringLess(y, x) { StringLessConnected(x, y); }
    forall x: string, y: string, z: string | StringLess(x, y) && StringLess(y, z) ensures StringLess(x, z) {
      StringLessTransitive(x, y, z);
    }
  }

  /** Order of a pair whose components are compared left to right. */
  predicate PairLess(a: (string, string), b: (string, string)) {
    StringLess(a.0, b.0) || (a.0 == b.0 && StringLess(a.1, b.1))
  }

  lemma PairOrder()
    ensures StrictTotal(PairLess)
  {
    StringOrder();
  }

  predicate Ascending<T>(lt: (T, T) -> bool, s: seq<T>) {
    forall i, j :: 0 <= i < j < |s| ==> lt(s[i], s[j])
  }

  lemma LeastFirst<T(!new)>(lt: (T, T) -> bool, s: seq<T>, x: T)
    requires Ascending(lt, s) && x in s
    ensures x == s[0] || lt(s[0], x)
  {
  }

  /** `sorted` has one answer: a set has only one ascending listing. */
  lemma {:induction false} AscendingUnique<T(!new)>(lt: (T, T) -> bool, s: seq<T>, t: seq<T>)
    requires StrictTotal(lt) && Ascending(lt, s) && Ascending(lt, t)
    requires forall x :: x in s <==> x in t
    ensures s == t
  {
    if t != [] { assert t[0] in s; }
    if s != [] {
      assert s[0] in t;
      LeastFirst(lt, s, t[0]);
      LeastFirst(lt, t, s[0]);
      forall x ensures x in s[1..] <==> x in t[1..] {
        if x in s[1..] { assert x in t; assert x != s[0]; }
        if x in t[1..] { assert x in s; assert x != t[0]; }
      }
      AscendingUnique(lt, s[1..], t[1..]);
      assert s == [s[0]] + s[1..] && t == [t[0]] + t[1..];
    }
  }

  /** `sorted` over a set, as insertion into an ascending list. */
  method Sort<T(==,!new)>(lt: (T, T) -> bool, items: set<T>) returns (sorted: seq<T>)
    requires StrictTotal(lt)
    ensures Ascending(lt, sorted)
    ensures forall x :: x in sorted <==> x in items
  {
    sorted := [];
    var rest := items;
    while rest != {}
      invariant rest <= items
      invariant Ascending(lt, sorted)
      invariant forall x :: x in sorted <==> x in items && x !in rest
      decreases rest
    {
      var x :| x in rest;
      rest := rest - {x};
      var i := 0;
      while i < |sorted| && lt(sorted[i], x)
        invariant 0 <= i <= |sorted|
        invariant forall j :: 0 <= j < i ==> lt(sorted[j], x)
      {
        i := i + 1;
      }
      assert i < |sorted| ==> sorted[i] != x;
      sorted := Inserted(lt, sorted, i, x);
    }
  }

  function Inserted<T(!new)>(lt: (T, T) -> bool, s: seq<T>, i: nat, x: T): (r: seq<T>)
    requires StrictTotal(lt) && Ascending(lt, s) && i <= |s|
    requires forall j :: 0 <= j < i ==> lt(s[j], x)
    requires i < |s| ==> lt(x, s[i])
    ensures Ascending(lt, r)
    ensures forall y :: y in r <==> y in s || y == x
  {
    var r := s[..i] + [x] + s[i..];
    assert forall j :: i <= j < |s| ==> lt(x, s[j]);
    assert forall y :: y in s <==> y in s[..i] || y in s[i..] by { assert s == s[..i] + s[i..]; }
    r
  }
}
