// Byte-wise order on strings, and a sort that promises no more than a sorted permutation:
// elements with equal keys may come out in any order.

module Sorting {

  predicate AtMost(a: string, b: string) {
    a == [] || (b != [] && (a[0] < b[0] || (a[0] == b[0] && AtMost(a[1..], b[1..]))))
  }

  // a and b agree before position i, where a has ended or has the smaller character.
  ghost predicate SmallerAt(a: string, b: string, i: nat) {
    i <= |a| && i <= |b| && a[..i] == b[..i] && (i == |a| || (i < |b| && a[i] < b[i]))
  }

  lemma LargerFirst(a: string, b: string, i: nat)
    requires a != [] && (b == [] || b[0] < a[0])
    ensures !SmallerAt(a, b, i)
  {
    if 0 < i <= |a| && i <= |b| {
      assert a[..i][0] == a[0] && b[..i][0] == b[0];
    }
  }

  // The order of strings: a comes before b if it is the beginning of b, or has the smaller
  // character where they first differ.
  lemma {:induction false} AtMostMeans(a: string, b: string)
    ensures AtMost(a, b) <==> exists i: nat :: SmallerAt(a, b, i)
  {
    if a == [] {
      assert SmallerAt(a, b, 0);
    } else if b != [] && a[0] < b[0] {
      assert SmallerAt(a, b, 0);
    } else if b != [] && a[0] == b[0] {
      AtMostMeans(a[1..], b[1..]);
      if i: nat :| SmallerAt(a[1..], b[1..], i) {
        assert a[..i + 1] == [a[0]] + a[1..][..i] && b[..i + 1] == [b[0]] + b[1..][..i];
        assert SmallerAt(a, b, i + 1);
      }
      if i: nat :| SmallerAt(a, b, i) {
        assert i > 0 && a[1..][..i - 1] == a[..i][1..] && b[1..][..i - 1] == b[..i][1..];
        assert SmallerAt(a[1..], b[1..], i - 1);
      }
    } else {
      forall i: nat ensures !SmallerAt(a, b, i) { LargerFirst(a, b, i); }
    }
  }

  lemma {:induction false} AtMostTotal(a: string, b: string)
    ensures AtMost(a, b) || AtMost(b, a)
  {
    if a != [] && b != [] && a[0] == b[0] { AtMostTotal(a[1..], b[1..]); }
  }

  lemma {:induction false} AtMostTransitive(a: string, b: string, c: string)
    requires AtMost(a, b) && AtMost(b, c)
    ensures AtMost(a, c)
  {
    if a != [] && a[0] == b[0] == c[0] { AtMostTransitive(a[1..], b[1..], c[1..]); }
  }

  lemma {:induction false} AtMostAntisymmetric(a: string, b: string)
    requires AtMost(a, b) && AtMost(b, a)
    ensures a == b
  {
    if a != [] {
      AtMostAntisymmetric(a[1..], b[1..]);
      assert a == [a[0]] + a[1..] && b == [b[0]] + b[1..];
    }
  }

  ghost predicate SortedBy<T>(s: seq<T>, key: T -> string) {
    forall i, j :: 0 <= i < j < |s| ==> AtMost(key(s[i]), key(s[j]))
  }

  method SortBy<T>(s: seq<T>, key: T -> string) returns (r: seq<T>)
    ensures SortedBy(r, key)
    ensures multiset(r) == multiset(s)
  {
    r := [];
    for n := 0 to |s|
      invariant SortedBy(r, key) && multiset(r) == multiset(s[..n])
    {
      assert s[..n + 1] == s[..n] + [s[n]];
      r := Insert(r, s[n], key);
    }
    assert s[..|s|] == s;
  }

  method Insert<T>(s: seq<T>, x: T, key: T -> string) returns (r: seq<T>)
    requires SortedBy(s, key)
    ensures SortedBy(r, key)
    ensures multiset(r) == multiset(s) + multiset{x}
  {
    var i := 0;
    while i < |s| && AtMost(key(s[i]), key(x))
      invariant 0 <= i <= |s|
      invariant forall j :: 0 <= j < i ==> AtMost(key(s[j]), key(x))
    {
      i := i + 1;
    }
    r := s[..i] + [x] + s[i..];
    forall j | i <= j < |s| ensures AtMost(key(x), key(s[j])) {
      AtMostTotal(key(s[i]), key(x));
      if j > i { AtMostTransitive(key(x), key(s[i]), key(s[j])); }
    }
    InsertedAt(s, i, x, key);
  }

  lemma InsertedAt<T>(s: seq<T>, i: nat, x: T, key: T -> string)
    requires SortedBy(s, key) && i <= |s|
    requires forall j :: 0 <= j < i ==> AtMost(key(s[j]), key(x))
    requires forall j :: i <= j < |s| ==> AtMost(key(x), key(s[j]))
    ensures SortedBy(s[..i] + [x] + s[i..], key)
    ensures multiset(s[..i] + [x] + s[i..]) == multiset(s) + multiset{x}
  {
    var r := s[..i] + [x] + s[i..];
    assert s == s[..i] + s[i..];
    forall j, k | 0 <= j < k < |r| ensures AtMost(key(r[j]), key(r[k])) {
      assert j < i ==> r[j] == s[j];
      assert j > i ==> r[j] == s[j - 1];
      assert k < i ==> r[k] == s[k];
      assert k > i ==> r[k] == s[k - 1];
    }
  }
}
