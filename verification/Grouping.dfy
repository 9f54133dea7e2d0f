// Grouping a sequence by a key: the library function the programs use, and its specification.

module Grouping {

  // The elements with key k, in order.
  function Members<T, K(==)>(s: seq<T>, key: T -> K, k: K): seq<T> {
    if s == [] then []
    else if key(s[|s| - 1]) == k then Members(s[..|s| - 1], key, k) + [s[|s| - 1]]
    else Members(s[..|s| - 1], key, k)
  }

  ghost function Keys<T, K>(s: seq<T>, key: T -> K): set<K> {
    set i | 0 <= i < |s| :: key(s[i])
  }

  method GroupBy<T, K(==)>(s: seq<T>, key: T -> K) returns (m: map<K, seq<T>>)
    ensures m.Keys == Keys(s, key)
    ensures forall k :: k in m ==> m[k] == Members(s, key, k)
  {
    m := map[];
    for n := 0 to |s|
      invariant m.Keys == Keys(s[..n], key)
      invariant forall k :: k in m ==> m[k] == Members(s[..n], key, k)
    {
      var k := key(s[n]);
      assert s[..n + 1][..n] == s[..n];
      KeysStep(s, n, key);
      if k !in m { NoMembers(s[..n], key, k); }
      m := m[k := (if k in m then m[k] else []) + [s[n]]];
    }
    assert s[..|s|] == s;
  }

  lemma KeysStep<T, K>(s: seq<T>, n: nat, key: T -> K)
    requires n < |s|
    ensures Keys(s[..n + 1], key) == Keys(s[..n], key) + {key(s[n])}
  {
    var a, b := s[..n], s[..n + 1];
    forall k | k in Keys(a, key) ensures k in Keys(b, key) {
      var i :| 0 <= i < n && key(a[i]) == k;
      assert key(b[i]) == k;
    }
    assert key(b[n]) == key(s[n]);
  }

  lemma {:induction false} NoMembers<T, K>(s: seq<T>, key: T -> K, k: K)
    requires k !in Keys(s, key)
    ensures Members(s, key, k) == []
  {
    if s != [] {
      var n := |s| - 1;
      assert s[..n + 1] == s;
      KeysStep(s, n, key);
      NoMembers(s[..n], key, k);
    }
  }

  // Each element keeps its multiplicity in the group of its key, and has none elsewhere.
  lemma {:induction false} MembersCount<T, K>(s: seq<T>, key: T -> K, k: K, x: T)
    ensures multiset(Members(s, key, k))[x] == if key(x) == k then multiset(s)[x] else 0
  {
    if s != [] {
      var n := |s| - 1;
      MembersCount(s[..n], key, k, x);
      assert s == s[..n] + [s[n]];
    }
  }
}
