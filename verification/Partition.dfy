// Splitting a history by key before checking it, and why checking the parts one by one is the
// same as checking the whole history against a store of many keys.

module Partition {
  import opened Collections
  import opened KvModel
  import opened Grouping
  import opened Sorting

  function KeyOf(op: Operation): string {
    op.input.key
  }

  // The operations on one key, in history order.
  function PartOf(h: seq<Operation>, key: string): seq<Operation> {
    Members(h, KeyOf, key)
  }

  ghost function KeysOf(h: seq<Operation>): set<string> {
    Keys(h, KeyOf)
  }

  ghost function Flatten(parts: seq<seq<Operation>>): seq<Operation> {
    if parts == [] then [] else Flatten(parts[..|parts| - 1]) + parts[|parts| - 1]
  }

  ghost predicate Ascending(keys: seq<string>) {
    forall i, j :: 0 <= i < j < |keys| ==> AtMost(keys[i], keys[j]) && keys[i] != keys[j]
  }

  // The second loop and the sort: the keys, collected in any order, come out ascending.
  method SortedKeys(s: set<string>) returns (keys: seq<string>)
    ensures Ascending(keys) && forall k :: k in keys <==> k in s
  {
    keys := [];
    var rest := s;
    while rest != {}
      invariant rest <= s
      invariant multiset(keys) + multiset(rest) == multiset(s)
      decreases rest
    {
      var k :| k in rest;
      keys := keys + [k];
      rest := rest - {k};
    }
    keys := SortBy(keys, (k: string) => k);
    SortedSet(keys, s);
  }

  method Partition(history: seq<Operation>) returns (ret: seq<seq<Operation>>, ghost keys: seq<string>)
    ensures Ascending(keys) && (forall k :: k in keys <==> k in KeysOf(history))
    ensures |ret| == |keys| && forall i :: 0 <= i < |keys| ==> ret[i] == PartOf(history, keys[i])
    ensures multiset(Flatten(ret)) == multiset(history)
  {
    var m := GroupBy(history, KeyOf);
    var ks := SortedKeys(m.Keys);
    keys := ks;
    ret := [];
    for i := 0 to |ks|
      invariant |ret| == i
      invariant forall j :: 0 <= j < i ==> ret[j] == PartOf(history, ks[j])
    {
      assert ks[i] in ks;
      ret := ret + [m[ks[i]]];
    }
    PartsPermute(history, ks, ret);
  }

  // A sorted list of a set's members has no repeats.
  lemma SortedSet(keys: seq<string>, s: set<string>)
    requires SortedBy(keys, (k: string) => k) && multiset(keys) == multiset(s)
    ensures Ascending(keys) && forall k :: k in keys <==> k in s
  {
    forall k ensures k in keys <==> k in s {
      assert k in keys <==> k in multiset(keys);
    }
    forall i, j | 0 <= i < j < |keys| ensures AtMost(keys[i], keys[j]) && keys[i] != keys[j] {
      var id := (k: string) => k;
      assert AtMost(id(keys[i]), id(keys[j]));
      assert keys == keys[..j] + [keys[j]] + keys[j + 1..];
      assert multiset(keys)[keys[j]] == multiset(keys[..j])[keys[j]] + 1 + multiset(keys[j + 1..])[keys[j]];
      assert keys[..j][i] in multiset(keys[..j]);
      assert multiset(s)[keys[j]] <= 1;
    }
  }

  // ----- The parts together are the history -----

  // The parts on all keys are a permutation of the history.
  lemma {:induction false} PartsPermute(h: seq<Operation>, keys: seq<string>, parts: seq<seq<Operation>>)
    requires Ascending(keys) && |parts| == |keys|
    requires forall i :: 0 <= i < |h| ==> h[i].input.key in keys
    requires forall i :: 0 <= i < |keys| ==> parts[i] == PartOf(h, keys[i])
    ensures multiset(Flatten(parts)) == multiset(h)
  {
    if h == [] {
      FlattenEmpty(parts);
    } else {
      var n := |h| - 1;
      var shorter := seq(|keys|, i requires 0 <= i < |keys| => PartOf(h[..n], keys[i]));
      PartsPermute(h[..n], keys, shorter);
      var at :| 0 <= at < |keys| && keys[at] == h[n].input.key;
      FlattenAdd(shorter, parts, at, h[n]);
      assert h == h[..n] + [h[n]];
    }
  }

  lemma {:induction false} FlattenEmpty(parts: seq<seq<Operation>>)
    requires forall i :: 0 <= i < |parts| ==> parts[i] == []
    ensures Flatten(parts) == []
  {
    if parts != [] { FlattenEmpty(parts[..|parts| - 1]); }
  }

  lemma {:induction false} FlattenAdd(a: seq<seq<Operation>>, b: seq<seq<Operation>>, at: nat, x: Operation)
    requires at < |a| == |b| && b[at] == a[at] + [x]
    requires forall i :: 0 <= i < |a| && i != at ==> b[i] == a[i]
    ensures multiset(Flatten(b)) == multiset(Flatten(a)) + multiset{x}
  {
    var n := |a| - 1;
    if at == n {
      assert a[..n] == b[..n];
    } else {
      FlattenAdd(a[..n], b[..n], at, x);
    }
  }

  // ----- The whole history against a store of many keys -----

  ghost function StateAt(m: map<string, KvState>, key: string): KvState {
    if key in m then m[key] else InitState
  }

  // A store that keeps a model state for every key.
  ghost function AcceptAll(h: seq<Operation>): Option<map<string, KvState>> {
    if h == [] then Some(map[])
    else
      match AcceptAll(h[..|h| - 1])
      case None => None
      case Some(m) =>
        var op := h[|h| - 1];
        match Step(StateAt(m, op.input.key), op.input, op.output)
        case None => None
        case Some(st) => Some(m[op.input.key := st])
  }

  // While the whole history is accepted, each key's part has reached that key's state; once it
  // is refused, some key's part is refused.
  lemma {:induction false} AcceptAllParts(h: seq<Operation>)
    ensures AcceptAll(h).Some? ==>
      forall key :: Accept(PartOf(h, key)) == Some(StateAt(AcceptAll(h).value, key))
    ensures AcceptAll(h).None? ==> exists key :: key in KeysOf(h) && Accept(PartOf(h, key)).None?
  {
    if h != [] {
      var n := |h| - 1;
      var key := h[n].input.key;
      assert key in KeysOf(h);
      AcceptAllParts(h[..n]);
      assert forall k :: k != key ==> PartOf(h, k) == PartOf(h[..n], k);
      var part := PartOf(h, key);
      assert part[..|part| - 1] == PartOf(h[..n], key);
      if AcceptAll(h[..n]).None? {
        var k :| k in KeysOf(h[..n]) && Accept(PartOf(h[..n], k)).None?;
        var i :| 0 <= i < n && h[..n][i].input.key == k;
        assert h[i].input.key == k && k in KeysOf(h);
        assert Accept(PartOf(h, k)).None?;
      }
    }
  }

  // A sequential history of many keys is accepted exactly when every part of it is.
  lemma {:induction false} PartitionSound(h: seq<Operation>)
    ensures AcceptAll(h).Some? <==> forall key :: key in KeysOf(h) ==> Accept(PartOf(h, key)).Some?
  {
    AcceptAllParts(h);
  }
}
