// Rebalancing moves as few shards as any balanced assignment to the same groups could,
// and from a balanced start it moves only what a join or a leave forces it to move.

module ShardOptimality {
  import opened Collections
  import opened ShardAssignment

  // Shards that are on group g in both assignments.
  ghost function Kept(a: seq<int>, b: seq<int>, g: int): nat
    requires |a| == |b|
  {
    if a == [] then 0
    else Kept(a[..|a| - 1], b[..|b| - 1], g) + (if a[|a| - 1] == b[|b| - 1] == g then 1 else 0)
  }

  // The shards kept by all the groups listed in gs.
  ghost function KeptBy(gs: seq<int>, a: seq<int>, b: seq<int>): nat
    requires |a| == |b|
  {
    if gs == [] then 0 else KeptBy(gs[1..], a, b) + Kept(a, b, gs[0])
  }

  // order lists the members of gs, each once.
  ghost predicate Lists(order: seq<int>, gs: set<int>) {
    Distinct(order) && forall g :: g in gs <==> g in order
  }

  ghost predicate OnList(a: seq<int>, order: seq<int>) {
    forall s :: 0 <= s < |a| ==> a[s] in order
  }

  lemma ValidOnList(a: seq<int>, gs: set<int>, order: seq<int>)
    requires Lists(order, gs) && Valid(a, gs)
    ensures OnList(a, order)
  {
    forall s | 0 <= s < |a| ensures a[s] in order {
      var g := a[s];
      assert g in gs;
    }
  }

  lemma {:induction false} ListExists(gs: set<int>) returns (order: seq<int>)
    ensures Lists(order, gs)
    decreases |gs|
  {
    if gs == {} {
      order := [];
    } else {
      var g := Member(gs);
      var rest := ListExists(gs - {g});
      order := [g] + rest;
    }
  }

  lemma {:induction false} KeptSelf(a: seq<int>, g: int)
    ensures Kept(a, a, g) == Count(a, g)
  {
    if a != [] { KeptSelf(a[..|a| - 1], g); }
  }

  // A group keeps no more than it had and no more than it ends with.
  lemma {:induction false} KeptAtMost(a: seq<int>, b: seq<int>, g: int)
    requires |a| == |b|
    ensures Kept(a, b, g) <= Count(a, g) && Kept(a, b, g) <= Count(b, g)
  {
    if a != [] { KeptAtMost(a[..|a| - 1], b[..|b| - 1], g); }
  }

  // A group that lost no shard keeps all it had; one that received none keeps all it has.
  lemma {:induction false} KeptAll(a: seq<int>, b: seq<int>, g: int)
    requires |a| == |b|
    ensures (forall s :: 0 <= s < |a| && a[s] == g ==> b[s] == g) ==> Kept(a, b, g) == Count(a, g)
    ensures (forall s :: 0 <= s < |a| && b[s] == g ==> a[s] == g) ==> Kept(a, b, g) == Count(b, g)
  {
    if a != [] { KeptAll(a[..|a| - 1], b[..|b| - 1], g); }
  }

  lemma {:induction false} KeptByStep(gs: seq<int>, a: seq<int>, b: seq<int>)
    requires |a| == |b| > 0
    ensures var n := |a| - 1;
      KeptBy(gs, a, b) >= KeptBy(gs, a[..n], b[..n])
    ensures var n := |a| - 1;
      a[n] != b[n] || b[n] !in gs ==> KeptBy(gs, a, b) == KeptBy(gs, a[..n], b[..n])
    ensures var n := |a| - 1;
      Distinct(gs) && a[n] == b[n] && b[n] in gs ==> KeptBy(gs, a, b) == KeptBy(gs, a[..n], b[..n]) + 1
  {
    if gs != [] {
      KeptByStep(gs[1..], a, b);
      assert forall g :: g in gs <==> g == gs[0] || g in gs[1..];
    }
  }

  // Over all the groups of b, the kept shards are exactly the unchanged ones.
  lemma {:induction false} KeptByAll(gs: seq<int>, a: seq<int>, b: seq<int>)
    requires |a| == |b| && Distinct(gs)
    requires OnList(b, gs)
    ensures KeptBy(gs, a, b) == |a| - Changed(a, b)
  {
    if a == [] {
      KeptByEmpty(gs);
    } else {
      var n := |a| - 1;
      KeptByAll(gs, a[..n], b[..n]);
      KeptByStep(gs, a, b);
    }
  }

  lemma {:induction false} KeptByEmpty(gs: seq<int>)
    ensures KeptBy(gs, [], []) == 0
  {
    if gs != [] { KeptByEmpty(gs[1..]); }
  }

  // All the shards, summed group by group.
  ghost function Total(gs: seq<int>, a: seq<int>): nat {
    if gs == [] then 0 else Total(gs[1..], a) + Count(a, gs[0])
  }

  lemma {:induction false} TotalIsLength(gs: seq<int>, a: seq<int>)
    requires Distinct(gs) && OnList(a, gs)
    ensures Total(gs, a) == |a|
  {
    TotalIsKept(gs, a);
    KeptByAll(gs, a, a);
    ChangedSelf(a);
  }

  lemma {:induction false} TotalIsKept(gs: seq<int>, a: seq<int>)
    ensures Total(gs, a) == KeptBy(gs, a, a)
  {
    if gs != [] {
      KeptSelf(a, gs[0]);
      TotalIsKept(gs[1..], a);
    }
  }

  // If every load of b is at least that of a, and one is more, b has more shards.
  lemma {:induction false} TotalLess(gs: seq<int>, a: seq<int>, b: seq<int>)
    requires forall g :: g in gs ==> Count(a, g) <= Count(b, g)
    ensures Total(gs, a) <= Total(gs, b)
    ensures (exists g :: g in gs && Count(a, g) < Count(b, g)) ==> Total(gs, a) < Total(gs, b)
  {
    if gs != [] {
      TotalLess(gs[1..], a, b);
      assert forall g :: g in gs <==> g == gs[0] || g in gs[1..];
    }
  }

  // Comparing two assignments group by group compares the shards they keep of a0; when
  // `trade` is set, a group may keep one less for each unit of load it ends below.
  lemma {:induction false} KeptCompare(gs: seq<int>, a0: seq<int>, a: seq<int>, b: seq<int>, trade: bool)
    requires |a0| == |a| == |b|
    requires var t := if trade then 1 else 0;
      forall g :: g in gs ==> Kept(a0, b, g) + t * Count(a, g) <= Kept(a0, a, g) + t * Count(b, g)
    ensures var t := if trade then 1 else 0;
      KeptBy(gs, a0, b) + t * Total(gs, a) <= KeptBy(gs, a0, a) + t * Total(gs, b)
  {
    if gs != [] { KeptCompare(gs[1..], a0, a, b, trade); }
  }

  // The smallest load q of one balanced assignment is reached from above by any other
  // assignment of the same shards: not every group can exceed q.
  lemma {:induction false} NotAllAbove(order: seq<int>, a: seq<int>, b: seq<int>, g: int)
    requires Distinct(order) && |a| == |b| && g in order
    requires OnList(a, order) && OnList(b, order)
    requires forall h :: h in order ==> Count(a, h) <= Count(a, g) + 1
    ensures exists h :: h in order && Count(b, h) <= Count(a, g)
  {
    TotalIsLength(order, a);
    TotalIsLength(order, b);
    if !exists h :: h in order && Count(b, h) <= Count(a, g) {
      TotalLess(order, a, b);
      assert false;
    }
  }

  lemma {:induction false} FairKeeps(a0: seq<int>, a: seq<int>, gs: set<int>, g: int)
    requires g in gs && Valid(a, gs) && MovesExplained(a0, a, gs)
    ensures Kept(a0, a, g) == if Count(a, g) < Count(a0, g) then Count(a, g) else Count(a0, g)
  {
    KeptAll(a0, a, g);
    if Gave(a0, a, g) {
      assert forall s :: 0 <= s < |a| && a[s] == g ==> a0[s] == g;
    } else {
      assert forall s :: 0 <= s < |a| && a0[s] == g ==> a[s] == g;
    }
    KeptAtMost(a0, a, g);
  }

  // Every load of a and b is q or q + 1. If some group gave and is left with q, then no group
  // that did not hold q + 1 before ends with it, and each group keeps at least as much in a as
  // in b once its final load is traded off; if no group did, it keeps at least as much outright.
  lemma {:induction false} KeepsAsMuch(a0: seq<int>, a: seq<int>, b: seq<int>, gs: set<int>, g: int, q: nat, trade: bool)
    requires |a0| == |b| && g in gs && Valid(a, gs) && Progress(a0, a, gs)
    requires q <= Count(a, g) <= q + 1 && q <= Count(b, g) <= q + 1
    requires trade <==> exists h :: h in gs && Gave(a0, a, h) && Count(a, h) == q
    ensures var t := if trade then 1 else 0;
      Kept(a0, b, g) + t * Count(a, g) <= Kept(a0, a, g) + t * Count(b, g)
  {
    FairKeeps(a0, a, gs, g);
    KeptAtMost(a0, b, g);
    if trade && Got(a0, a, g) {
      var h :| h in gs && Gave(a0, a, h) && Count(a, h) == q;
      assert Count(a, g) <= Count(a, h);
    }
  }

  // Two balanced assignments of the same shards have their loads in the same pair q, q + 1.
  lemma SharedFloor(order: seq<int>, gs: set<int>, a: seq<int>, b: seq<int>) returns (q: nat)
    requires gs != {} && Lists(order, gs) && |a| == |b|
    requires Valid(a, gs) && Balanced(a, gs) && Valid(b, gs) && Balanced(b, gs)
    ensures forall g :: g in gs ==> q <= Count(a, g) <= q + 1 && q <= Count(b, g) <= q + 1
  {
    var low, low' := Least(a, gs), Least(b, gs);
    q := Count(a, low);
    ValidOnList(a, gs, order);
    ValidOnList(b, gs, order);
    NotAllAbove(order, a, b, low);
    NotAllAbove(order, b, a, low');
    assert Count(b, low') == q;
  }

  lemma {:induction false} FairKeepsMost(order: seq<int>, gs: set<int>, a0: seq<int>, a: seq<int>, b: seq<int>, q: nat)
    requires Lists(order, gs) && |a0| == |b|
    requires Valid(a, gs) && Valid(b, gs) && Progress(a0, a, gs)
    requires forall g :: g in gs ==> q <= Count(a, g) <= q + 1 && q <= Count(b, g) <= q + 1
    ensures KeptBy(order, a0, b) <= KeptBy(order, a0, a)
  {
    var trade := exists g :: g in gs && Gave(a0, a, g) && Count(a, g) == q;
    forall g | g in order
      ensures var t := if trade then 1 else 0;
        Kept(a0, b, g) + t * Count(a, g) <= Kept(a0, a, g) + t * Count(b, g)
    {
      KeepsAsMuch(a0, a, b, gs, g, q, trade);
    }
    KeptCompare(order, a0, a, b, trade);
    ValidOnList(a, gs, order);
    ValidOnList(b, gs, order);
    TotalIsLength(order, a);
    TotalIsLength(order, b);
  }

  // A valid, balanced assignment reached by explained, fair moves changes as few shards as any.
  lemma {:induction false} FairIsOptimal(a0: seq<int>, a: seq<int>, b: seq<int>, gs: set<int>)
    requires gs != {} && |a0| == |b|
    requires Valid(a, gs) && Balanced(a, gs) && Progress(a0, a, gs)
    requires Valid(b, gs) && Balanced(b, gs)
    ensures Changed(a0, a) <= Changed(a0, b)
  {
    var order := ListExists(gs);
    var q := SharedFloor(order, gs, a, b);
    FairKeepsMost(order, gs, a0, a, b, q);
    ValidOnList(a, gs, order);
    ValidOnList(b, gs, order);
    KeptByAll(order, a0, a);
    KeptByAll(order, a0, b);
  }

  // No balanced assignment to the same groups changes fewer shards.
  lemma {:induction false} RebalanceIsOptimal(a: seq<int>, gs: set<int>, b: seq<int>)
    requires gs != {} && |a| == |b| && Valid(b, gs) && Balanced(b, gs)
    ensures |Rebalanced(a, gs)| == |a|
    ensures Changed(a, Rebalanced(a, gs)) <= Changed(a, b)
  {
    RebalancedIsFair(a, gs);
    FairIsOptimal(a, Rebalanced(a, gs), b, gs);
  }

  // No group both receives and gives a shard.
  lemma NoGroupReceivesAndGives(a: seq<int>, gs: set<int>, s: int, t: int)
    requires gs != {} && 0 <= s < |a| && 0 <= t < |a|
    ensures var b := Rebalanced(a, gs);
      |b| == |a| && (b[s] != a[s] && b[t] != a[t] ==> b[s] != a[t])
  {
    RebalancedIsFair(a, gs);
  }

  // An assignment that is already valid and balanced is left as it is.
  lemma BalancedIsFixed(a: seq<int>, gs: set<int>)
    requires gs != {} && Valid(a, gs) && Balanced(a, gs)
    ensures Rebalanced(a, gs) == a
  {
    PlacedFixed(a, gs, 0);
  }

  lemma {:induction false} PlacedFixed(a: seq<int>, gs: set<int>, s: nat)
    requires gs != {} && Valid(a, gs) && s <= |a|
    ensures Placed(a, gs, s) == a
    decreases |a| - s
  {
    if s < |a| { PlacedFixed(a, gs, s + 1); }
  }

  // From a balanced start, joining groups only draws shards onto the new ones.
  lemma JoinIsLocal(a: seq<int>, gs: set<int>, joined: set<int>, s: int)
    requires gs !! joined && gs != {} && Valid(a, gs) && Balanced(a, gs)
    requires 0 <= s < |a|
    ensures var b := Rebalanced(a, gs + joined); |b| == |a| && (b[s] != a[s] ==> b[s] in joined)
  {
    RebalancedIsFair(a, gs + joined);
  }

  // From a balanced start, a leave that keeps some group only moves the departed groups' shards.
  lemma LeaveIsLocal(a: seq<int>, gs: set<int>, left: set<int>, s: int)
    requires gs - left != {} && Valid(a, gs) && Balanced(a, gs)
    requires 0 <= s < |a|
    ensures var b := Rebalanced(a, gs - left); |b| == |a| && (b[s] != a[s] ==> a[s] in left)
  {
    RebalancedIsFair(a, gs - left);
  }
}
