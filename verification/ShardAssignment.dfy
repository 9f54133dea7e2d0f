// Shard assignments as values: the loads, the two extreme groups, and the result
// that rebalancing is specified to reach.

module ShardAssignment {
  import opened Collections

  // Number of shards that assignment a gives to group g.
  function Count(a: seq<int>, g: int): (n: nat)
    ensures n <= |a|
  {
    if a == [] then 0
    else Count(a[..|a| - 1], g) + (if a[|a| - 1] == g then 1 else 0)
  }

  // Number of shards on which two assignments differ.
  function Changed(a: seq<int>, b: seq<int>): nat
    requires |a| == |b|
  {
    if a == [] then 0
    else Changed(a[..|a| - 1], b[..|b| - 1]) + (if a[|a| - 1] != b[|b| - 1] then 1 else 0)
  }

  // The least loaded group; of several, the one with the smallest id.
  ghost predicate IsLeast(a: seq<int>, gs: set<int>, g: int) {
    g in gs && forall h :: h in gs ==> Count(a, g) < Count(a, h) || (Count(a, g) == Count(a, h) && g <= h)
  }

  // The most loaded group; of several, the one with the smallest id.
  ghost predicate IsMost(a: seq<int>, gs: set<int>, g: int) {
    g in gs && forall h :: h in gs ==> Count(a, g) > Count(a, h) || (Count(a, g) == Count(a, h) && g <= h)
  }

  // Every shard is on a member group.
  ghost predicate Valid(a: seq<int>, gs: set<int>) {
    forall s :: 0 <= s < |a| ==> a[s] in gs
  }

  // The loads of two member groups differ by at most one.
  ghost predicate Balanced(a: seq<int>, gs: set<int>) {
    forall g, h :: g in gs && h in gs ==> Count(a, g) <= Count(a, h) + 1
  }

  // The first shard on group g, at or after shard s.
  ghost predicate IsFirst(a: seq<int>, g: int, s: int) {
    0 <= s < |a| && a[s] == g && forall t :: 0 <= t < s ==> a[t] != g
  }

  lemma {:induction false} LeastExists(a: seq<int>, gs: set<int>)
    requires gs != {}
    ensures exists g :: IsLeast(a, gs, g)
    decreases |gs|
  {
    var x := Member(gs);
    var rest := gs - {x};
    if rest == {} {
      assert gs == {x};
      assert IsLeast(a, gs, x);
    } else {
      LeastExists(a, rest);
      var g :| IsLeast(a, rest, g);
      assert forall h :: h in gs ==> h == x || h in rest;
      assert IsLeast(a, gs, x) || IsLeast(a, gs, g);
    }
  }

  lemma {:induction false} MostExists(a: seq<int>, gs: set<int>)
    requires gs != {}
    ensures exists g :: IsMost(a, gs, g)
    decreases |gs|
  {
    var x := Member(gs);
    var rest := gs - {x};
    if rest == {} {
      assert gs == {x};
      assert IsMost(a, gs, x);
    } else {
      MostExists(a, rest);
      var g :| IsMost(a, rest, g);
      assert forall h :: h in gs ==> h == x || h in rest;
      assert IsMost(a, gs, x) || IsMost(a, gs, g);
    }
  }

  ghost function Least(a: seq<int>, gs: set<int>): (g: int)
    requires gs != {}
    ensures IsLeast(a, gs, g)
  {
    LeastExists(a, gs);
    var g :| IsLeast(a, gs, g);
    g
  }

  ghost function Most(a: seq<int>, gs: set<int>): (g: int)
    requires gs != {}
    ensures IsMost(a, gs, g)
  {
    MostExists(a, gs);
    var g :| IsMost(a, gs, g);
    g
  }

  // A group with shards has a first shard.
  lemma {:induction false} FirstExists(a: seq<int>, g: int)
    requires Count(a, g) > 0
    ensures exists s :: IsFirst(a, g, s)
  {
    var b := a[..|a| - 1];
    if Count(b, g) > 0 {
      FirstExists(b, g);
      var s :| IsFirst(b, g, s);
      assert IsFirst(a, g, s);
    } else {
      forall t | 0 <= t < |b| ensures b[t] != g {
        if b[t] == g { CountPositive(b, t); }
      }
      assert IsFirst(a, g, |a| - 1);
    }
  }

  lemma {:induction false} CountPositive(a: seq<int>, s: int)
    requires 0 <= s < |a|
    ensures Count(a, a[s]) > 0
  {
    if s < |a| - 1 { CountPositive(a[..|a| - 1], s); }
  }

  ghost function First(a: seq<int>, g: int): (s: int)
    requires Count(a, g) > 0
    ensures IsFirst(a, g, s)
  {
    FirstExists(a, g);
    var s :| IsFirst(a, g, s);
    s
  }

  // Putting one shard on another group moves one unit of load.
  lemma {:induction false} CountUpdate(a: seq<int>, s: int, h: int, g: int)
    requires 0 <= s < |a|
    ensures Count(a[s := h], g) == Count(a, g) - (if a[s] == g then 1 else 0) + (if h == g then 1 else 0)
  {
    var n := |a| - 1;
    var b := a[s := h];
    if s == n {
      assert b[..n] == a[..n];
    } else {
      assert b[..n] == a[..n][s := h];
      CountUpdate(a[..n], s, h, g);
    }
  }

  // ----- The sum of squared loads, taken shard by shard -----

  ghost function LoadSum(p: seq<int>, a: seq<int>): nat {
    if p == [] then 0 else LoadSum(p[..|p| - 1], a) + Count(a, p[|p| - 1])
  }

  lemma {:induction false} LoadSumValue(p: seq<int>, a: seq<int>, s: int, h: int)
    requires 0 <= s < |a|
    ensures LoadSum(p, a[s := h]) == LoadSum(p, a) - Count(p, a[s]) + Count(p, h)
  {
    if p != [] {
      LoadSumValue(p[..|p| - 1], a, s, h);
      CountUpdate(a, s, h, p[|p| - 1]);
    }
  }

  lemma {:induction false} LoadSumIndex(p: seq<int>, s: int, h: int, a: seq<int>)
    requires 0 <= s < |p|
    ensures LoadSum(p[s := h], a) == LoadSum(p, a) - Count(a, p[s]) + Count(a, h)
  {
    var n := |p| - 1;
    var q := p[s := h];
    if s == n {
      assert q[..n] == p[..n];
    } else {
      assert q[..n] == p[..n][s := h];
      LoadSumIndex(p[..n], s, h, a);
    }
  }

  // Moving a shard to a group that is at least two behind lowers the sum of squared loads.
  lemma {:induction false} MoveLowersLoadSum(a: seq<int>, s: int, h: int)
    requires 0 <= s < |a| && Count(a, a[s]) >= Count(a, h) + 2
    ensures LoadSum(a[s := h], a[s := h]) < LoadSum(a, a)
  {
    var b := a[s := h];
    LoadSumIndex(a, s, h, b);
    LoadSumValue(a, a, s, h);
    CountUpdate(a, s, h, a[s]);
    CountUpdate(a, s, h, h);
  }

  // ----- The specified result -----

  // Shards s and later that are on no member group go to the least loaded group, in order.
  ghost function Placed(a: seq<int>, gs: set<int>, s: nat): (r: seq<int>)
    requires gs != {} && s <= |a|
    ensures |r| == |a|
    decreases |a| - s
  {
    if s == |a| then a
    else if a[s] in gs then Placed(a, gs, s + 1)
    else Placed(a[s := Least(a, gs)], gs, s + 1)
  }

  ghost predicate Lopsided(a: seq<int>, gs: set<int>)
    requires gs != {}
  {
    Count(a, Most(a, gs)) >= Count(a, Least(a, gs)) + 2
  }

  // One move: the first shard of the most loaded group goes to the least loaded one.
  ghost function Moved(a: seq<int>, gs: set<int>): seq<int>
    requires gs != {} && Lopsided(a, gs)
  {
    a[First(a, Most(a, gs)) := Least(a, gs)]
  }

  ghost function Settled(a: seq<int>, gs: set<int>): seq<int>
    requires gs != {}
    decreases LoadSum(a, a)
  {
    if !Lopsided(a, gs) then a
    else
      MoveLowersLoadSum(a, First(a, Most(a, gs)), Least(a, gs));
      Settled(Moved(a, gs), gs)
  }

  // The assignment that rebalancing a over the groups gs reaches.
  ghost function Rebalanced(a: seq<int>, gs: set<int>): seq<int> {
    if gs == {} then seq(|a|, _ => 0) else Settled(Placed(a, gs, 0), gs)
  }

  // ----- What every step keeps -----

  ghost predicate Got(a0: seq<int>, a: seq<int>, g: int) { Count(a, g) > Count(a0, g) }

  ghost predicate Gave(a0: seq<int>, a: seq<int>, g: int) { Count(a, g) < Count(a0, g) }

  // A shard that moved went to a group that gained load, away from one that lost load.
  ghost predicate MovesExplained(a0: seq<int>, a: seq<int>, gs: set<int>) {
    && |a| == |a0|
    && (forall s :: 0 <= s < |a| && a[s] != a0[s] ==>
          a[s] in gs && Got(a0, a, a[s]) && (a0[s] in gs ==> Gave(a0, a, a0[s])))
  }

  // Groups that gained stay at most one above everyone, groups that lost at most one
  // below everyone, and no group that gained ends above one that lost.
  ghost predicate Fair(a0: seq<int>, a: seq<int>, gs: set<int>) {
    && (forall g, h :: g in gs && h in gs && Got(a0, a, h) ==> Count(a, h) <= Count(a, g) + 1)
    && (forall g, h :: g in gs && h in gs && Gave(a0, a, g) ==> Count(a, h) <= Count(a, g) + 1)
    && (forall g, h :: g in gs && h in gs && Gave(a0, a, g) && Got(a0, a, h) ==> Count(a, h) <= Count(a, g))
  }

  ghost predicate Progress(a0: seq<int>, a: seq<int>, gs: set<int>) {
    MovesExplained(a0, a, gs) && Fair(a0, a, gs)
  }

  // Nothing has been taken from a member group, and from shard s on nothing has changed.
  ghost predicate OnlyPlaced(a0: seq<int>, a: seq<int>, gs: set<int>, s: nat) {
    && |a| == |a0|
    && (forall t :: s <= t < |a| ==> a[t] == a0[t])
    && (forall t :: 0 <= t < s && t < |a| ==> a[t] in gs)
    && (forall g :: g in gs ==> !Gave(a0, a, g))
    && (forall t :: 0 <= t < |a| && a[t] != a0[t] ==> a0[t] !in gs)
  }

  lemma PlaceKeeps(a0: seq<int>, a: seq<int>, gs: set<int>, s: nat)
    requires gs != {} && s < |a| && OnlyPlaced(a0, a, gs, s) && Progress(a0, a, gs)
    requires a[s] !in gs
    ensures var b := a[s := Least(a, gs)];
      OnlyPlaced(a0, b, gs, s + 1) && Progress(a0, b, gs) && Changed(a0, b) == Changed(a0, a) + 1
  {
    var l := Least(a, gs);
    var b := a[s := l];
    forall g ensures Count(b, g) == Count(a, g) - (if a[s] == g then 1 else 0) + (if l == g then 1 else 0) {
      CountUpdate(a, s, l, g);
    }
    ChangedUpdate(a0, a, s, l);
  }

  // The first loop at shard s: what is placed so far, and what remains leads to the same end.
  ghost predicate Placing(a0: seq<int>, a: seq<int>, gs: set<int>, s: nat, writes: nat)
    requires gs != {}
  {
    && OnlyPlaced(a0, a, gs, s) && Progress(a0, a, gs) && s <= |a|
    && Placed(a, gs, s) == Placed(a0, gs, 0)
    && writes == Changed(a0, a)
  }

  lemma PlacingStart(a: seq<int>, gs: set<int>)
    requires gs != {}
    ensures Placing(a, a, gs, 0, 0)
  {
    ChangedSelf(a);
  }

  lemma PlacingStep(a0: seq<int>, a: seq<int>, gs: set<int>, s: nat, writes: nat)
    requires gs != {} && s < |a| && Placing(a0, a, gs, s, writes)
    ensures a[s] in gs ==> Placing(a0, a, gs, s + 1, writes)
    ensures a[s] !in gs ==> Placing(a0, a[s := Least(a, gs)], gs, s + 1, writes + 1)
  {
    if a[s] in gs { SkipKeeps(a0, a, gs, s); } else { PlaceKeeps(a0, a, gs, s); }
  }

  // The loads after one move, and why the giver and the taker were not the reverse before.
  lemma {:induction false} MoveLoads(a0: seq<int>, a: seq<int>, gs: set<int>)
    requires gs != {} && Lopsided(a, gs) && Fair(a0, a, gs)
    ensures var b, m, l := Moved(a, gs), Most(a, gs), Least(a, gs);
      && m != l && !Got(a0, a, m) && !Gave(a0, a, l)
      && Count(b, m) == Count(a, m) - 1 && Count(b, l) == Count(a, l) + 1
      && forall g :: g != m && g != l ==> Count(b, g) == Count(a, g)
  {
    var m, l := Most(a, gs), Least(a, gs);
    forall g ensures Count(Moved(a, gs), g) == Count(a, g) - (if m == g then 1 else 0) + (if l == g then 1 else 0) {
      CountUpdate(a, First(a, m), l, g);
    }
  }

  lemma MoveIsFair(a0: seq<int>, a: seq<int>, gs: set<int>)
    requires gs != {} && Lopsided(a, gs) && Fair(a0, a, gs)
    ensures Fair(a0, Moved(a, gs), gs)
  {
    var b, m, l := Moved(a, gs), Most(a, gs), Least(a, gs);
    MoveLoads(a0, a, gs);
    forall g, h | g in gs && h in gs && Got(a0, b, h) ensures Count(b, h) <= Count(b, g) + 1 {
      assert h == l || Got(a0, a, h);
    }
    forall g, h | g in gs && h in gs && Gave(a0, b, g) ensures Count(b, h) <= Count(b, g) + 1 {
      assert g == m || Gave(a0, a, g);
    }
    forall g, h | g in gs && h in gs && Gave(a0, b, g) && Got(a0, b, h) ensures Count(b, h) <= Count(b, g) {
      assert g == m || Gave(a0, a, g);
      assert h == l || Got(a0, a, h);
    }
  }

  // A move takes a shard that has not moved before.
  lemma {:induction false} MoveKeeps(a0: seq<int>, a: seq<int>, gs: set<int>)
    requires gs != {} && Lopsided(a, gs) && Valid(a, gs) && Progress(a0, a, gs)
    ensures var b := Moved(a, gs);
      Valid(b, gs) && Progress(a0, b, gs) && Changed(a0, b) == Changed(a0, a) + 1
  {
    var m, l := Most(a, gs), Least(a, gs);
    var s := First(a, m);
    MoveIsFair(a0, a, gs);
    MoveLoads(a0, a, gs);
    assert a0[s] == m;
    ChangedUpdate(a0, a, s, l);
  }

  lemma {:induction false} ChangedUpdate(a0: seq<int>, a: seq<int>, s: int, h: int)
    requires |a0| == |a| && 0 <= s < |a| && a[s] == a0[s] && h != a0[s]
    ensures Changed(a0, a[s := h]) == Changed(a0, a) + 1
  {
    var n := |a| - 1;
    var b := a[s := h];
    if s == n {
      assert b[..n] == a[..n];
    } else {
      assert b[..n] == a[..n][s := h];
      ChangedUpdate(a0[..n], a[..n], s, h);
    }
  }

  lemma {:induction false} ChangedSelf(a: seq<int>)
    ensures Changed(a, a) == 0
  {
    if a != [] { ChangedSelf(a[..|a| - 1]); }
  }

  lemma SkipKeeps(a0: seq<int>, a: seq<int>, gs: set<int>, s: nat)
    requires s < |a| && OnlyPlaced(a0, a, gs, s) && a[s] in gs
    ensures OnlyPlaced(a0, a, gs, s + 1)
  {
  }

  lemma {:induction false} PlacedKeeps(a0: seq<int>, a: seq<int>, gs: set<int>, s: nat)
    requires gs != {} && s <= |a| && OnlyPlaced(a0, a, gs, s) && Progress(a0, a, gs)
    ensures var b := Placed(a, gs, s); OnlyPlaced(a0, b, gs, |b|) && Progress(a0, b, gs)
    decreases |a| - s
  {
    if s == |a| {
      assert Placed(a, gs, s) == a;
    } else if a[s] in gs {
      SkipKeeps(a0, a, gs, s);
      PlacedKeeps(a0, a, gs, s + 1);
    } else {
      PlaceKeeps(a0, a, gs, s);
      PlacedKeeps(a0, a[s := Least(a, gs)], gs, s + 1);
    }
  }

  lemma {:induction false} SettledKeeps(a0: seq<int>, a: seq<int>, gs: set<int>)
    requires gs != {} && Valid(a, gs) && Progress(a0, a, gs)
    ensures var b := Settled(a, gs); Valid(b, gs) && Balanced(b, gs) && Progress(a0, b, gs)
    decreases LoadSum(a, a)
  {
    if Lopsided(a, gs) {
      MoveKeeps(a0, a, gs);
      MoveLowersLoadSum(a, First(a, Most(a, gs)), Least(a, gs));
      SettledKeeps(a0, Moved(a, gs), gs);
    }
  }

  // From any assignment and any non-empty set of groups, rebalancing ends with every
  // shard on a member, loads at most one apart, and only explained, fair moves.
  lemma RebalancedIsFair(a: seq<int>, gs: set<int>)
    requires gs != {}
    ensures var b := Rebalanced(a, gs);
      Valid(b, gs) && Balanced(b, gs) && Progress(a, b, gs)
  {
    PlacedKeeps(a, a, gs, 0);
    SettledKeeps(a, Placed(a, gs, 0), gs);
  }
}
