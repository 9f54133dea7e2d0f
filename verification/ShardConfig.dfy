// The shard configuration as the controller updates it in place: analyze, Rebalance, Join
// and Leave over a shard array and a map of groups.

module ShardConfiguration {
  import opened Collections
  import opened ShardAssignment
  import opened ShardOptimality

  const NShards := 12

  // Changed is the source's true, Refused its false; Fatal stands for a process exit.
  datatype Outcome = Changed | Refused | Fatal

  ghost predicate SharesServer(xs: seq<string>, ys: seq<string>) {
    exists x :: x in xs && x in ys
  }

  // The joining groups are new, at least one, and no server is put in two groups.
  ghost predicate CanJoin(groups: map<int, seq<string>>, servers: map<int, seq<string>>) {
    && servers != map[]
    && groups.Keys !! servers.Keys
    && (forall g, h :: g in servers && h in groups ==> !SharesServer(servers[g], groups[h]))
    && (forall g, h :: g in servers && h in servers && g != h ==> !SharesServer(servers[g], servers[h]))
  }

  // A new joining group g shares a server with h, a group that is there or joins as well.
  ghost predicate Clash(groups: map<int, seq<string>>, servers: map<int, seq<string>>, g: int, h: int) {
    && g in servers && g !in groups
    && ((h in groups && SharesServer(groups[h], servers[g])) || (h in servers && h != g && SharesServer(servers[h], servers[g])))
  }

  ghost predicate Clashes(groups: map<int, seq<string>>, servers: map<int, seq<string>>) {
    exists g, h :: Clash(groups, servers, g, h)
  }

  ghost predicate CanLeave(groups: map<int, seq<string>>, gids: seq<int>) {
    gids != [] && Distinct(gids) && forall g :: g in gids ==> g in groups
  }

  // Exactly the groups in `added` have been put into the map.
  ghost predicate JoinedOnly(before: map<int, seq<string>>, servers: map<int, seq<string>>, added: set<int>,
                             after: map<int, seq<string>>) {
    && added <= servers.Keys
    && added !! before.Keys
    && after == before + map g | g in added :: servers[g]
  }

  // The ids before position i have been deleted, and the one at i is missing or repeated.
  ghost predicate LeftUntil(before: map<int, seq<string>>, gids: seq<int>, i: nat, after: map<int, seq<string>>) {
    && i < |gids|
    && (i > 0 ==> CanLeave(before, gids[..i]))
    && !CanLeave(before, gids[..i + 1])
    && after == before - set g | g in gids[..i]
  }

  // The first id that is missing, or that was deleted before, cannot leave.
  lemma BadId(groups: map<int, seq<string>>, gids: seq<int>, i: nat)
    requires i < |gids| && Distinct(gids[..i]) && (forall g :: g in gids[..i] ==> g in groups)
    requires gids[i] !in groups || gids[i] in gids[..i]
    ensures LeftUntil(groups, gids, i, groups - set g | g in gids[..i])
  {
    var upTo := gids[..i + 1];
    assert upTo[i] == gids[i] && upTo[i] in upTo;
    if gids[i] in gids[..i] {
      var j :| 0 <= j < i && gids[..i][j] == gids[i];
      assert upTo[j] == upTo[i];
      assert !Distinct(upTo);
    }
    assert !CanLeave(groups, upTo);
  }

  // The most loaded of the groups seen, and its load.
  ghost predicate MostSoFar(a: seq<int>, seen: set<int>, mg: int, mn: int) {
    if seen == {} then (mg, mn) == (-1, -1) else IsMost(a, seen, mg) && mn == Count(a, mg)
  }

  // The least loaded of the groups seen, and its load, if any is below 257.
  ghost predicate LeastSoFar(a: seq<int>, seen: set<int>, lg: int, ln: int) {
    || ((lg, ln) == (-1, 257) && forall h :: h in seen ==> Count(a, h) >= 257)
    || (IsLeast(a, seen, lg) && ln == Count(a, lg) < 257)
  }

  // Looking at one more group, larger than all seen so far, settles the extremes again.
  lemma {:induction false} ExtremesExtend(a: seq<int>, seen: set<int>, g: int, mg: int, mn: int, lg: int, ln: int)
    requires forall h :: h in seen ==> h < g
    requires MostSoFar(a, seen, mg, mn) && LeastSoFar(a, seen, lg, ln)
    ensures var n := Count(a, g);
      && MostSoFar(a, seen + {g}, if n > mn then g else mg, if n > mn then n else mn)
      && LeastSoFar(a, seen + {g}, if n < ln then g else lg, if n < ln then n else ln)
  {
  }

  method Shares(xs: seq<string>, ys: seq<string>) returns (shared: bool)
    ensures shared <==> SharesServer(xs, ys)
  {
    shared := false;
    for i := 0 to |xs|
      invariant shared <==> exists x :: x in xs[..i] && x in ys
    {
      assert xs[..i + 1] == xs[..i] + [xs[i]];
      if xs[i] in ys { shared := true; }
    }
    assert xs[..|xs|] == xs;
  }

  // The keys of the group map, collected in any order and sorted.
  method SortedKeys(keys: set<int>) returns (gs: seq<int>)
    ensures forall i, j :: 0 <= i < j < |gs| ==> gs[i] < gs[j]
    ensures forall g :: g in gs <==> g in keys
  {
    gs := [];
    var rest := keys;
    while rest != {}
      invariant rest <= keys
      invariant forall i, j :: 0 <= i < j < |gs| ==> gs[i] < gs[j]
      invariant forall g :: g in gs <==> g in keys && g !in rest
      decreases rest
    {
      ghost var m := Member(rest);
      assert m in rest;
      var k :| k in rest;
      var i := 0;
      while i < |gs| && gs[i] < k
        invariant 0 <= i <= |gs|
        invariant forall j :: 0 <= j < i ==> gs[j] < k
      {
        i := i + 1;
      }
      assert forall g :: g in gs[..i] + [k] + gs[i..] <==> g == k || g in gs by {
        assert gs == gs[..i] + gs[i..];
      }
      gs := gs[..i] + [k] + gs[i..];
      rest := rest - {k};
    }
  }

  class ShardConfig {
    var Num: nat
    var Shards: array<int>
    var Groups: map<int, seq<string>>

    // Every shard is on a member group and the loads differ by at most one.
    ghost predicate Even()
      reads this, Shards
    {
      Valid(Shards[..], Groups.Keys) && Balanced(Shards[..], Groups.Keys)
    }

    constructor ()
      ensures Num == 0 && Groups == map[]
      ensures fresh(Shards) && Shards.Length == 12 && forall s :: 0 <= s < 12 ==> Shards[s] == 0
    {
      Num := 0;
      Groups := map[];
      Shards := new int[NShards](_ => 0);
    }

    method CountShards() returns (counts: map<int, nat>)
      ensures forall g :: Count(Shards[..], g) == if g in counts then counts[g] else 0
    {
      counts := map[];
      for s := 0 to Shards.Length
        invariant forall g :: Count(Shards[..s], g) == if g in counts then counts[g] else 0
      {
        var g := Shards[s];
        assert Shards[..s + 1][..s] == Shards[..s];
        counts := counts[g := (if g in counts then counts[g] else 0) + 1];
      }
      assert Shards[..Shards.Length] == Shards[..];
    }

    // The two extreme groups, ties going to the smaller id. The least loaded group is found if
    // and only if some group is below the starting value 257, which 256 shards always ensure.
    method Analyze() returns (mg: int, mn: int, lg: int, ln: int)
      ensures Groups == map[] ==> (mg, mn, lg, ln) == (-1, -1, -1, 257)
      ensures Groups != map[] ==> IsMost(Shards[..], Groups.Keys, mg) && mn == Count(Shards[..], mg)
      ensures Groups != map[] ==> mg in Groups && forall g :: g in Groups ==>
        Count(Shards[..], mg) > Count(Shards[..], g) || (Count(Shards[..], mg) == Count(Shards[..], g) && mg <= g)
      ensures (exists g :: g in Groups && Count(Shards[..], g) < 257) ==>
        IsLeast(Shards[..], Groups.Keys, lg) && ln == Count(Shards[..], lg)
      ensures (forall g :: g in Groups ==> Count(Shards[..], g) >= 257) ==> lg == -1 && ln == 257
      ensures Groups != map[] && Shards.Length <= 256 ==>
        IsLeast(Shards[..], Groups.Keys, lg) && ln == Count(Shards[..], lg)
    {
      var counts := CountShards();
      mn, mg, ln, lg := -1, -1, 257, -1;
      var groups := SortedKeys(Groups.Keys);
      ghost var a := Shards[..];
      ghost var seen: set<int> := {};
      for i := 0 to |groups|
        invariant seen <= Groups.Keys
        invariant forall j :: 0 <= j < i ==> groups[j] in seen
        invariant forall h, j :: h in seen && i <= j < |groups| ==> h < groups[j]
        invariant MostSoFar(a, seen, mg, mn) && LeastSoFar(a, seen, lg, ln)
      {
        var g := groups[i];
        var n := if g in counts then counts[g] else 0;
        assert n == Count(a, g);
        ExtremesExtend(a, seen, g, mg, mn, lg, ln);
        seen := seen + {g};
        if n < ln {
          ln := n;
          lg := g;
        }
        if n > mn {
          mn := n;
          mg := g;
        }
      }
      assert forall h :: h in Groups ==> h in groups;
      assert seen == Groups.Keys;
      if Groups != map[] {
        ghost var m := Member(Groups.Keys);
        assert Count(a, m) <= |a|;
      }
    }

    method LeastGroup() returns (lg: int)
      requires Shards.Length <= 256
      ensures Groups != map[] ==> IsLeast(Shards[..], Groups.Keys, lg)
      ensures Groups != map[] ==> lg in Groups && forall g :: g in Groups ==>
        Count(Shards[..], lg) < Count(Shards[..], g) || (Count(Shards[..], lg) == Count(Shards[..], g) && lg <= g)
      ensures Groups == map[] ==> lg == -1
    {
      var mg, mn, g, ln := Analyze();
      lg := g;
    }

    // Rebalancing reaches exactly the specified assignment, and `writes` counts the stores
    // into the array: with a group to serve, no shard is stored twice or stored unchanged.
    method Rebalance() returns (ghost writes: nat)
      requires Shards.Length <= 256
      modifies Shards
      ensures Shards[..] == Rebalanced(old(Shards[..]), Groups.Keys)
      ensures Groups == map[] ==> forall s :: 0 <= s < Shards.Length ==> Shards[s] == 0
      ensures Groups != map[] ==> writes == ShardAssignment.Changed(old(Shards[..]), Shards[..])
    {
      writes := 0;
      ghost var a0, gs := Shards[..], Groups.Keys;
      if |Groups| < 1 {
        assert |Groups.Keys| == 0;
        for s := 0 to Shards.Length
          invariant forall t :: 0 <= t < s ==> Shards[t] == 0
        {
          Shards[s] := 0;
        }
        assert Shards[..] == seq(|a0|, _ => 0);
        return;
      }
      assert Groups != map[] && gs != {};
      writes := PlaceShards();
      PlacedKeeps(a0, a0, gs, 0);
      writes := MoveShards(a0, writes);
    }

    // The first loop: every shard on no group goes to the least loaded group at that moment.
    method PlaceShards() returns (ghost writes: nat)
      requires Shards.Length <= 256 && Groups.Keys != {}
      modifies Shards
      ensures Shards[..] == Placed(old(Shards[..]), Groups.Keys, 0)
      ensures writes == ShardAssignment.Changed(old(Shards[..]), Shards[..])
    {
      writes := 0;
      ghost var a0, gs := Shards[..], Groups.Keys;
      PlacingStart(a0, gs);
      for s := 0 to Shards.Length
        invariant Placing(a0, Shards[..], gs, s, writes)
      {
        ghost var a := Shards[..];
        PlacingStep(a0, a, gs, s, writes);
        if Shards[s] !in Groups {
          var lg := LeastGroup();
          assert lg == Least(a, gs);
          Shards[s] := lg;
          writes := writes + 1;
          assert Shards[..] == a[s := lg];
        }
      }
    }

    // The second loop: one shard at a time from the most to the least loaded group.
    method MoveShards(ghost a0: seq<int>, ghost before: nat) returns (ghost writes: nat)
      requires Shards.Length <= 256 && Groups.Keys != {}
      requires Valid(Shards[..], Groups.Keys) && Progress(a0, Shards[..], Groups.Keys)
      requires before == ShardAssignment.Changed(a0, Shards[..])
      modifies Shards
      ensures Shards[..] == Settled(old(Shards[..]), Groups.Keys)
      ensures |a0| == Shards.Length && writes == ShardAssignment.Changed(a0, Shards[..])
    {
      writes := before;
      ghost var start, gs := Shards[..], Groups.Keys;
      while true
        invariant Valid(Shards[..], gs) && Progress(a0, Shards[..], gs)
        invariant Settled(Shards[..], gs) == Settled(start, gs)
        invariant writes == ShardAssignment.Changed(a0, Shards[..])
        decreases LoadSum(Shards[..], Shards[..])
      {
        ghost var a := Shards[..];
        var moved := MoveOne();
        if !moved {
          break;
        }
        MoveKeeps(a0, a, gs);
        writes := writes + 1;
      }
    }

    // One turn of the second loop; false when the loads are already within one of each other.
    method MoveOne() returns (moved: bool)
      requires Shards.Length <= 256 && Groups.Keys != {}
      modifies Shards
      ensures moved <==> Lopsided(old(Shards[..]), Groups.Keys)
      ensures Shards[..] == if moved then Moved(old(Shards[..]), Groups.Keys) else old(Shards[..])
      ensures moved ==> LoadSum(Shards[..], Shards[..]) < old(LoadSum(Shards[..], Shards[..]))
    {
      ghost var a, gs := Shards[..], Groups.Keys;
      var mg, mn, lg, ln := Analyze();
      assert mg == Most(a, gs) && lg == Least(a, gs);
      moved := mn >= ln + 2;
      if moved {
        MoveLowersLoadSum(a, First(a, mg), lg);
        MoveFirst(mg, lg);
      }
    }

    // The inner loop of the move: the first shard of group mg goes to group lg.
    method MoveFirst(mg: int, lg: int)
      requires Count(Shards[..], mg) > 0
      modifies Shards
      ensures Shards[..] == old(Shards[..])[First(old(Shards[..]), mg) := lg]
      ensures exists s :: 0 <= s < Shards.Length && old(Shards[s]) == mg && Shards[s] == lg
                          && (forall t :: 0 <= t < s ==> old(Shards[t]) != mg && Shards[t] == old(Shards[t]))
                          && (forall t :: s < t < Shards.Length ==> Shards[t] == old(Shards[t]))
    {
      ghost var a := Shards[..];
      ghost var f := First(a, mg);
      for s := 0 to Shards.Length
        invariant s <= f && Shards[..] == a
      {
        if Shards[s] == mg {
          Shards[s] := lg;
          assert Shards[..] == a[s := lg];
          return;
        }
      }
    }

    // True exactly when the joining groups are new and share no server with any other group;
    // the groups are taken in any order, so a refusal or exit may come after some were added.
    method Join(servers: map<int, seq<string>>) returns (r: Outcome)
      modifies `Num, `Groups
      ensures r == Changed <==> CanJoin(old(Groups), servers)
      ensures r == Changed ==> Groups == old(Groups) + servers && Num == old(Num) + 1
      ensures r != Changed ==> Num == old(Num)
      ensures r == Refused ==> exists g :: g in servers && g in old(Groups)
      ensures r == Fatal ==> servers == map[] || Clashes(old(Groups), servers)
      ensures servers != map[] && servers.Keys <= old(Groups).Keys ==> r == Refused
      ensures exists added :: JoinedOnly(old(Groups), servers, added, Groups)
    {
      ghost var groups := Groups;
      ghost var added: set<int> := {};
      var rest := servers.Keys;
      while rest != {}
        invariant rest <= servers.Keys && added == servers.Keys - rest
        invariant JoinedOnly(groups, servers, added, Groups) && Num == old(Num)
        invariant forall g, h :: g in added && h in groups ==> !SharesServer(servers[g], groups[h])
        invariant forall g, h :: g in added && h in added && g != h ==> !SharesServer(servers[g], servers[h])
        decreases rest
      {
        ghost var m := Member(rest);
        assert m in rest;
        var gid :| gid in rest;
        if gid in Groups {
          assert gid in servers && gid in groups;
          return Refused;
        }
        var clash := CheckServers(servers[gid]);
        if clash {
          ghost var h :| h in Groups && SharesServer(Groups[h], servers[gid]);
          assert gid !in groups && if h in groups then Groups[h] == groups[h] else h in servers && h != gid;
          assert Clash(groups, servers, gid, h) && !CanJoin(groups, servers);
          return Fatal;
        }
        Groups := Groups[gid := servers[gid]];
        added := added + {gid};
        rest := rest - {gid};
      }
      assert added == servers.Keys;
      if servers == map[] {
        return Fatal;
      }
      Num := Num + 1;
      return Changed;
    }

    method CheckServers(servers: seq<string>) returns (clash: bool)
      ensures clash <==> exists h :: h in Groups && SharesServer(Groups[h], servers)
    {
      clash := false;
      var rest := Groups.Keys;
      while rest != {}
        invariant rest <= Groups.Keys
        invariant clash <==> exists h :: h in Groups && h !in rest && SharesServer(Groups[h], servers)
        decreases rest
      {
        ghost var m := Member(rest);
        assert m in rest;
        var g :| g in rest;
        var shared := Shares(Groups[g], servers);
        clash := clash || shared;
        rest := rest - {g};
      }
    }

    // True exactly when every id names a group and none is repeated; a refusal leaves the
    // groups before the first bad id deleted.
    method Leave(gids: seq<int>) returns (r: Outcome)
      modifies `Num, `Groups
      ensures r == Changed <==> CanLeave(old(Groups), gids)
      ensures r == Changed ==> Groups == old(Groups) - (set g | g in gids) && Num == old(Num) + 1
      ensures r != Changed ==> Num == old(Num)
      ensures r == Fatal <==> gids == []
      ensures r == Refused ==> exists i :: LeftUntil(old(Groups), gids, i, Groups)
    {
      for i := 0 to |gids|
        invariant Num == old(Num) && Distinct(gids[..i])
        invariant forall g :: g in gids[..i] ==> g in old(Groups)
        invariant Groups == old(Groups) - (set g | g in gids[..i])
      {
        assert gids[..i + 1] == gids[..i] + [gids[i]];
        if gids[i] !in Groups {
          BadId(old(Groups), gids, i);
          return Refused;
        }
        Groups := Groups - {gids[i]};
      }
      assert gids[..|gids|] == gids;
      if gids == [] {
        return Fatal;
      }
      Num := Num + 1;
      return Changed;
    }

    method JoinBalance(servers: map<int, seq<string>>) returns (r: Outcome)
      requires Shards.Length <= 256
      modifies this, Shards
      ensures Shards == old(Shards)
      ensures r == Changed <==> CanJoin(old(Groups), servers)
      ensures r == Changed ==> Groups == old(Groups) + servers && Num == old(Num) + 1
      ensures r == Changed ==> Shards[..] == Rebalanced(old(Shards[..]), Groups.Keys)
      ensures r == Changed && old(Groups) != map[] && old(Even()) ==>
        forall s :: 0 <= s < Shards.Length && Shards[s] != old(Shards[s]) ==> Shards[s] in servers
      ensures r != Changed ==> Shards[..] == old(Shards[..])
    {
      ghost var a, gs := Shards[..], Groups.Keys;
      r := Join(servers);
      if r != Changed {
        return;
      }
      ghost var writes := Rebalance();
      assert Groups.Keys == gs + servers.Keys;
      if gs != {} && Valid(a, gs) && Balanced(a, gs) {
        forall s | 0 <= s < Shards.Length && Shards[..][s] != a[s] ensures Shards[s] in servers {
          JoinIsLocal(a, gs, servers.Keys, s);
        }
      }
    }

    method LeaveBalance(gids: seq<int>) returns (r: Outcome)
      requires Shards.Length <= 256
      modifies this, Shards
      ensures Shards == old(Shards)
      ensures r == Changed <==> CanLeave(old(Groups), gids)
      ensures r == Changed ==> Groups == old(Groups) - (set g | g in gids) && Num == old(Num) + 1
      ensures r == Changed ==> Shards[..] == Rebalanced(old(Shards[..]), Groups.Keys)
      ensures r == Changed && Groups == map[] ==> forall s :: 0 <= s < Shards.Length ==> Shards[s] == 0
      ensures r == Changed && Groups != map[] && old(Even()) ==>
        forall s :: 0 <= s < Shards.Length && Shards[s] != old(Shards[s]) ==> old(Shards[s]) in gids
      ensures r != Changed ==> Shards[..] == old(Shards[..])
    {
      ghost var a, gs := Shards[..], Groups.Keys;
      r := Leave(gids);
      if r != Changed {
        return;
      }
      ghost var writes := Rebalance();
      ghost var left := set g | g in gids;
      assert Groups.Keys == gs - left;
      if Groups.Keys != {} && Valid(a, gs) && Balanced(a, gs) {
        forall s | 0 <= s < Shards.Length && Shards[..][s] != a[s] ensures a[s] in gids {
          LeaveIsLocal(a, gs, left, s);
        }
      }
    }
  }
}
