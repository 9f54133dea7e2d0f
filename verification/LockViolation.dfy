// Mutual exclusion fails once a Release's Put returns ErrMaybe: a run of two clients that loses
// one message, the reply to a Release's Put, and ends with both inside. So the lock excludes
// under exactly those networks that never drop that kind of message.

module LockViolation {
  import opened KvTypes
  import opened KvSystem
  import opened KvView
  import opened Lock
  import opened LockClients

  // ----- The system as the clients see it, and how a move changes that -----

  datatype Snap = Snap(server: Server, views: seq<View>, pcs: seq<Pc>)

  ghost function SnapOf(s: Sys): Snap
    requires |s.pcs| == |s.kv.phase|
  {
    Snap(s.kv.server, seq(|s.pcs|, c requires 0 <= c < |s.pcs| => ViewOf(s.kv, c)), s.pcs)
  }

  function Actor(m: Move): nat {
    match m
    case Call(c) => c
    case Rpc(a) => a.c
  }

  ghost predicate Can(k: Snap, name: string, m: Move) {
    && Actor(m) < |k.pcs| == |k.views|
    && match m
       case Call(c) => k.pcs[c] in {Outside, Inside}
       case Rpc(a) =>
         match a
         case Invoke(c, input) => k.views[c] == Free && Wants(k.pcs[c], name, input)
         case DropRequest(c) => k.views[c].Asking?
         case Execute(c) => k.views[c].Asking?
         case DropReply(c) => k.views[c].Told?
         case Return(c) => k.views[c].Told?
  }

  function Do(k: Snap, m: Move): Snap
    requires Actor(m) < |k.pcs| == |k.views|
  {
    match m
    case Call(c) => k.(pcs := k.pcs[c := Called(k.pcs[c])])
    case Rpc(a) =>
      var c := a.c;
      var v := k.views[c];
      if a.Invoke? then
        k.(views := k.views[c := Asking(a.input, false, true)], pcs := k.pcs[c := Invoked(k.pcs[c])])
      else if v.Free? then k
      else if a.Execute? then
        var (server, reply) := k.server.Handle(v.input);
        Snap(server, k.views[c := Told(v.input, v.landed || k.server.Applies(v.input), v.first, reply)], k.pcs)
      else if a.Return? && v.Told? then
        k.(views := k.views[c := Free], pcs := k.pcs[c := Returned(k.pcs[c], ClerkReply(v.first, v.input, v.reply))])
      else
        k.(views := k.views[c := Asking(v.input, v.landed, false)])
  }

  // The moves ms, each possible in turn, lead from k to k'.
  ghost predicate Leads(k: Snap, name: string, ms: seq<Move>, k': Snap)
    decreases |ms|
  {
    if ms == [] then k == k' else Can(k, name, ms[0]) && Leads(Do(k, ms[0]), name, ms[1..], k')
  }

  lemma {:induction false} Cons(k: Snap, name: string, m: Move, ms: seq<Move>, k': Snap)
    requires Can(k, name, m) && Leads(Do(k, m), name, ms, k')
    ensures Leads(k, name, [m] + ms, k')
  {
    assert ([m] + ms)[1..] == ms;
  }

  lemma {:induction false} Join(k: Snap, name: string, ms: seq<Move>, k': Snap, ms': seq<Move>, k'': Snap)
    requires Leads(k, name, ms, k') && Leads(k', name, ms', k'')
    ensures Leads(k, name, ms + ms', k'')
    decreases |ms|
  {
    if ms == [] {
      assert ms + ms' == ms';
    } else {
      Join(Do(k, ms[0]), name, ms[1..], k', ms', k'');
      assert ms + ms' == [ms[0]] + (ms[1..] + ms');
      Cons(k, name, ms[0], ms[1..] + ms', k'');
    }
  }

  predicate IsLoss(m: Move) {
    m.Rpc? && Lossy(m.a)
  }

  // No message is lost.
  ghost predicate Quiet(ms: seq<Move>) {
    forall i :: 0 <= i < |ms| ==> !IsLoss(ms[i])
  }

  lemma QuietJoin(ms: seq<Move>, ms': seq<Move>)
    requires Quiet(ms) && Quiet(ms')
    ensures Quiet(ms + ms')
  {
  }

  // ----- Every such move is a step of the system -----

  ghost predicate Playing(states: seq<Sys>, name: string, moves: seq<Move>, s: Sys) {
    Run(states, name, moves) && s == states[|moves|] && |s.pcs| == |s.kv.phase|
  }

  lemma Extend(states: seq<Sys>, name: string, moves: seq<Move>, s: Sys, m: Move, t: Sys)
    requires Playing(states, name, moves, s) && Step(s, name, m, t) && |t.pcs| == |t.kv.phase|
    ensures Playing(states + [t], name, moves + [m], t)
  {
  }

  lemma RpcStep(s: Sys, name: string, a: Action) returns (t: Sys)
    requires ParityInv(s, name) && Can(SnapOf(s), name, Rpc(a))
    ensures Step(s, name, Rpc(a), t) && |t.pcs| == |t.kv.phase| && SnapOf(t) == Do(SnapOf(s), Rpc(a))
  {
    assert PhaseInv(s.kv, a.c);
    var result := NextView(s.kv, a);
    var kv := Next(s.kv, a);
    t := match a
      case Invoke(c, _) => Sys(kv, s.pcs[c := Invoked(s.pcs[c])], s.doubt)
      case Return(c) =>
        Sys(kv, s.pcs[c := Returned(s.pcs[c], result)], s.doubt || (s.pcs[c].RelPutting? && result.err == ErrMaybe))
      case _ => Sys(kv, s.pcs, s.doubt);
    assert SnapOf(t).views == Do(SnapOf(s), Rpc(a)).views;
  }

  lemma OneMove(states: seq<Sys>, name: string, moves: seq<Move>, s: Sys, m: Move) returns (t: Sys)
    requires Playing(states, name, moves, s) && Can(SnapOf(s), name, m)
    ensures Playing(states + [t], name, moves + [m], t) && SnapOf(t) == Do(SnapOf(s), m)
  {
    RunParity(states, name, moves, |moves|);
    match m {
      case Call(c) => t := s.(pcs := s.pcs[c := Called(s.pcs[c])]);
      case Rpc(a) => t := RpcStep(s, name, a);
    }
    Extend(states, name, moves, s, m, t);
  }

  lemma {:induction false} Realize(states: seq<Sys>, name: string, moves: seq<Move>, s: Sys, ms: seq<Move>, k: Snap)
    returns (states': seq<Sys>, moves': seq<Move>, t: Sys)
    requires Playing(states, name, moves, s) && Leads(SnapOf(s), name, ms, k)
    ensures Playing(states', name, moves', t) && SnapOf(t) == k
    ensures states <= states' && moves' == moves + ms
    decreases |ms|
  {
    if ms == [] {
      states', moves', t := states, moves, s;
    } else {
      t := OneMove(states, name, moves, s, ms[0]);
      ghost var next := states + [t];
      states', moves', t := Realize(next, name, moves + [ms[0]], t, ms[1..], k);
      FirstThenRest(states, next, states', moves, ms);
    }
  }

  lemma FirstThenRest(states: seq<Sys>, next: seq<Sys>, all: seq<Sys>, moves: seq<Move>, ms: seq<Move>)
    requires states <= next <= all && ms != []
    ensures states <= all
    ensures moves + [ms[0]] + ms[1..] == moves + ms
  {
  }

  // ----- The moves of the run -----

  // An undisturbed call of client c.
  lemma FullCall(k: Snap, name: string, c: nat, input: Input) returns (ms: seq<Move>)
    requires c < |k.pcs| == |k.views| && k.views[c] == Free && Wants(k.pcs[c], name, input)
    ensures var (server, reply) := k.server.Handle(input);
      Leads(k, name, ms, Snap(server, k.views, k.pcs[c := Returned(Invoked(k.pcs[c]), reply)]))
    ensures Quiet(ms)
  {
    var (server, reply) := k.server.Handle(input);
    var k1 := Do(k, Rpc(Invoke(c, input)));
    var k2 := Do(k1, Rpc(Execute(c)));
    var k3 := Do(k2, Rpc(Return(c)));
    assert k3 == Snap(server, k.views, k.pcs[c := Returned(Invoked(k.pcs[c]), reply)]);
    Cons(k2, name, Rpc(Return(c)), [], k3);
    Cons(k1, name, Rpc(Execute(c)), [Rpc(Return(c))] + [], k3);
    Cons(k, name, Rpc(Invoke(c, input)), [Rpc(Execute(c))] + ([Rpc(Return(c))] + []), k3);
    ms := [Rpc(Invoke(c, input))] + ([Rpc(Execute(c))] + ([Rpc(Return(c))] + []));
  }

  ghost predicate NotHeld(server: Server, name: string) {
    server.Valid() && (name in server.data ==> server.data[name] == FreeValue)
  }

  ghost predicate IsHeld(server: Server, name: string) {
    server.Valid() && name in server.data && server.data[name] == Held
  }

  function WithLock(server: Server, name: string, value: Value): Server {
    Server(server.data[name := value], server.dataVersion[name := server.Version(name) + 1])
  }

  // Acquire of a lock that is not held, undisturbed.
  lemma FullAcquire(k: Snap, name: string, c: nat) returns (ms: seq<Move>)
    requires c < |k.pcs| == |k.views| && k.views[c] == Free && k.pcs[c] == Outside && NotHeld(k.server, name)
    ensures Leads(k, name, ms, Snap(WithLock(k.server, name, Held), k.views, k.pcs[c := Inside]))
    ensures Quiet(ms)
  {
    var v := k.server.Version(name);
    var k1, k2 := k.(pcs := k.pcs[c := AcqRead]), k.(pcs := k.pcs[c := AcqPut(v)]);
    var k3 := Snap(WithLock(k.server, name, Held), k.views, k.pcs[c := Inside]);
    assert k2.pcs[c := Inside] == k3.pcs && k1.pcs[c := AcqPut(v)] == k2.pcs;
    var get := FullCall(k1, name, c, Get(name));
    var put := FullCall(k2, name, c, Put(name, Held, v));
    Join(k1, name, get, k2, put, k3);
    Cons(k, name, Call(c), get + put, k3);
    ms := [Call(c)] + (get + put);
  }

  // The second half of a Release: its read, and its put at the version read.
  lemma ReadAndFree(k: Snap, name: string, c: nat) returns (ms: seq<Move>)
    requires c < |k.pcs| == |k.views| && k.views[c] == Free && k.pcs[c] == RelRead && IsHeld(k.server, name)
    ensures Leads(k, name, ms, Snap(WithLock(k.server, name, FreeValue), k.views, k.pcs[c := Outside]))
    ensures Quiet(ms)
  {
    var v := k.server.Version(name);
    var k2 := k.(pcs := k.pcs[c := RelPut(v)]);
    var k3 := Snap(WithLock(k.server, name, FreeValue), k.views, k.pcs[c := Outside]);
    assert k2.pcs[c := Outside] == k3.pcs;
    var get := FullCall(k, name, c, Get(name));
    var put := FullCall(k2, name, c, Put(name, FreeValue, v));
    Join(k, name, get, k2, put, k3);
    ms := get + put;
  }

  // A Release up to the reply to its put, which took effect.
  lemma ReleaseToReply(k: Snap, name: string, c: nat) returns (ms: seq<Move>)
    requires c < |k.pcs| == |k.views| && k.views[c] == Free && k.pcs[c] == Inside && IsHeld(k.server, name)
    ensures var v := k.server.Version(name);
      Leads(k, name, ms, Snap(WithLock(k.server, name, FreeValue),
        k.views[c := Told(Put(name, FreeValue, v), true, true, Reply(NoValue, 0, OK))], k.pcs[c := RelPutting(v)]))
    ensures Quiet(ms)
  {
    var v := k.server.Version(name);
    var put := Put(name, FreeValue, v);
    var k1, k2 := k.(pcs := k.pcs[c := RelRead]), k.(pcs := k.pcs[c := RelPut(v)]);
    assert k1.pcs[c := RelPut(v)] == k2.pcs;
    var get := FullCall(k1, name, c, Get(name));
    var k3 := Do(k2, Rpc(Invoke(c, put)));
    var k4 := Do(k3, Rpc(Execute(c)));
    assert k4 == Snap(WithLock(k.server, name, FreeValue), k.views[c := Told(put, true, true, Reply(NoValue, 0, OK))],
                      k.pcs[c := RelPutting(v)]);
    Cons(k3, name, Rpc(Execute(c)), [], k4);
    Cons(k2, name, Rpc(Invoke(c, put)), [Rpc(Execute(c))] + [], k4);
    var rest := [Rpc(Invoke(c, put))] + ([Rpc(Execute(c))] + []);
    Join(k1, name, get, k2, rest, k4);
    Cons(k, name, Call(c), get + rest, k4);
    ms := [Call(c)] + (get + rest);
  }

  // The resend is refused, the put returns ErrMaybe, and the loop frees whatever is held.
  lemma StrayRelease(k: Snap, name: string, c: nat, v: nat) returns (ms: seq<Move>)
    requires c < |k.pcs| == |k.views| && k.pcs[c] == RelPutting(v)
    requires k.views[c] == Asking(Put(name, FreeValue, v), true, false)
    requires IsHeld(k.server, name) && k.server.Version(name) > v
    ensures Leads(k, name, ms, Snap(WithLock(k.server, name, FreeValue), k.views[c := Free], k.pcs[c := Outside]))
    ensures Quiet(ms)
  {
    var k1 := Do(k, Rpc(Execute(c)));
    var k2 := Do(k1, Rpc(Return(c)));
    assert k2 == Snap(k.server, k.views[c := Free], k.pcs[c := RelRead]);
    var rest := ReadAndFree(k2, name, c);
    var k3 := Snap(WithLock(k.server, name, FreeValue), k.views[c := Free], k.pcs[c := Outside]);
    assert k2.pcs[c := Outside] == k3.pcs;
    Cons(k1, name, Rpc(Return(c)), rest, k3);
    Cons(k, name, Rpc(Execute(c)), [Rpc(Return(c))] + rest, k3);
    ms := [Rpc(Execute(c))] + ([Rpc(Return(c))] + rest);
  }

  // c acquires and releases, up to the reply to its Release's put.
  lemma FirstHalf(k: Snap, name: string, c: nat) returns (ms: seq<Move>, k': Snap)
    requires |k.pcs| == |k.views| && c < |k.pcs|
    requires k.views[c] == Free && k.pcs[c] == Outside && NotHeld(k.server, name)
    ensures Leads(k, name, ms, k') && Quiet(ms)
    ensures var v := k.server.Version(name) + 1;
      && k'.pcs == k.pcs[c := RelPutting(v)]
      && k'.views == k.views[c := Told(Put(name, FreeValue, v), true, true, Reply(NoValue, 0, OK))]
      && NotHeld(k'.server, name) && k'.server.Version(name) == v + 1
  {
    var k1 := Snap(WithLock(k.server, name, Held), k.views, k.pcs[c := Inside]);
    var v := k1.server.Version(name);
    k' := Snap(WithLock(k1.server, name, FreeValue),
               k1.views[c := Told(Put(name, FreeValue, v), true, true, Reply(NoValue, 0, OK))],
               k1.pcs[c := RelPutting(v)]);
    var m1 := FullAcquire(k, name, c);
    var m2 := ReleaseToReply(k1, name, c);
    Join(k, name, m1, k1, m2, k');
    QuietJoin(m1, m2);
    ms := m1 + m2;
  }

  // That reply having been lost, d acquires; c's resend is refused, c frees the lock d holds, and
  // c acquires it again.
  lemma SecondHalf(k: Snap, name: string, c: nat, d: nat, v: nat) returns (ms: seq<Move>, k': Snap)
    requires |k.pcs| == |k.views| && c < |k.pcs| && d < |k.pcs| && c != d
    requires k.pcs[c] == RelPutting(v) && k.views[c] == Asking(Put(name, FreeValue, v), true, false)
    requires k.pcs[d] == Outside && k.views[d] == Free
    requires NotHeld(k.server, name) && k.server.Version(name) > v
    ensures Leads(k, name, ms, k') && Quiet(ms)
    ensures |k'.pcs| == |k'.views| == |k.pcs| && k'.pcs[c] == Inside && k'.pcs[d] == Inside
  {
    var k1 := Snap(WithLock(k.server, name, Held), k.views, k.pcs[d := Inside]);
    var k2 := Snap(WithLock(k1.server, name, FreeValue), k1.views[c := Free], k1.pcs[c := Outside]);
    k' := Snap(WithLock(k2.server, name, Held), k2.views, k2.pcs[c := Inside]);
    var m1 := FullAcquire(k, name, d);
    var m2 := StrayRelease(k1, name, c, v);
    var m3 := FullAcquire(k2, name, c);
    Join(k1, name, m2, k2, m3, k');
    Join(k, name, m1, k1, m2 + m3, k');
    QuietJoin(m2, m3);
    QuietJoin(m1, m2 + m3);
    ms := m1 + (m2 + m3);
  }

  // Two quiet stretches with one other move between them, played from a start.
  lemma PlayAround(s: Sys, name: string, m1: seq<Move>, k1: Snap, m: Move, m2: seq<Move>, k2: Snap)
    returns (states: seq<Sys>, moves: seq<Move>)
    requires Start(s, name) && Leads(SnapOf(s), name, m1, k1)
    requires Can(k1, name, m) && Leads(Do(k1, m), name, m2, k2)
    ensures Run(states, name, moves) && states[0] == s && moves == m1 + [m] + m2
    ensures |states[|m1|].pcs| == |states[|m1|].kv.phase| && SnapOf(states[|m1|]) == k1
    ensures |states[|moves|].pcs| == |states[|moves|].kv.phase| && SnapOf(states[|moves|]) == k2
  {
    StartPlays(s, name);
    var before, played, s1 := Realize([s], name, [], s, m1, k1);
    Cons(k1, name, m, m2, k2);
    var t;
    states, moves, t := Realize(before, name, played, s1, [m] + m2, k2);
    SameMoves(m1, m, m2);
    SameAt(before, states, |m1|);
    SameAt([s], before, 0);
    SameAt(before, states, 0);
  }

  lemma StartPlays(s: Sys, name: string)
    requires Start(s, name)
    ensures Playing([s], name, [], s)
  {
  }

  lemma SameMoves(m1: seq<Move>, m: Move, m2: seq<Move>)
    ensures [] + m1 == m1 && m1 + ([m] + m2) == m1 + [m] + m2
  {
  }

  lemma SameAt(states: seq<Sys>, more: seq<Sys>, i: nat)
    requires states <= more && i < |states|
    ensures more[i] == states[i]
  {
  }

  lemma OneLoss(m1: seq<Move>, m: Move, m2: seq<Move>)
    requires Quiet(m1) && Quiet(m2)
    ensures forall i :: 0 <= i < |m1 + [m] + m2| && i != |m1| ==> !IsLoss((m1 + [m] + m2)[i])
  {
  }

  lemma NotExclusive(states: seq<Sys>, name: string, moves: seq<Move>, c: nat, d: nat)
    requires Run(states, name, moves) && c != d
    requires var t := states[|moves|];
      c < |t.pcs| == |t.kv.phase| && d < |t.pcs| && t.pcs[c] == Inside && t.pcs[d] == Inside
    ensures states[|moves|].doubt
  {
    if !states[|moves|].doubt {
      MutualExclusion(states, name, moves, |moves|, c, d);
    }
  }

  // From any fresh lock and any two clients there is a run that ends with both of them between
  // a returned Acquire and any Release. It loses one message, the reply to a Release's put.
  lemma BothInside(s: Sys, name: string, c: nat, d: nat) returns (states: seq<Sys>, moves: seq<Move>, l: nat)
    requires Start(s, name) && c < |s.pcs| && d < |s.pcs| && c != d
    ensures Run(states, name, moves) && states[0] == s
    ensures l < |moves| && LosesRelease(states[l], moves[l])
    ensures forall i :: 0 <= i < |moves| && i != l ==> !IsLoss(moves[i])
    ensures var t := states[|moves|];
      |t.pcs| == |t.kv.phase| == |s.pcs| && t.pcs[c] == Inside && t.pcs[d] == Inside && t.doubt
  {
    StartParity(s, name);
    var k := SnapOf(s);
    assert k.views[c] == Free && k.views[d] == Free;
    var m1, k1 := FirstHalf(k, name, c);
    var m2, k2 := SecondHalf(Do(k1, Rpc(DropReply(c))), name, c, d, k.server.Version(name) + 1);
    states, moves := PlayAround(s, name, m1, k1, Rpc(DropReply(c)), m2, k2);
    l := |m1|;
    OneLoss(m1, Rpc(DropReply(c)), m2);
    assert states[l].pcs == k1.pcs && states[|moves|].pcs == k2.pcs;
    NotExclusive(states, name, moves, c, d);
  }

  // ----- Which networks keep the lock exclusive -----

  // What call a lost message belongs to, and whether it is the call's reply or its request.
  datatype CallKind = AcquireGet | AcquirePut | ReleaseGet | ReleasePut | OtherCall
  datatype Loss = Loss(call: CallKind, reply: bool)

  function KindOf(pc: Pc): CallKind {
    match pc
    case AcqReading => AcquireGet
    case AcqPutting(_) => AcquirePut
    case RelReading => ReleaseGet
    case RelPutting(_) => ReleasePut
    case _ => OtherCall
  }

  // The network loses only messages of these kinds.
  ghost predicate LosesOnly(states: seq<Sys>, moves: seq<Move>, kinds: set<Loss>) {
    && |states| == |moves| + 1
    && forall i :: 0 <= i < |moves| && IsLoss(moves[i]) ==>
         && moves[i].a.c < |states[i].pcs|
         && Loss(KindOf(states[i].pcs[moves[i].a.c]), moves[i].a.DropReply?) in kinds
  }

  // No two clients are between a returned Acquire and the Release put that takes effect.
  ghost predicate Exclusive(s: Sys) {
    && |s.pcs| == |s.kv.phase|
    && forall c, d | 0 <= c < |s.pcs| && 0 <= d < |s.pcs| ::
         InCritical(s.pcs[c], ViewOf(s.kv, c)) && InCritical(s.pcs[d], ViewOf(s.kv, d)) ==> c == d
  }

  // From s, every run over a network that loses only messages of these kinds excludes.
  ghost predicate AlwaysExclusive(s: Sys, name: string, kinds: set<Loss>) {
    forall states, moves ::
      Run(states, name, moves) && states[0] == s && LosesOnly(states, moves, kinds) ==> Exclusive(states[|moves|])
  }

  lemma KeptExcludes(states: seq<Sys>, name: string, moves: seq<Move>, kinds: set<Loss>)
    requires Run(states, name, moves) && LosesOnly(states, moves, kinds) && Loss(ReleasePut, true) !in kinds
    ensures Exclusive(states[|moves|])
  {
    forall i | 0 <= i < |moves| ensures !LosesRelease(states[i], moves[i]) {
      assert IsLoss(moves[i]) ==> Loss(KindOf(states[i].pcs[moves[i].a.c]), moves[i].a.DropReply?) in kinds;
    }
    RunCertain(states, name, moves, |moves|);
  }

  // Two clients or more, and any choice of the kinds of message the network may lose: the lock
  // excludes in all runs if and only if replies to Release's puts are not among them.
  lemma ExclusiveIffReleasesKept(s: Sys, name: string, kinds: set<Loss>)
    requires Start(s, name) && |s.pcs| >= 2
    ensures AlwaysExclusive(s, name, kinds) <==> Loss(ReleasePut, true) !in kinds
  {
    if Loss(ReleasePut, true) in kinds {
      var states, moves, l := BothInside(s, name, 0, 1);
      assert LosesOnly(states, moves, kinds);
      assert !Exclusive(states[|moves|]);
    } else {
      forall states, moves | Run(states, name, moves) && states[0] == s && LosesOnly(states, moves, kinds)
        ensures Exclusive(states[|moves|])
      {
        KeptExcludes(states, name, moves, kinds);
      }
    }
  }
}
