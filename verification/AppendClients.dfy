// Clients that append to one shared key over the lossy Clerk, and the check that every
// finished run passes.

module AppendClients {
  import opened KvTypes
  import opened KvSystem
  import opened KvView

  const K := "k"

  // Where a client is: about to read (at the top of an iteration, or retrying), reading, about
  // to write es at version ver, writing it, or stopped by a fatal error.
  datatype Pc =
    | Ready(top: bool)
    | Reading
    | Have(ver: nat, es: seq<Entry>)
    | Writing(ver: nat, es: seq<Entry>)
    | Failed

  // i is the next number to append; every earlier one ended in OK (nok) or ErrMaybe (nmay).
  datatype Prog = Prog(pc: Pc, i: nat, nok: nat, nmay: nat)

  datatype Sys = Sys(kv: State, progs: seq<Prog>)

  // The operation client c's program invokes next.
  predicate Wants(p: Prog, input: Input) {
    match p.pc
    case Ready(_) => input == Get(K)
    case Have(ver, es) => input == Put(K, Entries(es), ver)
    case _ => false
  }

  function Invoked(p: Prog): Prog {
    match p.pc
    case Ready(_) => p.(pc := Reading)
    case Have(ver, es) => p.(pc := Writing(ver, es))
    case _ => p
  }

  // What client c's program does with a result: a read appends its own entry to what it read;
  // a write that is OK or ErrMaybe ends the iteration, any other is retried.
  function Returned(p: Prog, c: nat, r: Reply): Prog {
    match p.pc
    case Reading =>
      if r.err == OK && r.value.Entries? then p.(pc := Have(r.version, r.value.es + [Entry(c, p.i)])) else p.(pc := Failed)
    case Writing(_, _) =>
      if r.err == OK then Prog(Ready(true), p.i + 1, p.nok + 1, p.nmay)
      else if r.err == ErrMaybe then Prog(Ready(true), p.i + 1, p.nok, p.nmay + 1)
      else p.(pc := Ready(false))
    case _ => p
  }

  ghost predicate Step(s: Sys, a: Action, t: Sys) {
    && |s.progs| == |s.kv.phase|
    && Enabled(s.kv, a)
    && t.kv == Next(s.kv, a)
    && match a
       case Invoke(c, input) => Wants(s.progs[c], input) && t.progs == s.progs[c := Invoked(s.progs[c])]
       case Return(c) => t.progs == s.progs[c := Returned(s.progs[c], c, Result(s.kv, c))]
       case _ => t.progs == s.progs
  }

  // The key holds an empty list at version 1, no call is under way, and no client has begun.
  ghost predicate Start(s: Sys) {
    && Reachable(s.kv)
    && K in s.kv.server.data && s.kv.server.data[K] == Entries([]) && s.kv.server.Version(K) == 1
    && |s.progs| == |s.kv.phase|
    && forall c :: 0 <= c < |s.progs| ==> s.kv.phase[c] == Idle && s.progs[c] == Prog(Ready(true), 0, 0, 0)
  }

  ghost predicate Run(states: seq<Sys>, actions: seq<Action>) {
    && |states| == |actions| + 1
    && Start(states[0])
    && forall i :: 0 <= i < |actions| ==> Step(states[i], actions[i], states[i + 1])
  }

  // Every client has stopped between two iterations.
  ghost predicate Finished(s: Sys) {
    forall c :: 0 <= c < |s.progs| ==> s.progs[c].pc == Ready(true)
  }

  // ----- What the shared list looks like -----

  // The number the checker expects next from client c, after the entries of es.
  function NextN(es: seq<Entry>, c: nat): nat {
    if es == [] then 0
    else if es[|es| - 1].id == c then es[|es| - 1].n + 1
    else NextN(es[..|es| - 1], c)
  }

  function CountOf(es: seq<Entry>, c: nat): nat {
    if es == [] then 0
    else CountOf(es[..|es| - 1], c) + (if es[|es| - 1].id == c then 1 else 0)
  }

  // No entry is older than what was expected from its client.
  predicate InOrder(es: seq<Entry>) {
    es == [] || (InOrder(es[..|es| - 1]) && es[|es| - 1].n >= NextN(es[..|es| - 1], es[|es| - 1].id))
  }

  lemma {:induction false} NextNBound(es: seq<Entry>, c: nat, a: nat)
    requires InOrder(es) && a < |es| && es[a].id == c
    ensures es[a].n < NextN(es, c)
  {
    if a < |es| - 1 { NextNBound(es[..|es| - 1], c, a); }
  }

  // Each client's numbers strictly increase.
  lemma {:induction false} InOrderIncreases(es: seq<Entry>, a: nat, b: nat)
    requires InOrder(es) && a < b < |es| && es[a].id == es[b].id
    ensures es[a].n < es[b].n
  {
    var n := |es| - 1;
    if b < n {
      InOrderIncreases(es[..n], a, b);
    } else {
      NextNBound(es[..n], es[a].id, a);
    }
  }

  // ----- The invariant -----

  ghost function Shared(s: Sys): seq<Entry> {
    if K in s.kv.server.data && s.kv.server.data[K].Entries? then s.kv.server.data[K].es else []
  }

  ghost predicate ListInv(s: Sys) {
    && K in s.kv.server.data && s.kv.server.data[K].Entries?
    && s.kv.server.Version(K) == |Shared(s)| + 1
    && InOrder(Shared(s))
    && forall e :: e in Shared(s) ==> e.id < |s.progs|
  }

  // es is the shared list as it was at version ver.
  ghost predicate WasAt(shared: seq<Entry>, ver: nat, es: seq<Entry>) {
    1 <= ver <= |shared| + 1 && es == shared[..ver - 1]
  }

  // What client c may be doing, and what of it the shared list already shows.
  ghost predicate ClientInv(p: Prog, c: nat, view: View, shared: seq<Entry>) {
    && p.nok + p.nmay == p.i
    && (match p.pc
        case Ready(_) => view == Free
        case Reading =>
          !view.Free? && view.input == Get(K) && !view.landed
          && (view.Told? ==> view.reply.err == OK && view.reply.value.Entries? && WasAt(shared, view.reply.version, view.reply.value.es))
        case Have(ver, es) =>
          view == Free && 1 <= ver <= |shared| + 1 && es == shared[..ver - 1] + [Entry(c, p.i)]
        case Writing(ver, es) =>
          !view.Free? && view.input == Put(K, Entries(es), ver) && 1 <= ver
          && (if view.landed then ver <= |shared| else ver <= |shared| + 1 && es == shared[..ver - 1] + [Entry(c, p.i)])
        case Failed => false)
    && (var landed := if p.pc.Writing? && view.landed then 1 else 0;
        NextN(shared, c) <= p.i + landed && CountOf(shared, c) >= p.nok + landed)
  }

  ghost predicate AppendInv(s: Sys) {
    && KvSystem.Inv(s.kv)
    && |s.progs| == |s.kv.phase|
    && ListInv(s)
    && forall c :: 0 <= c < |s.progs| ==> ClientInv(s.progs[c], c, ViewOf(s.kv, c), Shared(s))
  }

  lemma StartInv(s: Sys)
    requires Start(s)
    ensures AppendInv(s)
  {
    ReachableInv(s.kv);
  }

  // Another client's append changes nothing this client relies on.
  lemma AppendFrame(p: Prog, c: nat, view: View, shared: seq<Entry>, e: Entry)
    requires ClientInv(p, c, view, shared) && e.id != c
    ensures ClientInv(p, c, view, shared + [e])
  {
    var grown := shared + [e];
    assert grown[..|shared|] == shared;
    assert forall n :: 0 <= n <= |shared| ==> grown[..n] == shared[..n];
  }

  // A client's own append lands: the list it read is still the list.
  lemma {:induction false} AppendOwn(p: Prog, c: nat, view: View, shared: seq<Entry>, after: View)
    requires ClientInv(p, c, view, shared) && InOrder(shared) && p.pc.Writing?
    requires !view.Free? && !view.landed && p.pc.ver == |shared| + 1
    requires after.Told? && after.landed && after.input == view.input
    ensures p.pc.es == shared + [Entry(c, p.i)]
    ensures InOrder(p.pc.es) && ClientInv(p, c, after, p.pc.es)
  {
    assert shared[..|shared|] == shared;
    var grown := shared + [Entry(c, p.i)];
    assert grown[..|shared|] == shared;
  }

  // The acting client's own step, when it leaves the shared list as it is.
  lemma ClientStep(p: Prog, c: nat, before: View, a: Action, server: Server, after: View, server': Server, result: Reply)
    requires K in server.data && server.data[K].Entries? && server.Version(K) == |server.data[K].es| + 1
    requires ClientInv(p, c, before, server.data[K].es)
    requires ViewStep(before, a, server, after, server', result)
    requires a.c == c && (a.Invoke? ==> Wants(p, a.input))
    requires a.Execute? ==> !server.Applies(before.input)
    ensures var p' := if a.Invoke? then Invoked(p) else if a.Return? then Returned(p, c, result) else p;
      ClientInv(p', c, after, server.data[K].es)
  {
    assert server.data[K].es[..|server.data[K].es|] == server.data[K].es;
  }

  // A write lands.
  lemma LandInv(s: Sys, a: Action, t: Sys)
    requires AppendInv(s) && Step(s, a, t) && a.Execute?
    requires !ViewOf(s.kv, a.c).Free? && s.kv.server.Applies(ViewOf(s.kv, a.c).input)
    ensures AppendInv(t)
  {
    NextInv(s.kv, a);
    var result := NextView(s.kv, a);
    var c, shared := a.c, Shared(s);
    var p := s.progs[c];
    assert ClientInv(p, c, ViewOf(s.kv, c), shared);
    AppendOwn(p, c, ViewOf(s.kv, c), shared, ViewOf(t.kv, c));
    forall d | 0 <= d < |t.progs| ensures ClientInv(t.progs[d], d, ViewOf(t.kv, d), Shared(t)) {
      if d != c { AppendFrame(s.progs[d], d, ViewOf(s.kv, d), shared, Entry(c, p.i)); }
    }
  }

  // Any other step leaves the shared list as it is.
  lemma QuietInv(s: Sys, a: Action, t: Sys)
    requires AppendInv(s) && Step(s, a, t)
    requires a.Execute? && !ViewOf(s.kv, a.c).Free? ==> !s.kv.server.Applies(ViewOf(s.kv, a.c).input)
    ensures AppendInv(t)
  {
    NextInv(s.kv, a);
    var result := NextView(s.kv, a);
    var c, shared := a.c, Shared(s);
    assert ClientInv(s.progs[c], c, ViewOf(s.kv, c), shared);
    ClientStep(s.progs[c], c, ViewOf(s.kv, c), a, s.kv.server, ViewOf(t.kv, c), t.kv.server, result);
    assert Shared(t) == shared;
    forall d | 0 <= d < |t.progs| ensures ClientInv(t.progs[d], d, ViewOf(t.kv, d), Shared(t)) {
      if d != c { assert ClientInv(s.progs[d], d, ViewOf(s.kv, d), shared); }
    }
  }

  lemma StepInv(s: Sys, a: Action, t: Sys)
    requires AppendInv(s) && Step(s, a, t)
    ensures AppendInv(t)
  {
    if a.Execute? && !ViewOf(s.kv, a.c).Free? && s.kv.server.Applies(ViewOf(s.kv, a.c).input) {
      LandInv(s, a, t);
    } else {
      QuietInv(s, a, t);
    }
  }

  lemma {:induction false} RunInv(states: seq<Sys>, actions: seq<Action>, i: nat)
    requires Run(states, actions) && i <= |actions|
    ensures AppendInv(states[i])
  {
    if i == 0 {
      StartInv(states[0]);
    } else {
      RunInv(states, actions, i - 1);
      StepInv(states[i - 1], actions[i - 1], states[i]);
    }
  }

  // ----- The check -----

  // What the check demands of the final list and version.
  ghost predicate Passes(es: seq<Entry>, rs: seq<ClntRes>, ver: nat) {
    && InOrder(es)
    && |es| + 1 == ver
    && forall c :: 0 <= c < |rs| ==>
         && NextN(es, c) - CountOf(es, c) <= rs[c].nmaybe
         && NextN(es, c) <= rs[c].nok + rs[c].nmaybe
  }

  // The first two loops: what is expected next of each client, and how many it skipped. False
  // when an entry is older than what was expected.
  method Tally(es: seq<Entry>, nclnt: nat) returns (ok: bool, expected: map<nat, nat>, skipped: map<nat, int>)
    requires forall e :: e in es ==> e.id < nclnt
    ensures ok <==> InOrder(es)
    ensures ok ==> forall c :: 0 <= c < nclnt ==> c in expected && expected[c] == NextN(es, c)
    ensures ok ==> forall c :: 0 <= c < nclnt ==> c in skipped && skipped[c] == NextN(es, c) - CountOf(es, c)
  {
    expected, skipped := map[], map[];
    for c := 0 to nclnt
      invariant forall d :: 0 <= d < c ==> d in expected && d in skipped && expected[d] == 0 == skipped[d]
    {
      expected, skipped := expected[c := 0], skipped[c := 0];
    }
    for k := 0 to |es|
      invariant InOrder(es[..k])
      invariant forall c :: 0 <= c < nclnt ==> c in expected && expected[c] == NextN(es[..k], c)
      invariant forall c :: 0 <= c < nclnt ==> c in skipped && skipped[c] == NextN(es[..k], c) - CountOf(es[..k], c)
    {
      var e := es[k];
      assert e in es && es[..k + 1][..k] == es[..k];
      if expected[e.id] > e.n {
        NotInOrder(es, k);
        return false, expected, skipped;
      } else if expected[e.id] == e.n {
        expected := expected[e.id := expected[e.id] + 1];
      } else {
        var s := e.n - expected[e.id];
        expected := expected[e.id := e.n + 1];
        skipped := skipped[e.id := skipped[e.id] + s];
      }
    }
    assert es[..|es|] == es;
    ok := true;
  }

  // True when the check would not stop the test. Every id names a client.
  method CheckAppends(es: seq<Entry>, nclnt: nat, rs: seq<ClntRes>, ver: nat) returns (ok: bool)
    requires nclnt == |rs| && forall e :: e in es ==> e.id < nclnt
    ensures ok <==> Passes(es, rs, ver)
  {
    var inOrder, expected, skipped := Tally(es, nclnt);
    if !inOrder {
      return false;
    }
    if |es| + 1 != ver {
      return false;
    }
    for c := 0 to nclnt
      invariant forall d :: 0 <= d < c ==>
        NextN(es, d) - CountOf(es, d) <= rs[d].nmaybe && NextN(es, d) <= rs[d].nok + rs[d].nmaybe
    {
      if skipped[c] > rs[c].nmaybe {
        return false;
      }
      if expected[c] > rs[c].nok + rs[c].nmaybe {
        return false;
      }
    }
    return true;
  }

  lemma {:induction false} NotInOrder(es: seq<Entry>, k: nat)
    requires k < |es| && !InOrder(es[..k + 1])
    ensures !InOrder(es)
  {
    if k + 1 < |es| {
      assert es[..|es| - 1][..k + 1] == es[..k + 1];
      NotInOrder(es[..|es| - 1], k);
    } else {
      assert es[..k + 1] == es;
    }
  }

  ghost function Results(s: Sys): seq<ClntRes> {
    seq(|s.progs|, c requires 0 <= c < |s.progs| => ClntRes(s.progs[c].nok, s.progs[c].nmay))
  }

  // Every finished run passes the check: numbers increase, a client skips no more numbers than
  // it had ErrMaybes, and the version counts the entries.
  lemma FinishedRunPasses(states: seq<Sys>, actions: seq<Action>)
    requires Run(states, actions) && Finished(states[|actions|])
    ensures var s := states[|actions|];
      && K in s.kv.server.data && s.kv.server.data[K] == Entries(Shared(s))
      && (forall e :: e in Shared(s) ==> e.id < |s.progs|)
      && Passes(Shared(s), Results(s), s.kv.server.Version(K))
  {
    RunInv(states, actions, |actions|);
    var s := states[|actions|];
    forall c | 0 <= c < |s.progs|
      ensures NextN(Shared(s), c) - CountOf(Shared(s), c) <= s.progs[c].nmay
      ensures NextN(Shared(s), c) <= s.progs[c].nok + s.progs[c].nmay
    {
      assert ClientInv(s.progs[c], c, ViewOf(s.kv, c), Shared(s));
    }
  }

  // ----- A client left alone appends -----

  // These actions lead from s to t.
  ghost predicate Path(states: seq<Sys>, actions: seq<Action>, s: Sys, t: Sys) {
    && |states| == |actions| + 1 && states[0] == s && states[|actions|] == t
    && forall i :: 0 <= i < |actions| ==> Step(states[i], actions[i], states[i + 1])
  }

  lemma PathMore(states: seq<Sys>, actions: seq<Action>, s: Sys, t: Sys, a: Action, u: Sys)
    requires Path(states, actions, s, t) && Step(t, a, u)
    ensures Path(states + [u], actions + [a], s, u)
  {
    var all, more := states + [u], actions + [a];
    forall i | 0 <= i < |more| ensures Step(all[i], more[i], all[i + 1]) {
      if i < |actions| { assert Step(states[i], actions[i], states[i + 1]); }
    }
  }

  // One undisturbed operation of client c's program.
  lemma OneOp(states: seq<Sys>, actions: seq<Action>, s: Sys, t: Sys, c: nat, input: Input)
    returns (all: seq<Sys>, more: seq<Action>, u: Sys)
    requires Path(states, actions, s, t)
    requires c < |t.progs| == |t.kv.phase| && t.kv.phase[c] == Idle && Wants(t.progs[c], input)
    ensures Path(all, more, s, u) && u.kv.phase == t.kv.phase && u.kv.server == t.kv.server.Handle(input).0
    ensures u.progs == t.progs[c := Returned(Invoked(t.progs[c]), c, t.kv.server.Handle(input).1)]
  {
    var k1, k2, k3 := UndisturbedCall(t.kv, c, input);
    var progs := t.progs[c := Invoked(t.progs[c])];
    var u1, u2 := Sys(k1, progs), Sys(k2, progs);
    u := Sys(k3, progs[c := Returned(progs[c], c, Result(k2, c))]);
    PathMore(states, actions, s, t, Action.Invoke(c, input), u1);
    PathMore(states + [u1], actions + [Action.Invoke(c, input)], s, u1, Execute(c), u2);
    all, more := states + [u1] + [u2], actions + [Action.Invoke(c, input)] + [Execute(c)];
    PathMore(all, more, s, u2, Return(c), u);
    all, more := all + [u], more + [Return(c)];
  }

  // From any state of a run, a client between two operations that is left alone has its next
  // entry at the end of the list, counts an OK, and goes on with the next number.
  lemma AloneAppends(s: Sys, c: nat) returns (states: seq<Sys>, actions: seq<Action>, t: Sys)
    requires AppendInv(s) && c < |s.progs| && s.progs[c].pc.Ready? && s.kv.phase[c] == Idle
    ensures Path(states, actions, s, t)
    ensures var p := s.progs[c]; t.progs == s.progs[c := Prog(Ready(true), p.i + 1, p.nok + 1, p.nmay)]
    ensures K in t.kv.server.data && t.kv.server.data[K] == Entries(Shared(s) + [Entry(c, s.progs[c].i)])
  {
    var p := s.progs[c];
    var es := Shared(s) + [Entry(c, p.i)];
    assert s.kv.server.Valid() by { assert s.kv.server == KvLog.Replay(s.kv.log); }
    var mid;
    states, actions, mid := OneOp([s], [], s, s, c, Get(K));
    assert mid.progs[c] == p.(pc := Have(s.kv.server.Version(K), es));
    states, actions, t := OneOp(states, actions, s, mid, c, Put(K, Entries(es), s.kv.server.Version(K)));
  }
}
